/**
 * The registry's tables (core_directory/models.py).
 *
 * Each table is a sequence of rows and a row's primary key is its index;
 * a foreign key is the index of the referenced row. The database is the
 * class `Registry`, whose methods are the writes the ingestion performs:
 * get-or-create of vendors, libraries, projects and targets, the checked
 * save of a core package, and the plain inserts of filesets, dependencies
 * and target configurations.
 *
 * Field values that Python keeps as arbitrary objects (a description, a
 * licence, JSON columns) are `Json` values, because the ingestion hands
 * over whatever the core file's YAML held.
 */
module Models {
  import opened Wrappers
  import opened Text
  import opened Json
  import Sanitize
  import SemVer
  import Spdx

  datatype Vendor = Vendor(name: string, sanitizedName: string)

  datatype Library = Library(vendor: nat, name: string, sanitizedName: string)

  datatype Project = Project(vendor: nat, library: nat, name: string, description: string, sanitizedName: string)

  /**
   * A `CorePackage` instance. The four derived version fields are `None`
   * until a save has set them. A file field holds the stored file's name,
   * `""` when there is none.
   */
  datatype CorePackage = CorePackage(
    project: nat,
    vlnvName: string,
    version: string,
    versionMajor: Option<int>,
    versionMinor: Option<int>,
    versionPatch: Option<int>,
    versionPrerelease: Option<string>,
    coreFile: string,
    signatureFile: string,
    description: Json,
    spdxLicense: Json,
    sanitizedName: string)

  /** A fileset row; `file_type` is a text column, so it holds the `str()` of the value it was given, or nothing. */
  datatype Fileset = Fileset(corePackage: nat, name: string, files: Json, fileType: Option<string>)

  datatype FilesetDependency = FilesetDependency(fileset: nat, dependencyCoreName: string, dependencyCondition: Option<string>, corePackage: nat)

  datatype Target = Target(name: string, description: Option<string>)

  /** A target configuration row; `parameters` is a JSON column, the other three values are text columns. */
  datatype TargetConfiguration = TargetConfiguration(
    corePackage: nat,
    target: nat,
    filesets: set<nat>,
    parameters: Json,
    defaultTool: Option<string>,
    flow: Option<string>,
    description: Option<string>)

  /** Why a save did not persist: `full_clean` errors by field name, or a database constraint. */
  datatype SaveError = Invalid(fields: set<string>) | Integrity(constraint: string)

  const NameMaxLength: nat := 255
  const VersionMaxLength: nat := 50
  const PrereleaseMaxLength: nat := 20
  const LicenseMaxLength: nat := 64

  /* ---------------------------------------------------------------- */
  /* Sanitized names                                                   */
  /* ---------------------------------------------------------------- */

  /** The name that `get_unique_sanitized_name` may return: free, and the first free probe. */
  predicate FreshSanitized(s: string, names: seq<string>, source: string, instance: Option<nat>)
  {
    && s !in Sanitize.Taken(names, instance)
    && Sanitize.SanitizeString(source) <= s
    && (Sanitize.SanitizeString(source) !in Sanitize.Taken(names, instance) ==> s == Sanitize.SanitizeString(source))
  }

  /**
   * The sanitized-name step of `UniqueSanitizedNameMixin.save`: a name that
   * is already set is kept; an empty one is computed from the source field
   * (`name`, or `version` for a core package), unique over every row of the
   * table except the instance itself.
   */
  method SanitizedNameOnSave(current: string, source: string, names: seq<string>, instance: Option<nat>) returns (s: string)
    ensures current != "" ==> s == current
    ensures current == "" ==> FreshSanitized(s, names, source, instance)
  {
    if current == "" {
      s := Sanitize.GetUniqueSanitizedName(names, source, instance);
    } else {
      s := current;
    }
  }

  predicate Distinct(names: seq<string>)
  {
    forall i, j :: 0 <= i < j < |names| ==> names[i] != names[j]
  }

  /** A name outside `Taken(names, None)` extends distinct names to distinct names. */
  lemma DistinctAppend(names: seq<string>, s: string)
    requires Distinct(names) && s !in Sanitize.Taken(names, None)
    ensures Distinct(names + [s])
  {
    forall i | 0 <= i < |names|
      ensures names[i] != s
    {
      assert names[i] in Sanitize.Taken(names, None);
    }
  }

  /** Replacing entry k by a name outside `Taken(names, Some(k))` keeps names distinct. */
  lemma DistinctReplace(names: seq<string>, k: nat, s: string)
    requires k < |names| && Distinct(names) && s !in Sanitize.Taken(names, Some(k))
    ensures Distinct(names[k := s])
  {
    forall i | 0 <= i < |names| && i != k
      ensures names[i] != s
    {
      assert names[i] in Sanitize.Taken(names, Some(k));
    }
  }

  function VendorSanitizedNames(rows: seq<Vendor>): (r: seq<string>)
    ensures |r| == |rows| && forall i :: 0 <= i < |rows| ==> r[i] == rows[i].sanitizedName
  {
    seq(|rows|, i requires 0 <= i < |rows| => rows[i].sanitizedName)
  }

  function LibrarySanitizedNames(rows: seq<Library>): (r: seq<string>)
    ensures |r| == |rows| && forall i :: 0 <= i < |rows| ==> r[i] == rows[i].sanitizedName
  {
    seq(|rows|, i requires 0 <= i < |rows| => rows[i].sanitizedName)
  }

  function ProjectSanitizedNames(rows: seq<Project>): (r: seq<string>)
    ensures |r| == |rows| && forall i :: 0 <= i < |rows| ==> r[i] == rows[i].sanitizedName
  {
    seq(|rows|, i requires 0 <= i < |rows| => rows[i].sanitizedName)
  }

  function PackageSanitizedNames(rows: seq<CorePackage>): (r: seq<string>)
    ensures |r| == |rows| && forall i :: 0 <= i < |rows| ==> r[i] == rows[i].sanitizedName
  {
    seq(|rows|, i requires 0 <= i < |rows| => rows[i].sanitizedName)
  }

  /* ---------------------------------------------------------------- */
  /* Lookups (`objects.filter(...).first()` and `get_or_create`)       */
  /* ---------------------------------------------------------------- */

  /** The first row that satisfies `p`. */
  function FirstWhere<T>(rows: seq<T>, p: T -> bool): (r: Option<nat>)
    ensures r.Some? ==> r.value < |rows| && p(rows[r.value]) && forall i :: 0 <= i < r.value ==> !p(rows[i])
    ensures r.None? ==> forall i :: 0 <= i < |rows| ==> !p(rows[i])
  {
    if |rows| == 0 then None
    else if p(rows[0]) then Some(0)
    else
      var r := FirstWhere(rows[1..], p);
      if r.Some? then Some(r.value + 1) else None
  }

  function FindVendor(rows: seq<Vendor>, name: string): Option<nat>
  {
    FirstWhere(rows, (v: Vendor) => v.name == name)
  }

  function FindLibrary(rows: seq<Library>, vendor: nat, name: string): Option<nat>
  {
    FirstWhere(rows, (l: Library) => l.vendor == vendor && l.name == name)
  }

  function FindProject(rows: seq<Project>, vendor: nat, library: nat, name: string): Option<nat>
  {
    FirstWhere(rows, (p: Project) => p.vendor == vendor && p.library == library && p.name == name)
  }

  function FindTarget(rows: seq<Target>, name: string): Option<nat>
  {
    FirstWhere(rows, (t: Target) => t.name == name)
  }

  /* ---------------------------------------------------------------- */
  /* Field validation of a core package (`full_clean`)                 */
  /* ---------------------------------------------------------------- */

  /** Django's `empty_values`: `None`, `''`, `[]` and `{}`. */
  predicate IsEmptyValue(j: Json)
  {
    j == Null || j == Str("") || j == Arr([]) || j == Obj([])
  }

  /** `CharField.to_python`: `None` stays `None`, a string stays as it is, anything else becomes its `str()`. */
  function CharText(j: Json): (r: Option<string>)
    ensures r.None? <==> j == Null
    ensures j.Str? ==> r == Some(j.s)
    ensures j != Null && !j.Str? ==> r.value != ""
  {
    if j == Null then None else Some(StrOf(j))
  }

  /**
   * The checks every `CharField` runs on a value that is not empty: the
   * maximum length, and `ProhibitNullCharactersValidator`.
   */
  predicate CharTextInvalid(s: string, maxLength: nat)
  {
    |s| > maxLength || '\0' in s
  }

  /** `vlnv_name`: required, at most 255 characters. */
  predicate VlnvNameInvalid(s: string)
  {
    s == "" || CharTextInvalid(s, NameMaxLength)
  }

  /** `version`: required, at most 50 characters, and (`clean`) a semantic version. */
  predicate VersionInvalid(s: string)
  {
    s == "" || CharTextInvalid(s, VersionMaxLength) || SemVer.Parse(s).None?
  }

  /**
   * `description`: required and not blank once converted, so `[]` and `{}`
   * pass as the texts "[]" and "{}"; at most 255 characters.
   */
  predicate DescriptionInvalid(j: Json)
  {
    CharText(j).None? || CharText(j).value == "" || CharTextInvalid(CharText(j).value, NameMaxLength)
  }

  /**
   * `spdx_license`: a value in `empty_values` is skipped; otherwise its
   * text must be one of the listed identifiers, of at most 64 characters.
   */
  predicate LicenseInvalid(m: Spdx.LicenseMap, j: Json)
  {
    !IsEmptyValue(j) && (CharText(j).None? || CharText(j).value !in m || CharTextInvalid(CharText(j).value, LicenseMaxLength))
  }

  /** The user-supplied fields of a package pass field validation (the project reference aside). */
  predicate FieldsValid(m: Spdx.LicenseMap, p: CorePackage)
  {
    !VlnvNameInvalid(p.vlnvName) && !VersionInvalid(p.version) && p.coreFile != ""
    && !DescriptionInvalid(p.description) && !LicenseInvalid(m, p.spdxLicense)
  }

  /** The fields that `clean_fields` and `clean` reject, by name. */
  function FieldErrors(m: Spdx.LicenseMap, nProjects: nat, p: CorePackage): (errors: set<string>)
    ensures errors == {} <==> p.project < nProjects && FieldsValid(m, p)
  {
    (if p.project >= nProjects then {"project"} else {})
    + (if VlnvNameInvalid(p.vlnvName) then {"vlnv_name"} else {})
    + (if VersionInvalid(p.version) then {"version"} else {})
    + (if p.coreFile == "" then {"core_file"} else {})
    + (if DescriptionInvalid(p.description) then {"description"} else {})
    + (if LicenseInvalid(m, p.spdxLicense) then {"spdx_license"} else {})
  }

  /** Another row (not the instance itself) already has this project and version. */
  predicate DuplicateVersion(packages: seq<CorePackage>, p: CorePackage, instance: Option<nat>)
  {
    exists j :: 0 <= j < |packages| && instance != Some(j) && packages[j].project == p.project && packages[j].version == p.version
  }

  /**
   * `full_clean` before the derived fields are set: the field errors, and
   * the `(project, version)` uniqueness error, which is only checked when
   * neither of its fields already failed.
   */
  function CleanErrors(m: Spdx.LicenseMap, nProjects: nat, packages: seq<CorePackage>, p: CorePackage, instance: Option<nat>): (errors: set<string>)
    ensures errors == {} <==> p.project < nProjects && FieldsValid(m, p) && !DuplicateVersion(packages, p, instance)
    ensures VersionInvalid(p.version) ==> "version" in errors
    ensures "__all__" in errors ==> DuplicateVersion(packages, p, instance)
  {
    var fieldErrors := FieldErrors(m, nProjects, p);
    assert VersionInvalid(p.version) ==> "version" in fieldErrors;
    assert fieldErrors == {} ==> "project" !in fieldErrors && "version" !in fieldErrors;
    assert "__all__" !in fieldErrors by {
      assert "__all__"[0] != "project"[0] && "__all__"[0] != "version"[0];
    }
    fieldErrors
    + (if "project" !in fieldErrors && "version" !in fieldErrors && DuplicateVersion(packages, p, instance) then {"__all__"} else {})
  }

  /**
   * The instance after `clean_fields` has written back what it checked:
   * the description and a licence that is not empty hold what `to_python`
   * made of them; an empty licence is skipped and kept as it was.
   */
  function Cleaned(p: CorePackage): (c: CorePackage)
    ensures c.description == Null || c.description.Str?
    ensures IsEmptyValue(c.spdxLicense) <==> IsEmptyValue(p.spdxLicense)
    ensures !IsEmptyValue(c.spdxLicense) ==> c.spdxLicense.Str?
    ensures CharText(c.description) == CharText(p.description)
    ensures !IsEmptyValue(p.spdxLicense) ==> CharText(c.spdxLicense) == CharText(p.spdxLicense)
    ensures c.(description := p.description, spdxLicense := p.spdxLicense) == p
  {
    p.(description := if p.description == Null then Null else Str(StrOf(p.description)),
       spdxLicense := if IsEmptyValue(p.spdxLicense) then p.spdxLicense else Str(StrOf(p.spdxLicense)))
  }

  /** Cleaning what was cleaned changes nothing, so the second `full_clean` writes the same values. */
  lemma CleanedIdempotent(p: CorePackage)
    ensures Cleaned(Cleaned(p)) == Cleaned(p)
  {
  }

  /** The second `full_clean`, on the written-back values, finds the same field errors as the first. */
  lemma CleanedFieldErrors(m: Spdx.LicenseMap, nProjects: nat, p: CorePackage)
    ensures FieldErrors(m, nProjects, Cleaned(p)) == FieldErrors(m, nProjects, p)
  {
  }

  /** An empty list or dict is a valid description, saved as the text `[]` or `{}`; `None` and `""` are refused. */
  lemma EmptyContainerDescription(p: CorePackage)
    requires p.description == Arr([]) || p.description == Obj([])
    ensures !DescriptionInvalid(p.description)
    ensures Cleaned(p).description == (if p.description.Arr? then Str("[]") else Str("{}"))
    ensures DescriptionInvalid(Null) && DescriptionInvalid(Str(""))
  {
    StrOfEmpty();
  }

  /* ---------------------------------------------------------------- */
  /* Derived version fields                                            */
  /* ---------------------------------------------------------------- */

  /** `semver.prerelease or ''` */
  function PrereleaseOrEmpty(pre: Option<string>): string
  {
    if pre.Some? then pre.value else ""
  }

  /** The instance after `CorePackage.save` has parsed `version` into the four derived fields. */
  function Derive(p: CorePackage): (d: CorePackage)
    requires SemVer.Parse(p.version).Some?
    ensures d.versionMajor.Some? && d.versionMinor.Some? && d.versionPatch.Some? && d.versionPrerelease.Some?
  {
    var v := SemVer.Parse(p.version).value;
    p.(versionMajor := Some(v.major), versionMinor := Some(v.minor), versionPatch := Some(v.patch),
       versionPrerelease := Some(PrereleaseOrEmpty(v.prerelease)))
  }

  /**
   * The derived fields come from `version` alone: the major, minor and patch
   * numbers and pre-release of the version the string prints, `""` for a
   * release; whatever the caller had put in them is overwritten.
   */
  lemma DeriveOfFormat(p: CorePackage, v: SemVer.Version)
    requires SemVer.WellFormed(v) && p.version == SemVer.Format(v)
    ensures SemVer.Parse(p.version).Some?
    ensures Derive(p) == p.(versionMajor := Some(v.major), versionMinor := Some(v.minor), versionPatch := Some(v.patch),
                            versionPrerelease := Some(if v.prerelease.Some? then v.prerelease.value else ""))
  {
    SemVer.ParseFormat(v);
  }

  /** Two instances that differ only in their derived fields are saved alike. */
  lemma DeriveIgnoresSupplied(p: CorePackage, q: CorePackage)
    requires SemVer.Parse(p.version).Some?
    requires q == p.(versionMajor := q.versionMajor, versionMinor := q.versionMinor, versionPatch := q.versionPatch,
                     versionPrerelease := q.versionPrerelease)
    ensures Derive(p) == Derive(q)
  {
  }

  /** `1.2.3-rc1` is stored as major 1, minor 2, patch 3 and pre-release `rc1`. */
  lemma DeriveExample(p: CorePackage)
    requires p.version == "1.2.3-rc1"
    ensures SemVer.Parse(p.version).Some?
    ensures Derive(p).versionMajor == Some(1) && Derive(p).versionMinor == Some(2) && Derive(p).versionPatch == Some(3)
    ensures Derive(p).versionPrerelease == Some("rc1")
  {
    SemVer.ParseExample();
  }

  /** `bad` is not a version: the save fails on `version`. */
  lemma BadVersionRejected(m: Spdx.LicenseMap, nProjects: nat, packages: seq<CorePackage>, p: CorePackage, instance: Option<nat>)
    requires p.version == "bad"
    ensures "version" in CleanErrors(m, nProjects, packages, p, instance)
  {
    SemVer.ParseRejects();
  }

  /* ---------------------------------------------------------------- */
  /* Accessors                                                         */
  /* ---------------------------------------------------------------- */

  /** `is_signed`: there is a signature file. */
  predicate IsSigned(p: CorePackage)
  {
    p.signatureFile != ""
  }

  /**
   * `get_license_url()`: nothing for an empty licence; for a licence
   * string, the SPDX URL lookup. A licence of another truthy scalar type
   * is no key of the list, so it gives nothing too. A non-empty list or
   * dict is not hashable, so the lookup would raise `TypeError`; callers
   * pass no such value (a saved package holds text or nothing).
   */
  function LicenseUrl(m: Spdx.LicenseMap, p: CorePackage): (r: Option<string>)
    requires Truthy(p.spdxLicense) ==> !p.spdxLicense.Arr? && !p.spdxLicense.Obj?
    ensures !Truthy(p.spdxLicense) ==> r == None
    ensures p.spdxLicense.Str? && p.spdxLicense.s != "" ==> r == Spdx.LicenseUrl(m, p.spdxLicense.s)
    ensures r.Some? ==> p.spdxLicense.Str? && p.spdxLicense.s in m
    ensures Truthy(p.spdxLicense) && !p.spdxLicense.Str? ==> r == None
  {
    if Truthy(p.spdxLicense) && p.spdxLicense.Str? then Spdx.LicenseUrl(m, p.spdxLicense.s) else None
  }

  /** For a package that passed validation with a licence string, the URL is the list's URL for that identifier. */
  lemma LicenseUrlOfValid(m: Spdx.LicenseMap, p: CorePackage)
    requires FieldsValid(m, p) && p.spdxLicense.Str? && p.spdxLicense.s != ""
    ensures p.spdxLicense.s in m
    ensures LicenseUrl(m, p) == Spdx.LicenseUrl(m, p.spdxLicense.s)
    ensures m[p.spdxLicense.s].seeAlso.Some? && |m[p.spdxLicense.s].seeAlso.value| > 0 && m[p.spdxLicense.s].seeAlso.value[0] != ""
      ==> LicenseUrl(m, p) == Some(m[p.spdxLicense.s].seeAlso.value[0])
  {
  }

  /** `sanitized_vlnv`: the four stored sanitized names joined with `_`. */
  function SanitizedVlnv(vendor: Vendor, library: Library, project: Project, package: CorePackage): (r: string)
    ensures |r| == |vendor.sanitizedName| + |library.sanitizedName| + |project.sanitizedName| + |package.sanitizedName| + 3
    ensures var a, b, c := |vendor.sanitizedName|, |library.sanitizedName|, |project.sanitizedName|;
      && r[..a] == vendor.sanitizedName && r[a] == '_'
      && r[a + 1..a + 1 + b] == library.sanitizedName && r[a + 1 + b] == '_'
      && r[a + 2 + b..a + 2 + b + c] == project.sanitizedName && r[a + 2 + b + c] == '_'
      && r[a + 3 + b + c..] == package.sanitizedName
  {
    vendor.sanitizedName + "_" + library.sanitizedName + "_" + project.sanitizedName + "_" + package.sanitizedName
  }

  /** The keyword arguments `get_absolute_url` passes to the `core-detail-vlnv` route. */
  datatype UrlSegments = UrlSegments(vendor: string, library: string, core: string, version: string)

  /** The route segments: the sanitized names, with `~` standing for an empty library name. */
  function AbsoluteUrlSegments(vendor: Vendor, library: Library, project: Project, package: CorePackage): (r: UrlSegments)
    ensures r.library != ""
    ensures r.library == "~" <==> library.sanitizedName == "" || library.sanitizedName == "~"
    ensures library.sanitizedName != "" ==> r.library == library.sanitizedName
    ensures r.vendor == vendor.sanitizedName && r.core == project.sanitizedName && r.version == package.sanitizedName
  {
    UrlSegments(vendor.sanitizedName, if library.sanitizedName != "" then library.sanitizedName else "~",
                project.sanitizedName, package.sanitizedName)
  }

  /** `Vendor.__str__` */
  function VendorText(v: Vendor): string
  {
    v.name
  }

  /** `Library.__str__`: vendor, then library name. */
  function LibraryText(v: Vendor, l: Library): string
  {
    VendorText(v) + ":" + l.name
  }

  /** `Project.__str__`: vendor name, library name, project name. */
  function ProjectText(v: Vendor, l: Library, p: Project): string
  {
    v.name + ":" + l.name + ":" + p.name
  }

  /** `CorePackage.__str__`: the project's text, then the version. */
  function PackageText(projectText: string, p: CorePackage): string
  {
    projectText + ":" + p.version
  }

  /** `Fileset.__str__` */
  function FilesetText(packageText: string, f: Fileset): string
  {
    packageText + ":" + f.name
  }

  /** `FilesetDependency.__str__` */
  function DependencyText(filesetText: string, d: FilesetDependency): string
  {
    filesetText + " depends on " + d.dependencyCoreName
  }

  /** `Target.__str__` */
  function TargetText(t: Target): string
  {
    t.name
  }

  /** `TargetConfiguration.__str__` */
  function ConfigurationText(packageText: string, t: Target): string
  {
    packageText + ":" + t.name
  }

  /* ---------------------------------------------------------------- */
  /* Listing order                                                     */
  /* ---------------------------------------------------------------- */

  /** `Meta.ordering` of core packages: vendor name, project name, then the derived version fields. */
  datatype OrderKey = OrderKey(vendor: string, project: string, major: int, minor: int, patch: int, prerelease: string)

  function KeyOf(vendor: Vendor, project: Project, p: CorePackage): (k: OrderKey)
    requires p.versionMajor.Some? && p.versionMinor.Some? && p.versionPatch.Some? && p.versionPrerelease.Some?
    ensures k.major == p.versionMajor.value && k.minor == p.versionMinor.value && k.patch == p.versionPatch.value
    ensures k.vendor == vendor.name && k.project == project.name && k.prerelease == p.versionPrerelease.value
  {
    OrderKey(vendor.name, project.name, p.versionMajor.value, p.versionMinor.value, p.versionPatch.value, p.versionPrerelease.value)
  }

  /** Ascending order on keys: strings by code point, numbers numerically, field by field. */
  predicate KeyLess(a: OrderKey, b: OrderKey)
  {
    || Less(a.vendor, b.vendor)
    || (a.vendor == b.vendor && Less(a.project, b.project))
    || (a.vendor == b.vendor && a.project == b.project && a.major < b.major)
    || (a.vendor == b.vendor && a.project == b.project && a.major == b.major && a.minor < b.minor)
    || (a.vendor == b.vendor && a.project == b.project && a.major == b.major && a.minor == b.minor && a.patch < b.patch)
    || (a.vendor == b.vendor && a.project == b.project && a.major == b.major && a.minor == b.minor && a.patch == b.patch
        && Less(a.prerelease, b.prerelease))
  }

  /** The listing order is a strict total order on keys. */
  lemma KeyLessOrder(a: OrderKey, b: OrderKey, c: OrderKey)
    ensures !KeyLess(a, a)
    ensures KeyLess(a, b) && KeyLess(b, c) ==> KeyLess(a, c)
    ensures a == b || KeyLess(a, b) || KeyLess(b, a)
  {
    LessIrreflexive(a.vendor);
    LessIrreflexive(a.project);
    LessIrreflexive(a.prerelease);
    LessTotal(a.vendor, b.vendor);
    LessTotal(a.project, b.project);
    LessTotal(a.prerelease, b.prerelease);
    if KeyLess(a, b) && KeyLess(b, c) {
      LessChain(a.vendor, b.vendor, c.vendor);
      LessChain(a.project, b.project, c.project);
      LessChain(a.prerelease, b.prerelease, c.prerelease);
      LessIrreflexive(b.vendor);
      LessIrreflexive(b.project);
      KeyLessTransitiveFields(a, b, c);
    }
  }

  lemma LessChain(a: string, b: string, c: string)
    ensures Less(a, b) && Less(b, c) ==> Less(a, c)
  {
    if Less(a, b) && Less(b, c) {
      LessTransitive(a, b, c);
    }
  }

  lemma KeyLessTransitiveFields(a: OrderKey, b: OrderKey, c: OrderKey)
    requires KeyLess(a, b) && KeyLess(b, c)
    requires Less(a.vendor, b.vendor) && Less(b.vendor, c.vendor) ==> Less(a.vendor, c.vendor)
    requires Less(a.project, b.project) && Less(b.project, c.project) ==> Less(a.project, c.project)
    requires Less(a.prerelease, b.prerelease) && Less(b.prerelease, c.prerelease) ==> Less(a.prerelease, c.prerelease)
    ensures KeyLess(a, c)
  {
  }

  /**
   * Versions sort numerically: 1.9.9 before 2.0.0 before 10.0.0, although
   * the text "10.0.0" sorts before "2.0.0".
   */
  lemma NumericVersionOrder(vendor: string, project: string)
    ensures KeyLess(OrderKey(vendor, project, 1, 9, 9, ""), OrderKey(vendor, project, 2, 0, 0, ""))
    ensures KeyLess(OrderKey(vendor, project, 2, 0, 0, ""), OrderKey(vendor, project, 10, 0, 0, ""))
    ensures Less("10.0.0", "2.0.0")
  {
    LessIrreflexive(vendor);
    LessIrreflexive(project);
  }

  /**
   * A release stores the pre-release `""`, so 1.0.0 is listed before
   * 1.0.0-rc1, where Semantic Versioning 2.0.0 (item 11) gives the
   * pre-release the lower precedence.
   */
  lemma ReleaseListedFirst(vendor: string, project: string)
    ensures KeyLess(OrderKey(vendor, project, 1, 0, 0, ""), OrderKey(vendor, project, 1, 0, 0, "rc1"))
    ensures !KeyLess(OrderKey(vendor, project, 1, 0, 0, "rc1"), OrderKey(vendor, project, 1, 0, 0, ""))
  {
    LessIrreflexive(vendor);
    LessIrreflexive(project);
  }

  /**
   * Two stored packages of one vendor and project are listed in the
   * numeric order of their versions' major, minor and patch numbers, and a
   * release before a pre-release with the same numbers.
   */
  lemma StoredVersionOrder(vendor: Vendor, project: Project, p: CorePackage, q: CorePackage)
    requires SemVer.Parse(p.version).Some? && Derive(p) == p
    requires SemVer.Parse(q.version).Some? && Derive(q) == q
    ensures var a, b := SemVer.Parse(p.version).value, SemVer.Parse(q.version).value;
      a.major < b.major || (a.major == b.major && a.minor < b.minor)
      || (a.major == b.major && a.minor == b.minor && a.patch < b.patch)
      ==> KeyLess(KeyOf(vendor, project, p), KeyOf(vendor, project, q))
    ensures var a, b := SemVer.Parse(p.version).value, SemVer.Parse(q.version).value;
      a.major == b.major && a.minor == b.minor && a.patch == b.patch
      && a.prerelease.None? && b.prerelease.Some? && b.prerelease.value != ""
      ==> KeyLess(KeyOf(vendor, project, p), KeyOf(vendor, project, q))
  {
    LessIrreflexive(vendor.name);
    LessIrreflexive(project.name);
  }

  /* ---------------------------------------------------------------- */
  /* Table invariants                                                  */
  /* ---------------------------------------------------------------- */

  /** `name` and `sanitized_name` are unique. */
  predicate VendorsValid(rows: seq<Vendor>)
  {
    && Distinct(VendorSanitizedNames(rows))
    && forall i, j :: 0 <= i < j < |rows| ==> rows[i].name != rows[j].name
  }

  /** Vendor references exist; `(vendor, name)` and `sanitized_name` are unique. */
  predicate LibrariesValid(rows: seq<Library>, nVendors: nat)
  {
    && (forall i :: 0 <= i < |rows| ==> rows[i].vendor < nVendors)
    && Distinct(LibrarySanitizedNames(rows))
    && forall i, j :: 0 <= i < j < |rows| ==> (rows[i].vendor, rows[i].name) != (rows[j].vendor, rows[j].name)
  }

  /** References exist; `(vendor, library, name)` and `sanitized_name` are unique. */
  predicate ProjectsValid(rows: seq<Project>, nVendors: nat, nLibraries: nat)
  {
    && (forall i :: 0 <= i < |rows| ==> rows[i].vendor < nVendors && rows[i].library < nLibraries)
    && Distinct(ProjectSanitizedNames(rows))
    && forall i, j :: 0 <= i < j < |rows| ==>
         (rows[i].vendor, rows[i].library, rows[i].name) != (rows[j].vendor, rows[j].library, rows[j].name)
  }

  /**
   * The field rules on values already written back as text: the
   * description is a string and a licence is a string or empty.
   */
  predicate TextFieldsValid(m: Spdx.LicenseMap, p: CorePackage)
  {
    && !VlnvNameInvalid(p.vlnvName) && !VersionInvalid(p.version) && p.coreFile != ""
    && p.description.Str? && p.description.s != "" && !CharTextInvalid(p.description.s, NameMaxLength)
    && (IsEmptyValue(p.spdxLicense)
        || (p.spdxLicense.Str? && p.spdxLicense.s in m && !CharTextInvalid(p.spdxLicense.s, LicenseMaxLength)))
  }

  /** A saved package: valid fields, written back as text, and derived fields that are those of its version. */
  predicate Stored(m: Spdx.LicenseMap, nProjects: nat, p: CorePackage)
  {
    && p.project < nProjects
    && TextFieldsValid(m, p)
    && Derive(p) == p
    && |p.versionPrerelease.value| <= PrereleaseMaxLength
  }

  /** A saved package passes field validation again, with nothing left to convert. */
  lemma StoredFieldsValid(m: Spdx.LicenseMap, nProjects: nat, p: CorePackage)
    requires Stored(m, nProjects, p)
    ensures FieldsValid(m, p) && FieldErrors(m, nProjects, p) == {}
    ensures Cleaned(p) == p
  {
    assert CharText(p.description) == Some(p.description.s);
    assert p.spdxLicense.Str? ==> CharText(p.spdxLicense) == Some(p.spdxLicense.s);
  }

  /** Every package is stored; `(project, version)` and `sanitized_name` are unique. */
  predicate PackagesValid(m: Spdx.LicenseMap, rows: seq<CorePackage>, nProjects: nat)
  {
    && (forall i :: 0 <= i < |rows| ==> Stored(m, nProjects, rows[i]))
    && Distinct(PackageSanitizedNames(rows))
    && UniqueVersions(rows)
  }

  /** No two packages share a project and a version. */
  predicate UniqueVersions(rows: seq<CorePackage>)
  {
    forall i, j :: 0 <= i < j < |rows| ==> (rows[i].project, rows[i].version) != (rows[j].project, rows[j].version)
  }

  predicate FilesetsValid(rows: seq<Fileset>, nPackages: nat)
  {
    forall i :: 0 <= i < |rows| ==> rows[i].corePackage < nPackages
  }

  predicate DependenciesValid(rows: seq<FilesetDependency>, nFilesets: nat, nPackages: nat)
  {
    forall i :: 0 <= i < |rows| ==> rows[i].fileset < nFilesets && rows[i].corePackage < nPackages
  }

  /** Targets are only made by `get_or_create(name=...)`, so their names stay distinct. */
  predicate TargetsValid(rows: seq<Target>)
  {
    forall i, j :: 0 <= i < j < |rows| ==> rows[i].name != rows[j].name
  }

  predicate ConfigurationsValid(rows: seq<TargetConfiguration>, nPackages: nat, nTargets: nat, nFilesets: nat)
  {
    forall i :: 0 <= i < |rows| ==>
      && rows[i].corePackage < nPackages
      && rows[i].target < nTargets
      && forall f :: f in rows[i].filesets ==> f < nFilesets
  }

  /** The row a clean save writes is a stored package. */
  lemma StoredOfClean(m: Spdx.LicenseMap, n: nat, packages: seq<CorePackage>, p: CorePackage, instance: Option<nat>, s: string)
    requires CleanErrors(m, n, packages, p, instance) == {}
    requires SemVer.Parse(p.version).Some? && |Derive(p).versionPrerelease.value| <= PrereleaseMaxLength
    ensures Stored(m, n, Derive(Cleaned(p)).(sanitizedName := s))
    ensures !DuplicateVersion(packages, Derive(Cleaned(p)).(sanitizedName := s), instance)
  {
    CleanedFieldErrors(m, n, p);
  }

  /** Appending a stored package with a new `(project, version)` and a free sanitized name keeps the table valid. */
  lemma PackagesAppend(m: Spdx.LicenseMap, rows: seq<CorePackage>, n: nat, row: CorePackage)
    requires PackagesValid(m, rows, n) && Stored(m, n, row) && !DuplicateVersion(rows, row, None)
    requires row.sanitizedName !in Sanitize.Taken(PackageSanitizedNames(rows), None)
    ensures PackagesValid(m, rows + [row], n)
  {
    DistinctAppend(PackageSanitizedNames(rows), row.sanitizedName);
    assert PackageSanitizedNames(rows + [row]) == PackageSanitizedNames(rows) + [row.sanitizedName];
    StoredAppend(m, n, rows, row, rows + [row]);
    PairsAppend(rows, row);
  }

  /** Replacing row k likewise, where only the other rows count. */
  lemma PackagesReplace(m: Spdx.LicenseMap, rows: seq<CorePackage>, n: nat, k: nat, row: CorePackage)
    requires k < |rows|
    requires PackagesValid(m, rows, n) && Stored(m, n, row) && !DuplicateVersion(rows, row, Some(k))
    requires row.sanitizedName !in Sanitize.Taken(PackageSanitizedNames(rows), Some(k))
    ensures PackagesValid(m, rows[k := row], n)
  {
    DistinctReplace(PackageSanitizedNames(rows), k, row.sanitizedName);
    NamesReplace(rows, k, row);
    StoredReplace(m, n, rows, k, row, rows[k := row]);
    PairsReplace(rows, k, row);
  }

  /** The sanitized names after a row is replaced. */
  lemma NamesReplace(rows: seq<CorePackage>, k: nat, row: CorePackage)
    requires k < |rows|
    ensures PackageSanitizedNames(rows[k := row]) == PackageSanitizedNames(rows)[k := row.sanitizedName]
  {
  }

  /** Appending a stored row keeps every row stored. */
  lemma StoredAppend(m: Spdx.LicenseMap, n: nat, rows: seq<CorePackage>, row: CorePackage, after: seq<CorePackage>)
    requires forall i :: 0 <= i < |rows| ==> Stored(m, n, rows[i])
    requires Stored(m, n, row) && after == rows + [row]
    ensures forall i :: 0 <= i < |after| ==> Stored(m, n, after[i])
  {
    forall i | 0 <= i < |after|
      ensures Stored(m, n, after[i])
    {
      if i < |rows| {
        assert after[i] == rows[i];
      }
    }
  }

  /** Replacing a row by a stored row keeps every row stored. */
  lemma StoredReplace(m: Spdx.LicenseMap, n: nat, rows: seq<CorePackage>, k: nat, row: CorePackage, after: seq<CorePackage>)
    requires k < |rows|
    requires forall i :: 0 <= i < |rows| ==> Stored(m, n, rows[i])
    requires Stored(m, n, row) && after == rows[k := row]
    ensures forall i :: 0 <= i < |after| ==> Stored(m, n, after[i])
  {
    forall i | 0 <= i < |after|
      ensures Stored(m, n, after[i])
    {
      if i != k {
        assert after[i] == rows[i];
      }
    }
  }

  /** The new row's `(project, version)` differs from every other row's. */
  lemma PairsAppend(rows: seq<CorePackage>, row: CorePackage)
    requires UniqueVersions(rows) && !DuplicateVersion(rows, row, None)
    ensures UniqueVersions(rows + [row])
  {
    var after := rows + [row];
    forall i, j | 0 <= i < j < |after|
      ensures (after[i].project, after[i].version) != (after[j].project, after[j].version)
    {
      if j == |rows| {
        assert after[i] == rows[i];
      }
    }
  }

  lemma PairsReplace(rows: seq<CorePackage>, k: nat, row: CorePackage)
    requires k < |rows| && UniqueVersions(rows) && !DuplicateVersion(rows, row, Some(k))
    ensures UniqueVersions(rows[k := row])
  {
    var after := rows[k := row];
    forall i, j | 0 <= i < j < |after|
      ensures (after[i].project, after[i].version) != (after[j].project, after[j].version)
    {
      if i == k {
        assert after[j] == rows[j];
      } else if j == k {
        assert after[i] == rows[i];
      }
    }
  }

  /**
   * What `CorePackage.save()` does to the package table `rows`, for a new
   * instance (`instance == None`) or for the row `instance`. The first
   * `full_clean` checks the supplied fields and the `(project, version)`
   * rule; then the version is parsed into the derived fields, the second
   * `full_clean` checks the pre-release length, and the mixin assigns the
   * sanitized name if it is empty. Any failure leaves the table as it was.
   */
  method SaveRow(m: Spdx.LicenseMap, nProjects: nat, rows: seq<CorePackage>, p: CorePackage, instance: Option<nat>)
    returns (r: Result<nat, SaveError>, after: seq<CorePackage>)
    requires PackagesValid(m, rows, nProjects) && (instance.Some? ==> instance.value < |rows|)
    ensures PackagesValid(m, after, nProjects) && |rows| <= |after|
    ensures r.Failure? ==> after == rows
    ensures CleanErrors(m, nProjects, rows, p, instance) != {} ==>
      r == Failure(Invalid(CleanErrors(m, nProjects, rows, p, instance)))
    ensures CleanErrors(m, nProjects, rows, p, instance) == {} ==>
      && SemVer.Parse(p.version).Some?
      && (|Derive(p).versionPrerelease.value| > PrereleaseMaxLength ==> r == Failure(Invalid({"version_prerelease"})))
      && (|Derive(p).versionPrerelease.value| <= PrereleaseMaxLength ==>
            if p.sanitizedName != "" && p.sanitizedName in Sanitize.Taken(PackageSanitizedNames(rows), instance)
            then r == Failure(Integrity("sanitized_name"))
            else r.Success?)
    ensures r.Success? ==>
      && SemVer.Parse(p.version).Some?
      && r.value == (if instance.Some? then instance.value else |rows|)
      && r.value < |after|
      && after[r.value] == Derive(Cleaned(p)).(sanitizedName := after[r.value].sanitizedName)
      && (instance.None? ==> after == rows + [after[r.value]])
      && (instance.Some? ==> after == rows[r.value := after[r.value]])
      && (p.sanitizedName != "" ==> after[r.value].sanitizedName == p.sanitizedName)
      && (p.sanitizedName == "" ==>
            FreshSanitized(after[r.value].sanitizedName, PackageSanitizedNames(rows), p.version, instance))
  {
    var errors := CleanErrors(m, nProjects, rows, p, instance);
    if errors != {} {
      return Failure(Invalid(errors)), rows;
    }
    var derived := Derive(Cleaned(p));
    if |derived.versionPrerelease.value| > PrereleaseMaxLength {
      return Failure(Invalid({"version_prerelease"})), rows;
    }
    var names := PackageSanitizedNames(rows);
    var s := SanitizedNameOnSave(p.sanitizedName, p.version, names, instance);
    if s in Sanitize.Taken(names, instance) {
      return Failure(Integrity("sanitized_name")), rows;
    }
    var row := derived.(sanitizedName := s);
    StoredOfClean(m, nProjects, rows, p, instance, s);
    if instance.None? {
      PackagesAppend(m, rows, nProjects, row);
      r, after := Success(|rows|), rows + [row];
    } else {
      PackagesReplace(m, rows, nProjects, instance.value, row);
      r, after := Success(instance.value), rows[instance.value := row];
    }
  }

  /** References into the package table stay in range when it grows. */
  lemma RowsGrow(filesets: seq<Fileset>, dependencies: seq<FilesetDependency>, configurations: seq<TargetConfiguration>,
                 before: nat, after: nat, nFilesets: nat, nTargets: nat)
    requires before <= after
    requires FilesetsValid(filesets, before) && DependenciesValid(dependencies, nFilesets, before)
    requires ConfigurationsValid(configurations, before, nTargets, nFilesets)
    ensures FilesetsValid(filesets, after) && DependenciesValid(dependencies, nFilesets, after)
    ensures ConfigurationsValid(configurations, after, nTargets, nFilesets)
  {
  }

  /** Every table valid, and every reference from one table into another in range. */
  ghost predicate Consistent(licenses: Spdx.LicenseMap, vendors: seq<Vendor>, libraries: seq<Library>, projects: seq<Project>,
                             packages: seq<CorePackage>, filesets: seq<Fileset>, dependencies: seq<FilesetDependency>,
                             targets: seq<Target>, configurations: seq<TargetConfiguration>)
  {
    && VendorsValid(vendors)
    && LibrariesValid(libraries, |vendors|)
    && ProjectsValid(projects, |vendors|, |libraries|)
    && PackagesValid(licenses, packages, |projects|)
    && FilesetsValid(filesets, |packages|)
    && DependenciesValid(dependencies, |filesets|, |packages|)
    && TargetsValid(targets)
    && ConfigurationsValid(configurations, |packages|, |targets|, |filesets|)
  }

  /** The database: one sequence of rows per table, and the licence list the validators read. */
  class Registry {
    const licenses: Spdx.LicenseMap
    var vendors: seq<Vendor>
    var libraries: seq<Library>
    var projects: seq<Project>
    var packages: seq<CorePackage>
    var filesets: seq<Fileset>
    var dependencies: seq<FilesetDependency>
    var targets: seq<Target>
    var configurations: seq<TargetConfiguration>

    ghost predicate Valid()
      reads this
    {
      Consistent(licenses, vendors, libraries, projects, packages, filesets, dependencies, targets, configurations)
    }

    constructor (licenses: Spdx.LicenseMap)
      ensures Valid() && this.licenses == licenses
      ensures vendors == [] && libraries == [] && projects == [] && packages == []
      ensures filesets == [] && dependencies == [] && targets == [] && configurations == []
    {
      this.licenses := licenses;
      vendors, libraries, projects, packages := [], [], [], [];
      filesets, dependencies, targets, configurations := [], [], [], [];
    }

    /**
     * Leaving a `transaction.atomic` block by an exception: the vendor,
     * library, project and package tables are put back as they were.
     */
    method Restore(vendors0: seq<Vendor>, libraries0: seq<Library>, projects0: seq<Project>, packages0: seq<CorePackage>)
      requires Consistent(licenses, vendors0, libraries0, projects0, packages0, filesets, dependencies, targets, configurations)
      modifies this
      ensures Valid()
      ensures vendors == vendors0 && libraries == libraries0 && projects == projects0 && packages == packages0
      ensures filesets == old(filesets) && dependencies == old(dependencies)
      ensures targets == old(targets) && configurations == old(configurations)
    {
      vendors, libraries, projects, packages := vendors0, libraries0, projects0, packages0;
    }

    /**
     * `Vendor.objects.get_or_create(name=name)`: the vendor of that name,
     * or a new one whose sanitized name is computed on save.
     */
    method GetOrCreateVendor(name: string) returns (pk: nat)
      requires Valid()
      modifies this
      ensures Valid()
      ensures libraries == old(libraries) && projects == old(projects) && packages == old(packages)
      ensures filesets == old(filesets) && dependencies == old(dependencies) && targets == old(targets)
      ensures configurations == old(configurations)
      ensures pk < |vendors| && vendors[pk].name == name
      ensures FindVendor(old(vendors), name).Some? ==> vendors == old(vendors) && pk == FindVendor(old(vendors), name).value
      ensures FindVendor(old(vendors), name).None? ==>
        && pk == |old(vendors)| && vendors == old(vendors) + [vendors[pk]]
        && FreshSanitized(vendors[pk].sanitizedName, VendorSanitizedNames(old(vendors)), name, None)
    {
      var found := FindVendor(vendors, name);
      if found.Some? {
        return found.value;
      }
      var names := VendorSanitizedNames(vendors);
      var s := SanitizedNameOnSave("", name, names, None);
      DistinctAppend(names, s);
      assert VendorSanitizedNames(vendors + [Vendor(name, s)]) == names + [s];
      vendors := vendors + [Vendor(name, s)];
      pk := |vendors| - 1;
    }

    /** `Library.objects.get_or_create(vendor=vendor, name=name)` */
    method GetOrCreateLibrary(vendor: nat, name: string) returns (pk: nat)
      requires Valid() && vendor < |vendors|
      modifies this
      ensures Valid()
      ensures vendors == old(vendors) && projects == old(projects) && packages == old(packages)
      ensures filesets == old(filesets) && dependencies == old(dependencies) && targets == old(targets)
      ensures configurations == old(configurations)
      ensures pk < |libraries| && libraries[pk].vendor == vendor && libraries[pk].name == name
      ensures FindLibrary(old(libraries), vendor, name).Some? ==>
        libraries == old(libraries) && pk == FindLibrary(old(libraries), vendor, name).value
      ensures FindLibrary(old(libraries), vendor, name).None? ==>
        && pk == |old(libraries)| && libraries == old(libraries) + [libraries[pk]]
        && FreshSanitized(libraries[pk].sanitizedName, LibrarySanitizedNames(old(libraries)), name, None)
    {
      var found := FindLibrary(libraries, vendor, name);
      if found.Some? {
        return found.value;
      }
      var names := LibrarySanitizedNames(libraries);
      var s := SanitizedNameOnSave("", name, names, None);
      DistinctAppend(names, s);
      assert LibrarySanitizedNames(libraries + [Library(vendor, name, s)]) == names + [s];
      libraries := libraries + [Library(vendor, name, s)];
      pk := |libraries| - 1;
    }

    /** `Project.objects.get_or_create(vendor=vendor, library=library, name=name)`; a new project has an empty description. */
    method GetOrCreateProject(vendor: nat, library: nat, name: string) returns (pk: nat)
      requires Valid() && vendor < |vendors| && library < |libraries|
      modifies this
      ensures Valid()
      ensures vendors == old(vendors) && libraries == old(libraries) && packages == old(packages)
      ensures filesets == old(filesets) && dependencies == old(dependencies) && targets == old(targets)
      ensures configurations == old(configurations)
      ensures pk < |projects| && projects[pk].vendor == vendor && projects[pk].library == library && projects[pk].name == name
      ensures FindProject(old(projects), vendor, library, name).Some? ==>
        projects == old(projects) && pk == FindProject(old(projects), vendor, library, name).value
      ensures FindProject(old(projects), vendor, library, name).None? ==>
        && pk == |old(projects)| && projects == old(projects) + [projects[pk]] && projects[pk].description == ""
        && FreshSanitized(projects[pk].sanitizedName, ProjectSanitizedNames(old(projects)), name, None)
    {
      var found := FindProject(projects, vendor, library, name);
      if found.Some? {
        return found.value;
      }
      var names := ProjectSanitizedNames(projects);
      var s := SanitizedNameOnSave("", name, names, None);
      DistinctAppend(names, s);
      assert ProjectSanitizedNames(projects + [Project(vendor, library, name, "", s)]) == names + [s];
      projects := projects + [Project(vendor, library, name, "", s)];
      pk := |projects| - 1;
    }

    /**
     * `CorePackage.save()` of a new instance (`instance == None`) or of the
     * row `instance`, as `SaveRow` decides it on the package table; the
     * other tables are left alone.
     */
    method SaveCorePackage(p: CorePackage, instance: Option<nat>) returns (r: Result<nat, SaveError>)
      requires Valid() && (instance.Some? ==> instance.value < |packages|)
      modifies this
      ensures Valid()
      ensures vendors == old(vendors) && libraries == old(libraries) && projects == old(projects)
      ensures filesets == old(filesets) && dependencies == old(dependencies) && targets == old(targets)
      ensures configurations == old(configurations)
      ensures r.Failure? ==> packages == old(packages)
      ensures CleanErrors(licenses, |projects|, old(packages), p, instance) != {} ==>
        r == Failure(Invalid(CleanErrors(licenses, |projects|, old(packages), p, instance)))
      ensures CleanErrors(licenses, |projects|, old(packages), p, instance) == {} ==>
        && SemVer.Parse(p.version).Some?
        && (|Derive(p).versionPrerelease.value| > PrereleaseMaxLength ==> r == Failure(Invalid({"version_prerelease"})))
        && (|Derive(p).versionPrerelease.value| <= PrereleaseMaxLength ==>
              if p.sanitizedName != "" && p.sanitizedName in Sanitize.Taken(PackageSanitizedNames(old(packages)), instance)
              then r == Failure(Integrity("sanitized_name"))
              else r.Success?)
      ensures r.Success? ==>
        && SemVer.Parse(p.version).Some?
        && r.value == (if instance.Some? then instance.value else |old(packages)|)
        && r.value < |packages|
        && packages[r.value] == Derive(Cleaned(p)).(sanitizedName := packages[r.value].sanitizedName)
        && (instance.None? ==> packages == old(packages) + [packages[r.value]])
        && (instance.Some? ==> packages == old(packages)[r.value := packages[r.value]])
        && (p.sanitizedName != "" ==> packages[r.value].sanitizedName == p.sanitizedName)
        && (p.sanitizedName == "" ==>
              FreshSanitized(packages[r.value].sanitizedName, PackageSanitizedNames(old(packages)), p.version, instance))
    {
      var after;
      r, after := SaveRow(licenses, |projects|, packages, p, instance);
      RowsGrow(filesets, dependencies, configurations, |packages|, |after|, |filesets|, |targets|);
      packages := after;
    }

    /** `Fileset.objects.create(...)` */
    method CreateFileset(f: Fileset) returns (pk: nat)
      requires Valid() && f.corePackage < |packages|
      modifies this
      ensures Valid()
      ensures vendors == old(vendors) && libraries == old(libraries) && projects == old(projects) && packages == old(packages)
      ensures dependencies == old(dependencies) && targets == old(targets) && configurations == old(configurations)
      ensures filesets == old(filesets) + [f] && pk == |old(filesets)|
    {
      filesets := filesets + [f];
      pk := |filesets| - 1;
    }

    /** `FilesetDependency.objects.create(...)` */
    method CreateDependency(d: FilesetDependency)
      requires Valid() && d.fileset < |filesets| && d.corePackage < |packages|
      modifies this
      ensures Valid()
      ensures vendors == old(vendors) && libraries == old(libraries) && projects == old(projects) && packages == old(packages)
      ensures filesets == old(filesets) && targets == old(targets) && configurations == old(configurations)
      ensures dependencies == old(dependencies) + [d]
    {
      dependencies := dependencies + [d];
    }

    /** `Target.objects.get_or_create(name=name)`; a new target has no description. */
    method GetOrCreateTarget(name: string) returns (pk: nat)
      requires Valid()
      modifies this
      ensures Valid()
      ensures vendors == old(vendors) && libraries == old(libraries) && projects == old(projects) && packages == old(packages)
      ensures filesets == old(filesets) && dependencies == old(dependencies) && configurations == old(configurations)
      ensures pk < |targets| && targets[pk].name == name
      ensures FindTarget(old(targets), name).Some? ==> targets == old(targets) && pk == FindTarget(old(targets), name).value
      ensures FindTarget(old(targets), name).None? ==> targets == old(targets) + [Target(name, None)] && pk == |old(targets)|
    {
      var found := FindTarget(targets, name);
      if found.Some? {
        return found.value;
      }
      targets := targets + [Target(name, None)];
      pk := |targets| - 1;
    }

    /** `TargetConfiguration.objects.create(...)`, linked to no fileset yet. */
    method CreateConfiguration(c: TargetConfiguration) returns (pk: nat)
      requires Valid() && c.corePackage < |packages| && c.target < |targets| && c.filesets == {}
      modifies this
      ensures Valid()
      ensures vendors == old(vendors) && libraries == old(libraries) && projects == old(projects) && packages == old(packages)
      ensures filesets == old(filesets) && dependencies == old(dependencies) && targets == old(targets)
      ensures configurations == old(configurations) + [c] && pk == |old(configurations)|
    {
      configurations := configurations + [c];
      pk := |configurations| - 1;
    }

    /** `target_config.filesets.add(fileset)`: adding a link twice is adding it once. */
    method AddFileset(config: nat, fileset: nat)
      requires Valid() && config < |configurations| && fileset < |filesets|
      modifies this
      ensures Valid()
      ensures vendors == old(vendors) && libraries == old(libraries) && projects == old(projects) && packages == old(packages)
      ensures filesets == old(filesets) && dependencies == old(dependencies) && targets == old(targets)
      ensures configurations == old(configurations)[config := old(configurations)[config].(filesets := old(configurations)[config].filesets + {fileset})]
    {
      configurations := configurations[config := configurations[config].(filesets := configurations[config].filesets + {fileset})];
    }
  }
}
