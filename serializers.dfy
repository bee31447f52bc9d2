/**
 * The upload pipeline of `CoreSerializer` (core_directory/serializers.py):
 * the per-file checks, `validate`, which turns an uploaded core file (and
 * an optional signature) into the attributes of a package, and `create`,
 * which writes a validated package and its filesets, dependencies and
 * target configurations into the registry.
 *
 * The YAML loader, the two JSON schemas and FuseSoC's `Core2Parser` are
 * libraries outside the model; their verdicts on a document are the
 * parameter `Oracles`. A file's bytes are given already decoded as text.
 */
module Serializers {
  import opened Wrappers
  import opened Text
  import opened Json
  import Vlnv
  import Sanitize
  import Spdx
  import SemVer
  import Models

  /* ---------------------------------------------------------------- */
  /* Per-file checks                                                   */
  /* ---------------------------------------------------------------- */

  /** An uploaded file: its name, its size in bytes and its text. */
  datatype Upload = Upload(name: string, size: nat, content: string)

  const CoreFileMaxSize: nat := 64 * 1024
  const SignatureFileMaxSize: nat := 10 * 1024

  /** `validate_core_file`: the extension is checked before the size. */
  function ValidateCoreFile(f: Upload): (r: Result<Upload, string>)
    ensures r.Success? <==> EndsWith(f.name, ".core") && f.size <= CoreFileMaxSize
    ensures r.Success? ==> r.value == f
    ensures !EndsWith(f.name, ".core") ==> r == Failure("Only .core files are allowed.")
    ensures EndsWith(f.name, ".core") && f.size > CoreFileMaxSize ==> r == Failure("Core file is too large")
  {
    if !EndsWith(f.name, ".core") then Failure("Only .core files are allowed.")
    else if f.size > CoreFileMaxSize then Failure("Core file is too large")
    else Success(f)
  }

  /** `validate_signature_file`: the extension is checked before the size. */
  function ValidateSignatureFile(f: Upload): (r: Result<Upload, string>)
    ensures r.Success? <==> EndsWith(f.name, ".sig") && f.size <= SignatureFileMaxSize
    ensures r.Success? ==> r.value == f
    ensures !EndsWith(f.name, ".sig") ==> r == Failure("Only .sig files are allowed for signature.")
    ensures EndsWith(f.name, ".sig") && f.size > SignatureFileMaxSize ==> r == Failure("Signature file is too large")
  {
    if !EndsWith(f.name, ".sig") then Failure("Only .sig files are allowed for signature.")
    else if f.size > SignatureFileMaxSize then Failure("Signature file is too large")
    else Success(f)
  }

  /** The limits are inclusive: 64 KiB is accepted, one byte more is not; a wrong extension wins over any size. */
  lemma SizeLimits(name: string, content: string)
    requires EndsWith(name, ".core")
    ensures ValidateCoreFile(Upload(name, 65536, content)).Success?
    ensures ValidateCoreFile(Upload(name, 65537, content)) == Failure("Core file is too large")
    ensures ValidateCoreFile(Upload(name + ".txt", 65537, content)) == Failure("Only .core files are allowed.")
  {
    assert (name + ".txt")[|name + ".txt"| - 5..] != ".core" by {
      assert (name + ".txt")[|name + ".txt"| - 1] == 't';
    }
  }

  /* ---------------------------------------------------------------- */
  /* The first line                                                    */
  /* ---------------------------------------------------------------- */

  const HeaderMessage: string :=
    "Core file does not start with \"CAPI=2:\", see https://fusesoc.readthedocs.io/en/stable/user/build_system/core_files.html#the-first-line-capi-2"

  const Header: string := "CAPI=2:"

  /** `readline()`: the text up to and including the first line break, or all of it. */
  function FirstLine(s: string): (r: string)
    ensures r <= s
    ensures '\n' in s ==> r == s[..FirstIndex(s, '\n') + 1]
    ensures '\n' !in s ==> r == s
  {
    if '\n' in s then s[..FirstIndex(s, '\n') + 1] else s
  }

  /** The stripped first line starts with `CAPI=2:`. */
  predicate HeaderOk(content: string)
  {
    Header <= Strip(FirstLine(content))
  }

  /** A file whose first line starts with `CAPI=2:`, after any indentation, passes. */
  lemma HeaderAccepted(indent: string, rest: string)
    requires AllSpace(indent) && '\n' !in indent
    ensures HeaderOk(indent + Header + rest)
  {
    var p := indent + Header;
    var s := p + rest;
    assert '\n' !in p by {
      assert forall k :: 0 <= k < |indent| ==> p[k] == indent[k];
      assert forall k :: |indent| <= k < |p| ==> p[k] == Header[k - |indent|];
    }
    FirstLineOfPrefix(p, s);
    var line := FirstLine(s);
    assert line == indent + line[|indent|..];
    assert Header <= line[|indent|..];
    StripFromPrefix(indent, line[|indent|..], Header);
  }

  /** A first line holds every letter before the first line break. */
  lemma FirstLineOfPrefix(p: string, s: string)
    requires p <= s && '\n' !in p
    ensures p <= FirstLine(s)
  {
    if '\n' in s {
      var n := FirstIndex(s, '\n');
      assert forall k :: 0 <= k < |p| ==> s[k] == p[k] && p[k] != '\n';
      assert n >= |p|;
    }
  }

  /** Stripping leaves a prefix that starts and ends with non-space letters in place. */
  lemma StripFromPrefix(indent: string, tail: string, head: string)
    requires AllSpace(indent) && head <= tail && |head| > 0
    requires !IsSpace(head[0]) && !IsSpace(head[|head| - 1])
    ensures head <= Strip(indent + tail)
  {
    assert tail[0] == head[0];
    LStripOf(indent, tail);
    RStripKeepsPrefix(tail, head);
  }

  lemma RStripKeepsPrefix(tail: string, head: string)
    requires head <= tail && |head| > 0 && !IsSpace(head[|head| - 1])
    ensures head <= RStrip(tail)
  {
    var r := RStrip(tail);
    var k := |head| - 1;
    assert tail[k] == head[k];
    assert |r| > k;
    assert r[..|head|] == tail[..|head|];
  }

  /** The header must come first: a first line that starts with another non-space letter is refused. */
  lemma HeaderFirst(s: string)
    requires |s| > 0 && !IsSpace(s[0]) && s[0] != Header[0]
    ensures !HeaderOk(s)
  {
    var line := FirstLine(s);
    assert line[0] == s[0];
    LStripOf([], line);
    assert [] + line == line;
  }

  /** A first line without a colon, such as `CAPI=2`, is refused. */
  lemma HeaderNeedsColon(s: string)
    ensures HeaderOk(s) ==> ':' in FirstLine(s)
  {
    if HeaderOk(s) {
      var line := FirstLine(s);
      var l := LStrip(line);
      var r := RStrip(l);
      assert Strip(line) == r;
      assert r[6] == Header[6] == ':';
      assert l[6] == ':';
      assert line[|line| - |l| + 6] == ':';
    }
  }

  /* ---------------------------------------------------------------- */
  /* Schema errors                                                     */
  /* ---------------------------------------------------------------- */

  /** An entry of a schema error's path: a dict key or a list position. */
  datatype PathEntry = Key(key: string) | Index(index: nat)

  /** What validating a document against one of the JSON schemas gives. */
  datatype SchemaOutcome =
    | Conforms
    | Violation(path: seq<PathEntry>, validator: string, message: string)  // jsonschema's ValidationError
    | BrokenSchema(text: string)  // SchemaError, or a schema file that is not JSON

  const NamePatternMessage: string :=
    "Core name does not match requirements. See https://fusesoc.readthedocs.io/en/stable/user/build_system/core_files.html#the-core-name-version-and-description"

  const LicenseTypeMessage: string :=
    "Custom license objects are not supported. Please use an SPDX identifier string."

  /** The message table: two (path, validator) pairs have their own text; everything else keeps jsonschema's message. */
  function ErrorMessage(key: string, validator: string, message: string): (r: string)
    ensures r == NamePatternMessage <== key == "name" && validator == "pattern"
    ensures r == LicenseTypeMessage <== key == "license" && validator == "type"
    ensures !(key == "name" && validator == "pattern") && !(key == "license" && validator == "type") ==> r == message
  {
    if key == "name" && validator == "pattern" then NamePatternMessage
    else if key == "license" && validator == "type" then LicenseTypeMessage
    else message
  }

  /** `str.join`'s TypeError for the integer at position `i` of the sequence. */
  function JoinTypeError(i: nat): string
  {
    "sequence item " + NatToString(i) + ": expected str instance, int found"
  }

  /** The path's entries as `str.join` needs them: it raises TypeError on the first integer. */
  function PathKeysAsWritten(path: seq<PathEntry>): (r: Result<seq<string>, string>)
    ensures r.Success? <==> forall k :: 0 <= k < |path| ==> path[k].Key?
    ensures r.Success? ==> |r.value| == |path| && forall k :: 0 <= k < |path| ==> r.value[k] == path[k].key
    ensures r.Failure? ==> exists j :: 0 <= j < |path| && path[j].Index? && (forall k :: 0 <= k < j ==> path[k].Key?) && r.error == JoinTypeError(j)
  {
    PathKeysFrom(path, 0)
  }

  /** `PathKeysAsWritten` from position `i` on, with positions counted from the start of `path`. */
  function PathKeysFrom(path: seq<PathEntry>, i: nat): (r: Result<seq<string>, string>)
    requires i <= |path|
    ensures r.Success? <==> forall k :: i <= k < |path| ==> path[k].Key?
    ensures r.Success? ==> |r.value| == |path| - i && forall k :: i <= k < |path| ==> r.value[k - i] == path[k].key
    ensures r.Failure? ==> exists j :: i <= j < |path| && path[j].Index? && (forall k :: i <= k < j ==> path[k].Key?) && r.error == JoinTypeError(j)
    decreases |path| - i
  {
    if i == |path| then Success([])
    else if path[i].Index? then Failure(JoinTypeError(i))
    else
      var rest := PathKeysFrom(path, i + 1);
      if rest.Failure? then rest
      else Success([path[i].key] + rest.value)
  }

  /** `_format_core_validation_error` as written: `'::'.join(e.path)`. */
  function FormatValidationErrorAsWritten(path: seq<PathEntry>, validator: string, message: string, fileType: string): (r: Result<string, string>)
    ensures r.Success? <==> forall k :: 0 <= k < |path| ==> path[k].Key?
    ensures r.Failure? ==> exists j :: 0 <= j < |path| && path[j].Index? && (forall k :: 0 <= k < j ==> path[k].Key?) && r.error == JoinTypeError(j)
  {
    match PathKeysAsWritten(path)
    case Failure(e) => Failure(e)
    case Success(keys) =>
      var key := Join(keys, "::");
      Success("Validation error in " + fileType + "::" + key + ": " + ErrorMessage(key, validator, message))
  }

  /** A path entry as text; a list position is written in decimal. */
  function EntryText(e: PathEntry): string
  {
    match e
    case Key(k) => k
    case Index(i) => NatToString(i)
  }

  function PathText(path: seq<PathEntry>): (r: seq<string>)
    ensures |r| == |path| && forall k :: 0 <= k < |path| ==> r[k] == EntryText(path[k])
  {
    seq(|path|, k requires 0 <= k < |path| => EntryText(path[k]))
  }

  /**
   * `_format_core_validation_error` as evidently intended: every entry of
   * the path is joined, list positions in decimal, so that an error inside
   * a list is reported instead of raising.
   */
  function FormatValidationError(path: seq<PathEntry>, validator: string, message: string, fileType: string): string
  {
    var key := Join(PathText(path), "::");
    "Validation error in " + fileType + "::" + key + ": " + ErrorMessage(key, validator, message)
  }

  /** Where the written code does not raise, it gives the same text as the intended one. */
  lemma FormatAgrees(path: seq<PathEntry>, validator: string, message: string, fileType: string)
    requires forall k :: 0 <= k < |path| ==> path[k].Key?
    ensures FormatValidationErrorAsWritten(path, validator, message, fileType) == Success(FormatValidationError(path, validator, message, fileType))
  {
    assert PathKeysAsWritten(path).value == PathText(path);
  }

  /** `str.join` stops at the integer in the fourth place of the path. */
  lemma IntegerPathJoinFails()
    ensures PathKeysAsWritten([Key("filesets"), Key("rtl"), Key("files"), Index(0)]) == Failure(JoinTypeError(3))
  {
    var path := [Key("filesets"), Key("rtl"), Key("files"), Index(0)];
    assert PathKeysFrom(path, 3) == Failure(JoinTypeError(3));
    assert PathKeysFrom(path, 2) == PathKeysFrom(path, 3);
    assert PathKeysFrom(path, 1) == PathKeysFrom(path, 2);
    assert PathKeysFrom(path, 0) == PathKeysFrom(path, 1);
  }

  /** An error in the first file of a fileset's list: the written code raises TypeError, the intended one names the position. */
  lemma IntegerPathRaises()
    ensures FormatValidationErrorAsWritten([Key("filesets"), Key("rtl"), Key("files"), Index(0)], "type", "1 is not of type 'string'", "core")
      == Failure(JoinTypeError(3))
    ensures FormatValidationError([Key("filesets"), Key("rtl"), Key("files"), Index(0)], "type", "1 is not of type 'string'", "core")
      == "Validation error in " + "core" + "::" + "filesets::rtl::files::0" + ": " + "1 is not of type 'string'"
  {
    IntegerPathJoinFails();
    var path := [Key("filesets"), Key("rtl"), Key("files"), Index(0)];
    assert NatToString(0) == "0";
    assert PathText(path) == ["filesets", "rtl", "files", "0"];
    JoinExample();
    var key := "filesets::rtl::files::0";
    assert Join(PathText(path), "::") == key;
    assert ErrorMessage("filesets::rtl::files::0", "type", "1 is not of type 'string'") == "1 is not of type 'string'";
  }

  lemma JoinExample()
    ensures Join(["filesets", "rtl", "files", "0"], "::") == "filesets::rtl::files::0"
  {
    Vlnv.Join4("filesets", "rtl", "files", "0", "::");
  }

  /** A licence given as a dict is reported with the message that asks for an SPDX identifier. */
  lemma LicenseObjectMessage(message: string)
    ensures FormatValidationError([Key("license")], "type", message, "core")
      == "Validation error in core::license: " + LicenseTypeMessage
  {
    assert PathText([Key("license")]) == ["license"];
  }

  /** An error at the document's root names the file type and keeps jsonschema's message. */
  lemma RootErrorMessage(validator: string, message: string, fileType: string)
    ensures FormatValidationError([], validator, message, fileType) == "Validation error in " + fileType + "::: " + message
  {
    assert PathText([]) == [];
  }

  /** `_validate_against_schema`: nothing for a conforming document, else the message of the ValidationError raised. */
  function SchemaRejection(outcome: SchemaOutcome, fileType: string): (r: Option<string>)
    ensures r.None? <==> outcome.Conforms?
    ensures outcome.Violation? ==> r == Some(FormatValidationError(outcome.path, outcome.validator, outcome.message, fileType))
    ensures outcome.BrokenSchema? ==> r == Some("Internal error: invalid schema to validate " + fileType + " (" + outcome.text + ")")
  {
    match outcome
    case Conforms => None
    case Violation(path, validator, message) => Some(FormatValidationError(path, validator, message, fileType))
    case BrokenSchema(text) => Some("Internal error: invalid schema to validate " + fileType + " (" + text + ")")
  }

  /* ---------------------------------------------------------------- */
  /* Dependency strings                                                */
  /* ---------------------------------------------------------------- */

  /**
   * Where `\)$` can match: a closing parenthesis that ends the text, or
   * that is followed by a final line break (`$` also matches there).
   */
  function CloseAt(s: string): (r: Option<nat>)
    ensures r.Some? ==> r.value < |s| && s[r.value] == ')'
    ensures r.Some? ==> r.value == |s| - 1 || (r.value == |s| - 2 && s[|s| - 1] == '\n')
    ensures r.None? ==> |s| == 0 || (s[|s| - 1] != ')' && (|s| < 2 || s[|s| - 2..] != ")\n"))
  {
    if |s| >= 2 && s[|s| - 2] == ')' && s[|s| - 1] == '\n' then Some(|s| - 2)
    else if |s| >= 1 && s[|s| - 1] == ')' then Some(|s| - 1)
    else None
  }

  /** The end of the run of whitespace that starts at `k` (the greedy `\s*`). */
  function SkipSpace(s: string, k: nat): (j: nat)
    requires k <= |s|
    ensures k <= j <= |s| && AllSpace(s[k..j]) && (j == |s| || !IsSpace(s[j]))
    decreases |s| - k
  {
    if k < |s| && IsSpace(s[k]) then
      var j := SkipSpace(s, k + 1);
      assert s[k..j] == [s[k]] + s[k + 1..j];
      j
    else k
  }

  /**
   * `^(.*?)\?\s*\((.*?)\)$` matches with its first group ending at `i`: the
   * `?` at `i`, no line break before it, whitespace, an opening parenthesis,
   * and no line break up to the closing one.
   */
  predicate MatchesAt(s: string, i: nat)
  {
    && i < |s| && s[i] == '?' && '\n' !in s[..i]
    && CloseAt(s).Some?
    && var j := SkipSpace(s, i + 1);
       j < CloseAt(s).value && s[j] == '(' && '\n' !in s[j + 1..CloseAt(s).value]
  }

  /** The lazy first group takes the first `?` from which the rest matches. */
  function FirstMatch(s: string, from: nat): (r: Option<nat>)
    ensures r.Some? ==> from <= r.value < |s| && MatchesAt(s, r.value)
    decreases |s| - from
  {
    if from >= |s| then None
    else if MatchesAt(s, from) then Some(from)
    else FirstMatch(s, from + 1)
  }

  /** `FirstMatch` finds the first position from `from` on where the pattern matches, if any. */
  lemma {:induction false} FirstMatchFirst(s: string, from: nat)
    ensures FirstMatch(s, from).Some? ==>
      MatchesAt(s, FirstMatch(s, from).value) && forall i :: from <= i < FirstMatch(s, from).value ==> !MatchesAt(s, i)
    ensures FirstMatch(s, from).None? ==> forall i :: from <= i ==> !MatchesAt(s, i)
    decreases |s| - from
  {
    if from >= |s| {
      forall i | from <= i
        ensures !MatchesAt(s, i)
      {
      }
    } else if !MatchesAt(s, from) {
      assert FirstMatch(s, from) == FirstMatch(s, from + 1);
      FirstMatchFirst(s, from + 1);
    }
  }

  /** The two groups of the match that starts its `?` at `i`. */
  function Groups(s: string, i: nat): (r: (string, string))
    requires MatchesAt(s, i)
  {
    var j := SkipSpace(s, i + 1);
    (s[..i], s[j + 1..CloseAt(s).value])
  }

  /**
   * One entry of a fileset's `depend` list: `cond? (core)` gives the
   * stripped condition and core name; anything else is a core name without
   * condition.
   */
  function ParseDependency(dep: string): (r: (Option<string>, string))
    ensures r.0.None? ==> r.1 == Strip(dep)
  {
    match FirstMatch(dep, 0)
    case Some(i) =>
      var g := Groups(dep, i);
      (Some(Strip(g.0)), Strip(g.1))
    case None => (None, Strip(dep))
  }

  /** A condition is found exactly when the pattern matches somewhere; both results carry no surrounding whitespace. */
  lemma ParseDependencyMatches(dep: string)
    ensures ParseDependency(dep).0.Some? <==> exists i :: MatchesAt(dep, i)
    ensures ParseDependency(dep).0.Some? ==> Trimmed(ParseDependency(dep).0.value)
    ensures Trimmed(ParseDependency(dep).1)
  {
    FirstMatchFirst(dep, 0);
  }

  /** The condition and core name come from the leftmost `?` that starts a match. */
  lemma ParseDependencyLeftmost(dep: string, i: nat)
    requires MatchesAt(dep, i) && forall k :: 0 <= k < i ==> !MatchesAt(dep, k)
    ensures ParseDependency(dep) == (Some(Strip(Groups(dep, i).0)), Strip(Groups(dep, i).1))
  {
    var f := FirstMatch(dep, 0);
    FirstMatchFirst(dep, 0);
    assert f.Some?;
    assert f.value == i by {
      if f.value < i { }
    }
  }

  /** Without a `?` the entry is the stripped core name. */
  lemma PlainDependency(dep: string)
    requires '?' !in dep
    ensures ParseDependency(dep) == (None, Strip(dep))
  {
    FirstMatchFirst(dep, 0);
    forall i: nat | MatchesAt(dep, i)
      ensures false
    {
    }
  }

  /** The greedy `\s*` stops at the first letter that is not whitespace. */
  lemma {:induction false} SkipSpaceRun(s: string, k: nat, n: nat)
    requires k + n < |s| && !IsSpace(s[k + n])
    requires forall t :: k <= t < k + n ==> IsSpace(s[t])
    ensures SkipSpace(s, k) == k + n
    decreases n
  {
    if n > 0 {
      SkipSpaceRun(s, k + 1, n - 1);
    }
  }

  /**
   * `cond ? (name)`, with whitespace between the `?` and the parenthesis,
   * no `?` in the condition and no line break, gives the stripped condition
   * and name.
   */
  lemma ConditionalDependency(cond: string, space: string, name: string)
    requires '?' !in cond && '\n' !in cond && '\n' !in name && AllSpace(space)
    ensures ParseDependency(cond + "?" + space + "(" + name + ")") == (Some(Strip(cond)), Strip(name))
  {
    var s := cond + "?" + space + "(" + name + ")";
    ConditionalLayout(cond, space, name);
    ConditionalMatch(s, cond, space, name);
  }

  /** Where the parts of `cond ? (name)` sit in the text. */
  lemma ConditionalLayout(cond: string, space: string, name: string)
    ensures var s, i, j := cond + "?" + space + "(" + name + ")", |cond|, |cond| + 1 + |space|;
      && |s| == j + |name| + 2
      && s[..i] == cond && s[i] == '?' && s[i + 1..j] == space && s[j] == '('
      && s[j + 1..|s| - 1] == name && s[|s| - 1] == ')'
  {
    var s, i, j := cond + "?" + space + "(" + name + ")", |cond|, |cond| + 1 + |space|;
    assert s == cond + ['?'] + space + ['('] + name + [')'];
  }

  /** The match of a text laid out as `cond ? (name)`. */
  lemma ConditionalMatch(s: string, cond: string, space: string, name: string)
    requires '?' !in cond && '\n' !in cond && '\n' !in name && AllSpace(space)
    requires var i, j := |cond|, |cond| + 1 + |space|;
      && |s| == j + |name| + 2
      && s[..i] == cond && s[i] == '?' && s[i + 1..j] == space && s[j] == '('
      && s[j + 1..|s| - 1] == name && s[|s| - 1] == ')'
    ensures ParseDependency(s) == (Some(Strip(cond)), Strip(name))
  {
    var i, j := |cond|, |cond| + 1 + |space|;
    forall t | i + 1 <= t < j
      ensures IsSpace(s[t])
    {
      assert s[t] == s[i + 1..j][t - i - 1];
    }
    SkipSpaceRun(s, i + 1, |space|);
    assert CloseAt(s) == Some(|s| - 1);
    assert '\n' !in s[..i];
    assert '\n' !in s[j + 1..|s| - 1];
    assert MatchesAt(s, i);
    assert Groups(s, i) == (cond, name);
    forall k | 0 <= k < i
      ensures !MatchesAt(s, k)
    {
      assert s[k] == s[..i][k];
    }
    ParseDependencyLeftmost(s, i);
  }

  /** A plain entry is a core name without condition. */
  lemma PlainDependencyExample(dep: string)
    requires dep == "othercore"
    ensures ParseDependency(dep) == (None, "othercore")
  {
    OtherCorePlain();
    PlainDependency(dep);
  }

  lemma OtherCorePlain()
    ensures '?' !in "othercore" && Strip("othercore") == "othercore"
  {
    StripTrimmed("othercore");
  }

  /** `sim? (conditionalcore)` is the core `conditionalcore` under the condition `sim`. */
  lemma ConditionalDependencyExample(dep: string)
    requires dep == "sim? (conditionalcore)"
    ensures ParseDependency(dep) == (Some("sim"), "conditionalcore")
  {
    ExampleParsed(dep);
    StripSim();
    StripConditionalCore();
  }

  lemma StripSim()
    ensures Strip("sim") == "sim"
  {
    StripTrimmed("sim");
  }

  lemma StripConditionalCore()
    ensures Strip("conditionalcore") == "conditionalcore"
  {
    StripTrimmed("conditionalcore");
  }

  lemma ExampleParsed(dep: string)
    requires dep == "sim? (conditionalcore)"
    ensures ParseDependency(dep) == (Some(Strip("sim")), Strip("conditionalcore"))
  {
    ExampleText();
    ConditionalDependency("sim", " ", "conditionalcore");
  }

  lemma ExampleText()
    ensures "sim" + "?" + " " + "(" + "conditionalcore" + ")" == "sim? (conditionalcore)"
  {
  }

  /* ---------------------------------------------------------------- */
  /* validate                                                          */
  /* ---------------------------------------------------------------- */

  /** What `yaml.safe_load` makes of a text. */
  datatype YamlOutcome =
    | Loaded(doc: Json)
    | MarkedError(file: string, line: nat, column: nat, problem: string)  // yaml.MarkedYAMLError
    | YamlError(text: string)  // any other yaml.YAMLError, as `str()` prints it

  /**
   * The libraries `validate` consults: the YAML loader, the core and
   * signature schemas, and `Core2Parser().validate`, which either passes
   * or raises SyntaxError with a message.
   */
  datatype Oracles = Oracles(
    loadYaml: string -> YamlOutcome,
    coreSchema: Json -> SchemaOutcome,
    signatureSchema: Json -> SchemaOutcome,
    core2Parser: Json -> Option<string>)

  /**
   * Why `validate` did not return: a `serializers.ValidationError` (for the
   * licence it is keyed by `spdx_license`), or another exception that
   * escapes it, named by its type.
   */
  datatype Rejection = Invalid(field: Option<string>, message: string) | Crash(exception: string)

  /** The `except yaml...` clauses. */
  function YamlRejection(y: YamlOutcome): (r: Rejection)
    requires !y.Loaded?
    ensures r.Invalid? && r.field.None?
  {
    match y
    case MarkedError(file, line, column, problem) =>
      Invalid(None, "Error in file " + file + " (line " + NatToString(line) + ", column " + NatToString(column) + "): " + problem)
    case YamlError(text) => Invalid(None, "Error while parsing file: " + text)
  }

  /** `yaml.safe_load` of a file, then `_validate_against_schema`. */
  function LoadChecked(o: Oracles, text: string, schema: Json -> SchemaOutcome, fileType: string): (r: Result<Json, Rejection>)
    ensures r.Success? <==> o.loadYaml(text).Loaded? && schema(o.loadYaml(text).doc).Conforms?
    ensures r.Success? ==> r.value == o.loadYaml(text).doc
    ensures !o.loadYaml(text).Loaded? ==> r == Failure(YamlRejection(o.loadYaml(text)))
    ensures o.loadYaml(text).Loaded? && !schema(o.loadYaml(text).doc).Conforms? ==>
      r == Failure(Invalid(None, SchemaRejection(schema(o.loadYaml(text).doc), fileType).value))
  {
    match o.loadYaml(text)
    case Loaded(doc) =>
      (match SchemaRejection(schema(doc), fileType)
       case Some(message) => Failure(Invalid(None, message))
       case None => Success(doc))
    case _ => Failure(YamlRejection(o.loadYaml(text)))
  }

  /**
   * The core file's content: the first line is checked, the whole text is
   * loaded and checked against the core schema, the `CAPI=2` entry is
   * deleted and the rest must pass `Core2Parser`.
   */
  function CoreContent(o: Oracles, core: Upload): (r: Result<Json, Rejection>)
    ensures !HeaderOk(core.content) ==> r == Failure(Invalid(None, HeaderMessage))
    ensures r.Success? ==>
      && HeaderOk(core.content)
      && LoadChecked(o, core.content, o.coreSchema, "core").Success?
      && o.loadYaml(core.content).doc.Obj?
      && "CAPI=2" in Keys(o.loadYaml(core.content).doc.fields)
      && r.value == Obj(Remove(o.loadYaml(core.content).doc.fields, "CAPI=2"))
      && o.core2Parser(r.value).None?
    ensures r.Success? ==> Lookup(r.value.fields, "CAPI=2").None?
    ensures HeaderOk(core.content) && LoadChecked(o, core.content, o.coreSchema, "core").Failure? ==>
      r == LoadChecked(o, core.content, o.coreSchema, "core")
    // accepted exactly when every step passes
    ensures r.Success? <==>
      && HeaderOk(core.content)
      && LoadChecked(o, core.content, o.coreSchema, "core").Success?
      && o.loadYaml(core.content).doc.Obj?
      && "CAPI=2" in Keys(o.loadYaml(core.content).doc.fields)
      && o.core2Parser(Obj(Remove(o.loadYaml(core.content).doc.fields, "CAPI=2"))).None?
    // after a conforming load: `del` on a non-dict, a missing `CAPI=2`, and a Core2Parser refusal
    ensures HeaderOk(core.content) && LoadChecked(o, core.content, o.coreSchema, "core").Success? ==>
      var doc := o.loadYaml(core.content).doc;
      && (!doc.Obj? ==> r == Failure(Crash("TypeError")))
      && (doc.Obj? && "CAPI=2" !in Keys(doc.fields) ==> r == Failure(Crash("KeyError")))
      && (doc.Obj? && "CAPI=2" in Keys(doc.fields) && o.core2Parser(Obj(Remove(doc.fields, "CAPI=2"))).Some? ==>
            r == Failure(Invalid(None, "Core file did not pass FuseSoC core validation: "
                                       + o.core2Parser(Obj(Remove(doc.fields, "CAPI=2"))).value)))
  {
    if !HeaderOk(core.content) then Failure(Invalid(None, HeaderMessage))
    else
      match LoadChecked(o, core.content, o.coreSchema, "core")
      case Failure(e) => Failure(e)
      case Success(doc) =>
        if !doc.Obj? then Failure(Crash("TypeError"))
        else if "CAPI=2" !in Keys(doc.fields) then Failure(Crash("KeyError"))
        else
          var content := Obj(Remove(doc.fields, "CAPI=2"));
          match o.core2Parser(content)
          case Some(message) => Failure(Invalid(None, "Core file did not pass FuseSoC core validation: " + message))
          case None => Success(content)
  }

  /** `VLNV.from_string(content.get('name'))`: `str.split` needs a string. */
  function CoreVlnv(content: Json): (r: Result<Vlnv.VLNV, Rejection>)
    ensures r.Success? <==> Get(content, "name").Str?
    ensures r.Success? ==> r.value == Vlnv.FromString(Get(content, "name").s)
  {
    var name := Get(content, "name");
    if name.Str? then Success(Vlnv.FromString(name.s)) else Failure(Crash("AttributeError"))
  }

  /** `str()` of a Django ValidationError raised with one message: `repr` of the one-element list. */
  function ErrorListText(message: string): string
  {
    "[" + Repr(message) + "]"
  }

  /**
   * The licence step: an absent or falsy licence passes; otherwise
   * `validate_spdx` must accept it. A string outside the list, or a number
   * or `True`, which is never a member of a set of strings, is refused with
   * the validator's message; a list or dict cannot be hashed to look it up,
   * and that TypeError's text becomes the message.
   */
  function LicenseRejection(m: Spdx.LicenseMap, license: Json): (r: Option<Rejection>)
    ensures r.None? <==> !Truthy(license) || (license.Str? && license.s in Spdx.LicenseIds(m))
    ensures r.Some? ==> r.value.Invalid? && r.value.field == Some("spdx_license")
    ensures r.Some? && license.Str? ==> r.value.message == ErrorListText(Spdx.ValidateSpdx(m, license.s).error)
    ensures r.Some? && license.Arr? ==> r.value.message == "unhashable type: 'list'"
    ensures r.Some? && license.Obj? ==> r.value.message == "unhashable type: 'dict'"
  {
    if !Truthy(license) then None
    else
      match license
      case Str(s) =>
        (match Spdx.ValidateSpdx(m, s)
         case Success(_) => None
         case Failure(e) => Some(Invalid(Some("spdx_license"), ErrorListText(e))))
      case Int(i) => Some(Invalid(Some("spdx_license"), ErrorListText(IntToString(i) + " is not a valid SPDX license identifier.")))
      case Bool(_) => Some(Invalid(Some("spdx_license"), ErrorListText("True is not a valid SPDX license identifier.")))
      case Arr(_) => Some(Invalid(Some("spdx_license"), "unhashable type: 'list'"))
      case Obj(_) => Some(Invalid(Some("spdx_license"), "unhashable type: 'dict'"))
  }

  /** The `LicenseRef-` identifier of the publishing tests is refused unless the list holds it. */
  lemma LicenseRefRejected(m: Spdx.LicenseMap)
    requires "LicenseRef-MyCustomLicense" !in m
    ensures LicenseRejection(m, Str("LicenseRef-MyCustomLicense"))
      == Some(Invalid(Some("spdx_license"), ErrorListText("LicenseRef-MyCustomLicense" + " is not a valid SPDX license identifier.")))
  {
  }

  const InvalidLicenseSuffix: string := " is not a valid SPDX license identifier."

  /** The validator's fixed suffix holds no quote, backslash or control character. */
  lemma SuffixPlain(q: char)
    requires q == '\'' || q == '"'
    ensures Plain(InvalidLicenseSuffix, q)
  {
    if q == '\'' {
      SuffixPlainSingle();
    } else {
      SuffixPlainDouble();
    }
  }

  lemma SuffixPlainSingle()
    ensures Plain(InvalidLicenseSuffix, '\'')
  {
  }

  lemma SuffixPlainDouble()
    ensures Plain(InvalidLicenseSuffix, '"')
  {
  }

  /**
   * The message of a refused licence string is `repr` of the validator's
   * message in a list: between `"` when the identifier holds `'` (and no
   * `"`), else between `'`.
   */
  lemma LicenseQuoteMessage(m: Spdx.LicenseMap, id: string)
    requires id != "" && id !in m
    requires forall i :: 0 <= i < |id| ==> id[i] != '\\' && ' ' <= id[i] && id[i] as int != 0x7F
    ensures '\'' in id && '"' !in id ==>
      LicenseRejection(m, Str(id)) == Some(Invalid(Some("spdx_license"), "[" + ['"'] + id + InvalidLicenseSuffix + ['"'] + "]"))
    ensures '\'' !in id ==>
      LicenseRejection(m, Str(id)) == Some(Invalid(Some("spdx_license"), "[" + ['\''] + id + InvalidLicenseSuffix + ['\''] + "]"))
  {
    var message := id + InvalidLicenseSuffix;
    assert Spdx.ValidateSpdx(m, id) == Failure(message);
    assert LicenseRejection(m, Str(id)) == Some(Invalid(Some("spdx_license"), ErrorListText(message)));
    SuffixPlain('\'');
    SuffixPlain('"');
    ReprAppendPlain(id, InvalidLicenseSuffix);
    var q := ReprQuote(id);
    assert q == '"' || q == '\'';
    if q == '"' {
      EscapedPlain(id, '"');
    } else if '\'' !in id {
      EscapedPlain(id, '\'');
    }
    if ('\'' in id && '"' !in id) || '\'' !in id {
      var r := Repr(message);
      assert r == [q] + id + InvalidLicenseSuffix + [q];
      calc {
        ErrorListText(message);
        "[" + r + "]";
        "[" + ([q] + id + InvalidLicenseSuffix + [q]) + "]";
        { ConcatRegroup("[", [q], id, InvalidLicenseSuffix, [q], "]"); }
        "[" + [q] + id + InvalidLicenseSuffix + [q] + "]";
      }
    }
  }

  lemma ConcatRegroup(a: string, b: string, c: string, d: string, e: string, f: string)
    ensures a + (b + c + d + e) + f == a + b + c + d + e + f
  {
  }

  /** The core name the signature file was made for: `sig.get('coresig').get('name')`, parsed. */
  function SignatureVlnv(o: Oracles, sig: Upload): (r: Result<Vlnv.VLNV, Rejection>)
    ensures r.Success? ==> LoadChecked(o, sig.content, o.signatureSchema, "signature").Success?
    ensures LoadChecked(o, sig.content, o.signatureSchema, "signature").Failure? ==>
      r == Failure(LoadChecked(o, sig.content, o.signatureSchema, "signature").error)
    ensures r.Success? ==>
      var coresig := Get(o.loadYaml(sig.content).doc, "coresig");
      coresig.Obj? && Get(coresig, "name").Str? && r.value == Vlnv.FromString(Get(coresig, "name").s)
    // a conforming file is read exactly when `coresig` is a dict whose `name` is a string;
    // otherwise `.get` on a non-dict or `.split` on a non-string raises AttributeError
    ensures LoadChecked(o, sig.content, o.signatureSchema, "signature").Success? ==>
      var coresig := Get(o.loadYaml(sig.content).doc, "coresig");
      && (r.Success? <==> coresig.Obj? && Get(coresig, "name").Str?)
      && (r.Failure? ==> r == Failure(Crash("AttributeError")))
  {
    match LoadChecked(o, sig.content, o.signatureSchema, "signature")
    case Failure(e) => Failure(e)
    case Success(doc) =>
      var coresig := Get(doc, "coresig");
      if !doc.Obj? || !coresig.Obj? || !Get(coresig, "name").Str? then Failure(Crash("AttributeError"))
      else Success(Vlnv.FromString(Get(coresig, "name").s))
  }

  function SignatureMessage(core: Vlnv.VLNV, signed: Vlnv.VLNV): string
  {
    "Signature error: Signature file not valid for " + Vlnv.ToString(core)
    + ". Signature file was created for " + Vlnv.ToString(signed) + "."
  }

  /** `attrs.get('signature_file')`: a file is truthy when it has a name. */
  predicate HasSignature(sig: Option<Upload>)
  {
    sig.Some? && sig.value.name != ""
  }

  /** The signature step: without a signature file nothing is checked; with one, it must be for the same VLNV. */
  function SignatureRejection(o: Oracles, core: Vlnv.VLNV, sig: Option<Upload>): (r: Option<Rejection>)
    ensures r.None? <==> !HasSignature(sig) || SignatureVlnv(o, sig.value) == Success(core)
    ensures HasSignature(sig) && SignatureVlnv(o, sig.value).Success? && SignatureVlnv(o, sig.value).value != core ==>
      r == Some(Invalid(None, SignatureMessage(core, SignatureVlnv(o, sig.value).value)))
  {
    if !HasSignature(sig) then None
    else
      match SignatureVlnv(o, sig.value)
      case Failure(e) => Some(e)
      case Success(signed) => if signed != core then Some(Invalid(None, SignatureMessage(core, signed))) else None
  }

  /**
   * The sanitized VLNV `validate` predicts: each of vendor, library and
   * project contributes the sanitized name of its existing row, found by
   * name under its parent, or else the sanitized text of its name; the
   * version always contributes its sanitized text.
   */
  function SanitizedComposite(vendors: seq<Models.Vendor>, libraries: seq<Models.Library>, projects: seq<Models.Project>,
                              vendor: string, library: string, name: string, version: string): (r: string)
    // no vendor of that name: every part is sanitized text
    ensures Models.FindVendor(vendors, vendor).None? ==>
      r == Sanitize.SanitizeString(vendor) + "_" + Sanitize.SanitizeString(library) + "_" + Sanitize.SanitizeString(name)
           + "_" + Sanitize.SanitizeString(version)
    // the vendor row exists, but no library of that name under it
    ensures var vi := Models.FindVendor(vendors, vendor);
      vi.Some? && Models.FindLibrary(libraries, vi.value, library).None? ==>
      r == vendors[vi.value].sanitizedName + "_" + Sanitize.SanitizeString(library) + "_" + Sanitize.SanitizeString(name)
           + "_" + Sanitize.SanitizeString(version)
    // vendor and library rows exist, but no project of that name under them
    ensures var vi := Models.FindVendor(vendors, vendor);
      vi.Some? && Models.FindLibrary(libraries, vi.value, library).Some?
      && Models.FindProject(projects, vi.value, Models.FindLibrary(libraries, vi.value, library).value, name).None? ==>
      r == vendors[vi.value].sanitizedName + "_" + libraries[Models.FindLibrary(libraries, vi.value, library).value].sanitizedName
           + "_" + Sanitize.SanitizeString(name) + "_" + Sanitize.SanitizeString(version)
    // all three rows exist: each contributes its stored sanitized name
    ensures var vi := Models.FindVendor(vendors, vendor);
      vi.Some? && Models.FindLibrary(libraries, vi.value, library).Some?
      && Models.FindProject(projects, vi.value, Models.FindLibrary(libraries, vi.value, library).value, name).Some? ==>
      var li := Models.FindLibrary(libraries, vi.value, library).value;
      var pi := Models.FindProject(projects, vi.value, li, name).value;
      r == vendors[vi.value].sanitizedName + "_" + libraries[li].sanitizedName + "_" + projects[pi].sanitizedName
           + "_" + Sanitize.SanitizeString(version)
  {
    var vi := Models.FindVendor(vendors, vendor);
    var li := if vi.Some? then Models.FindLibrary(libraries, vi.value, library) else None;
    var pi := if vi.Some? && li.Some? then Models.FindProject(projects, vi.value, li.value, name) else None;
    var sv := if vi.Some? then vendors[vi.value].sanitizedName else Sanitize.SanitizeString(vendor);
    var sl := if li.Some? then libraries[li.value].sanitizedName else Sanitize.SanitizeString(library);
    var sp := if pi.Some? then projects[pi.value].sanitizedName else Sanitize.SanitizeString(name);
    sv + "_" + sl + "_" + sp + "_" + Sanitize.SanitizeString(version)
  }

  /** What `validate` returns in `attrs`, besides the uploads themselves. */
  datatype Validated = Validated(
    coreFile: Upload,
    signatureFile: Option<Upload>,
    vlnvName: string,
    vendorName: string,
    libraryName: string,
    projectName: string,
    version: string,
    description: Json,
    coreContent: Json,
    spdxLicense: Json,
    sanitizedName: string)

  /**
   * `CoreSerializer.validate(attrs)` against the registry's vendors,
   * libraries and projects and the licence list. The steps run in order
   * and the first one that fails decides the outcome; a name with fewer
   * than three colons leaves vendor, library or name `None`, and
   * sanitizing `None` raises.
   */
  function Validate(vendors: seq<Models.Vendor>, libraries: seq<Models.Library>, projects: seq<Models.Project>,
                    m: Spdx.LicenseMap, o: Oracles, core: Upload, sig: Option<Upload>): (r: Result<Validated, Rejection>)
    // the first failing step decides
    ensures !HeaderOk(core.content) ==> r == Failure(Invalid(None, HeaderMessage))
    ensures CoreContent(o, core).Failure? ==> r == Failure(CoreContent(o, core).error)
    ensures CoreContent(o, core).Success? && CoreVlnv(CoreContent(o, core).value).Failure? ==>
      r == Failure(CoreVlnv(CoreContent(o, core).value).error)
    ensures CoreContent(o, core).Success? && CoreVlnv(CoreContent(o, core).value).Success?
            && LicenseRejection(m, Get(CoreContent(o, core).value, "license")).Some? ==>
      r == Failure(LicenseRejection(m, Get(CoreContent(o, core).value, "license")).value)
    ensures CoreContent(o, core).Success? && CoreVlnv(CoreContent(o, core).value).Success?
            && LicenseRejection(m, Get(CoreContent(o, core).value, "license")).None?
            && SignatureRejection(o, CoreVlnv(CoreContent(o, core).value).value, sig).Some? ==>
      r == Failure(SignatureRejection(o, CoreVlnv(CoreContent(o, core).value).value, sig).value)
    // every check passed: accepted exactly when vendor, library and name are present, as sanitizing `None` raises
    ensures CoreContent(o, core).Success? && CoreVlnv(CoreContent(o, core).value).Success?
            && LicenseRejection(m, Get(CoreContent(o, core).value, "license")).None?
            && SignatureRejection(o, CoreVlnv(CoreContent(o, core).value).value, sig).None? ==>
      var v := CoreVlnv(CoreContent(o, core).value).value;
      && (r.Success? <==> v.vendor.Some? && v.library.Some? && v.name.Some?)
      && (r.Failure? ==> r == Failure(Crash("TypeError")))
    // what a success promises
    ensures r.Success? ==> r.value.coreFile == core && r.value.signatureFile == sig
    ensures r.Success? ==> CoreContent(o, core) == Success(r.value.coreContent)
    ensures r.Success? ==>
      && r.value.vlnvName == r.value.vendorName + ":" + r.value.libraryName + ":" + r.value.projectName + ":" + r.value.version
      && Get(r.value.coreContent, "name") == Str(r.value.vlnvName)
      && ':' !in r.value.vendorName && ':' !in r.value.libraryName && ':' !in r.value.projectName
    ensures r.Success? ==>
      Vlnv.FromString(r.value.vlnvName)
      == Vlnv.VLNV(Some(r.value.vendorName), Some(r.value.libraryName), Some(r.value.projectName), Some(r.value.version))
    ensures r.Success? ==>
      && r.value.description == Get(r.value.coreContent, "description")
      && r.value.spdxLicense == Get(r.value.coreContent, "license")
      && (!Truthy(r.value.spdxLicense) || (r.value.spdxLicense.Str? && r.value.spdxLicense.s in Spdx.LicenseIds(m)))
    ensures r.Success? && HasSignature(sig) ==> SignatureVlnv(o, sig.value) == Success(Vlnv.FromString(r.value.vlnvName))
    ensures r.Success? ==>
      r.value.sanitizedName == SanitizedComposite(vendors, libraries, projects, r.value.vendorName, r.value.libraryName,
                                                  r.value.projectName, r.value.version)
  {
    match CoreContent(o, core)
    case Failure(e) => Failure(e)
    case Success(content) =>
      match CoreVlnv(content)
      case Failure(e) => Failure(e)
      case Success(v) =>
        var license := Get(content, "license");
        match LicenseRejection(m, license)
        case Some(e) => Failure(e)
        case None =>
          match SignatureRejection(o, v, sig)
          case Some(e) => Failure(e)
          case None =>
            if v.vendor.None? || v.library.None? || v.name.None? then Failure(Crash("TypeError"))
            else
              var name := Get(content, "name").s;
              ValidatedName(name);
              Success(Validated(core, sig, Vlnv.ToString(v), v.vendor.value, v.library.value, v.name.value, v.version.value,
                                Get(content, "description"), content, license,
                                SanitizedComposite(vendors, libraries, projects, v.vendor.value, v.library.value,
                                                   v.name.value, v.version.value)))
  }

  /**
   * A core name whose parse fills vendor, library and name prints back as
   * itself, joins its four fields with colons, holds no colon in the first
   * three, and parses again to the same fields.
   */
  lemma ValidatedName(name: string)
    requires var v := Vlnv.FromString(name); v.vendor.Some? && v.library.Some? && v.name.Some?
    ensures var v := Vlnv.FromString(name);
      && v.version.Some?
      && Vlnv.ToString(v) == name
      && name == v.vendor.value + ":" + v.library.value + ":" + v.name.value + ":" + v.version.value
      && ':' !in v.vendor.value && ':' !in v.library.value && ':' !in v.name.value
  {
    ValidatedNameParts(name);
    var v := Vlnv.FromString(name);
    Vlnv.ToStringTexts(v);
    Vlnv.Join4(v.vendor.value, v.library.value, v.name.value, v.version.value, ":");
    assert Vlnv.Texts(Vlnv.Fields(v)) == [v.vendor.value, v.library.value, v.name.value, v.version.value];
  }

  lemma ValidatedNameParts(name: string)
    requires var v := Vlnv.FromString(name); v.vendor.Some? && v.library.Some? && v.name.Some?
    ensures var v := Vlnv.FromString(name);
      && v.version.Some?
      && Vlnv.ToString(v) == name
      && ':' !in v.vendor.value && ':' !in v.library.value && ':' !in v.name.value
  {
    var v := Vlnv.FromString(name);
    Vlnv.FromStringAbsent(name);
    Vlnv.FromStringColonFree(name);
    assert Vlnv.Fields(v)[0].Some?;
    Vlnv.RoundTrip(name);
  }

  /* ---------------------------------------------------------------- */
  /* create                                                            */
  /* ---------------------------------------------------------------- */

  /**
   * What `create` reads of one entry of `filesets`. `fileType` is the value
   * as the text column `file_type` keeps it (see `Models.CharText`).
   */
  datatype FilesetEntry = FilesetEntry(name: string, files: Json, fileType: Option<string>, depend: seq<(Option<string>, string)>)

  /**
   * What `create` reads of one entry of `targets`; `filesets` are the listed
   * names, as the document gives them. `defaultTool`, `flow` and
   * `description` are the values as their text columns keep them.
   */
  datatype TargetEntry = TargetEntry(name: string, parameters: Json, defaultTool: Option<string>, flow: Option<string>,
                                     description: Option<string>, filesets: seq<Json>)

  /** `content.get(key, {}).items()`: no entry gives nothing; a value without `.items()` raises. */
  function Items(content: Json, key: string): (r: Option<seq<(string, Json)>>)
    ensures content.Obj? && Lookup(content.fields, key).None? ==> r == Some([])
    ensures content.Obj? && Lookup(content.fields, key).Some? && Lookup(content.fields, key).value.Obj? ==>
      r == Some(Lookup(content.fields, key).value.fields)
    ensures r.Some? ==> content.Obj?
    // `.items()` raises AttributeError on a present section that is not a dict
    ensures r.Some? <==> content.Obj? && (Lookup(content.fields, key).None? || Lookup(content.fields, key).value.Obj?)
  {
    if !content.Obj? then None
    else
      match Lookup(content.fields, key)
      case None => Some([])
      case Some(value) => if value.Obj? then Some(value.fields) else None
  }

  /** `for x in value`: a list's items, a string's characters, a dict's keys; anything else raises TypeError. */
  function Iterate(j: Json): (r: Option<seq<Json>>)
    ensures r.Some? <==> j.Arr? || j.Str? || j.Obj?
    ensures j.Arr? ==> r == Some(j.items)
    ensures j.Str? ==> |r.value| == |j.s| && forall i :: 0 <= i < |j.s| ==> r.value[i] == Str([j.s[i]])
    ensures j.Obj? ==> |r.value| == |j.fields| && forall i :: 0 <= i < |j.fields| ==> r.value[i] == Str(j.fields[i].0)
  {
    match j
    case Arr(items) => Some(items)
    case Str(s) => Some(seq(|s|, i requires 0 <= i < |s| => Str([s[i]])))
    case Obj(fields) => Some(seq(|fields|, i requires 0 <= i < |fields| => Str(fields[i].0)))
    case _ => None
  }

  /** `d.get(key, default)` on a dict. */
  function GetOr(d: Json, key: string, default: Json): (r: Json)
    requires d.Obj?
    ensures Lookup(d.fields, key).None? ==> r == default
    ensures Lookup(d.fields, key).Some? ==> r == Lookup(d.fields, key).value
  {
    match Lookup(d.fields, key)
    case Some(v) => v
    case None => default
  }

  /** The `depend` list of a fileset; `re.match` needs every entry to be a string. */
  function DependEntries(data: Json): (r: Option<seq<string>>)
    requires data.Obj?
    ensures r.Some? <==>
      Iterate(GetOr(data, "depend", Arr([]))).Some? && forall i :: 0 <= i < |Iterate(GetOr(data, "depend", Arr([]))).value| ==> Iterate(GetOr(data, "depend", Arr([]))).value[i].Str?
    ensures r.Some? ==> var items := Iterate(GetOr(data, "depend", Arr([]))).value;
      |r.value| == |items| && forall i :: 0 <= i < |items| ==> items[i] == Str(r.value[i])
  {
    match Iterate(GetOr(data, "depend", Arr([])))
    case None => None
    case Some(items) =>
      if forall i :: 0 <= i < |items| ==> items[i].Str? then Some(seq(|items|, i requires 0 <= i < |items| => items[i].s))
      else None
  }

  /**
   * One fileset entry; its value must be a dict for `.get`. Each `depend`
   * entry is kept as `ParseDependency` reads it: the parse depends on the
   * string alone, so reading it here or in the loop that stores it is the same.
   */
  function ToFileset(name: string, data: Json): (r: Option<FilesetEntry>)
    ensures r.Some? <==> data.Obj? && DependEntries(data).Some?
    ensures r.Some? ==> r.value.name == name && r.value.files == Get(data, "files")
    // `file_type` goes through `CharField.to_python`: a string is kept, `None` stays `None`, anything else becomes its `str()`
    ensures r.Some? ==> (r.value.fileType.None? <==> Get(data, "file_type") == Null)
    ensures r.Some? && Get(data, "file_type").Str? ==> r.value.fileType == Some(Get(data, "file_type").s)
    ensures r.Some? && Get(data, "file_type") != Null && !Get(data, "file_type").Str? ==>
      r.value.fileType == Some(ReprOf(Get(data, "file_type")))
    ensures r.Some? ==> (|r.value.depend| == |DependEntries(data).value| &&
      forall i :: 0 <= i < |r.value.depend| ==> r.value.depend[i] == ParseDependency(DependEntries(data).value[i]))
  {
    if !data.Obj? then None
    else
      match DependEntries(data)
      case None => None
      case Some(depend) =>
        Some(FilesetEntry(name, Get(data, "files"), Models.CharText(Get(data, "file_type")),
                          seq(|depend|, i requires 0 <= i < |depend| => ParseDependency(depend[i]))))
  }

  /** `fileset_objs.get(x)` raises TypeError for a list or dict, which cannot be hashed. */
  predicate Hashable(j: Json)
  {
    !j.Arr? && !j.Obj?
  }

  /** One target entry; its value must be a dict, and the names it lists must be hashable. */
  function ToTarget(name: string, data: Json): (r: Option<TargetEntry>)
    ensures r.Some? ==> data.Obj? && Iterate(GetOr(data, "filesets", Arr([]))) == Some(r.value.filesets)
    ensures r.Some? ==> forall i :: 0 <= i < |r.value.filesets| ==> Hashable(r.value.filesets[i])
    ensures r.Some? ==> r.value.name == name && r.value.parameters == Get(data, "parameters")
    // the three text columns go through `to_python`: a string is kept, `None` stays `None`, anything else becomes its `str()`
    ensures r.Some? ==> r.value.defaultTool == Models.CharText(Get(data, "default_tool"))
    ensures r.Some? ==> r.value.flow == Models.CharText(Get(data, "flow"))
    ensures r.Some? ==> r.value.description == Models.CharText(Get(data, "description"))
    ensures data.Obj? && Iterate(GetOr(data, "filesets", Arr([]))).Some?
            && (forall i :: 0 <= i < |Iterate(GetOr(data, "filesets", Arr([]))).value| ==> Hashable(Iterate(GetOr(data, "filesets", Arr([]))).value[i]))
            ==> r.Some?
  {
    if !data.Obj? then None
    else
      match Iterate(GetOr(data, "filesets", Arr([])))
      case None => None
      case Some(listed) =>
        if forall i :: 0 <= i < |listed| ==> Hashable(listed[i]) then
          Some(TargetEntry(name, Get(data, "parameters"), Models.CharText(Get(data, "default_tool")), Models.CharText(Get(data, "flow")),
                           Models.CharText(Get(data, "description")), listed))
        else None
  }

  /** All fileset entries of the content, or `None` when reading one of them raises. */
  function FilesetEntries(content: Json): (r: Option<seq<FilesetEntry>>)
    ensures r.Some? ==> Items(content, "filesets").Some? && |r.value| == |Items(content, "filesets").value|
  {
    match Items(content, "filesets")
    case None => None
    case Some(items) =>
      if forall k :: 0 <= k < |items| ==> ToFileset(items[k].0, items[k].1).Some? then
        Some(seq(|items|, k requires 0 <= k < |items| => ToFileset(items[k].0, items[k].1).value))
      else None
  }

  /** The `filesets` section is read exactly when it is a dict whose every entry reads, one entry per item, in order. */
  lemma FilesetEntriesSpec(content: Json)
    ensures FilesetEntries(content).Some? <==> (Items(content, "filesets").Some? &&
      forall k :: 0 <= k < |Items(content, "filesets").value| ==>
        ToFileset(Items(content, "filesets").value[k].0, Items(content, "filesets").value[k].1).Some?)
    ensures FilesetEntries(content).Some? ==> var items := Items(content, "filesets").value;
      forall k :: 0 <= k < |items| ==> Some(FilesetEntries(content).value[k]) == ToFileset(items[k].0, items[k].1)
  {
  }

  /** All target entries of the content, or `None` when reading one of them raises. */
  function TargetEntries(content: Json): (r: Option<seq<TargetEntry>>)
    ensures r.Some? ==> Items(content, "targets").Some? && |r.value| == |Items(content, "targets").value|
  {
    match Items(content, "targets")
    case None => None
    case Some(items) =>
      if forall k :: 0 <= k < |items| ==> ToTarget(items[k].0, items[k].1).Some? then
        Some(seq(|items|, k requires 0 <= k < |items| => ToTarget(items[k].0, items[k].1).value))
      else None
  }

  /** The `targets` section is read exactly when it is a dict whose every entry reads, one entry per item, in order. */
  lemma TargetEntriesSpec(content: Json)
    ensures TargetEntries(content).Some? <==> (Items(content, "targets").Some? &&
      forall k :: 0 <= k < |Items(content, "targets").value| ==>
        ToTarget(Items(content, "targets").value[k].0, Items(content, "targets").value[k].1).Some?)
    ensures TargetEntries(content).Some? ==> var items := Items(content, "targets").value;
      forall k :: 0 <= k < |items| ==> Some(TargetEntries(content).value[k]) == ToTarget(items[k].0, items[k].1)
  {
  }

  /** The fileset rows `create` inserts for a package, one per entry, in order. */
  function FilesetRows(entries: seq<FilesetEntry>, pkg: nat): (r: seq<Models.Fileset>)
    ensures |r| == |entries|
    ensures forall k :: 0 <= k < |entries| ==> r[k] == FilesetRow(entries[k], pkg)
    decreases |entries|
  {
    if |entries| == 0 then []
    else
      var front := entries[..|entries| - 1];
      assert forall k :: 0 <= k < |front| ==> front[k] == entries[k];
      FilesetRows(front, pkg) + [FilesetRow(entries[|entries| - 1], pkg)]
  }

  /** The fileset row of one entry: `files` as the document gives it, `file_type` as its text column keeps it. */
  function FilesetRow(e: FilesetEntry, pkg: nat): Models.Fileset
  {
    Models.Fileset(pkg, e.name, e.files, e.fileType)
  }

  /** The dependency row of one parsed `depend` entry: its core name and condition. */
  function DependencyRow(parsed: (Option<string>, string), fileset: nat, pkg: nat): (d: Models.FilesetDependency)
    ensures d.fileset == fileset && d.corePackage == pkg
  {
    Models.FilesetDependency(fileset, parsed.1, parsed.0, pkg)
  }

  /** The dependency rows of one fileset, in the order of its `depend` list. */
  function DepsOf(depend: seq<(Option<string>, string)>, fileset: nat, pkg: nat): (r: seq<Models.FilesetDependency>)
    ensures |r| == |depend|
    decreases |depend|
  {
    if |depend| == 0 then []
    else DepsOf(depend[..|depend| - 1], fileset, pkg) + [DependencyRow(depend[|depend| - 1], fileset, pkg)]
  }

  /** The dependency rows of the first `n` filesets, the k-th fileset's row being `base + k`. */
  function DependencyRows(entries: seq<FilesetEntry>, n: nat, base: nat, pkg: nat): (r: seq<Models.FilesetDependency>)
    requires n <= |entries|
    decreases n
  {
    if n == 0 then []
    else DependencyRows(entries, n - 1, base, pkg) + DepsOf(entries[n - 1].depend, base + n - 1, pkg)
  }

  /** Every dependency row belongs to the package and to one of the filesets made for its entries. */
  lemma {:induction false} DependencyRowsBounds(entries: seq<FilesetEntry>, n: nat, base: nat, pkg: nat)
    requires n <= |entries|
    ensures forall i :: 0 <= i < |DependencyRows(entries, n, base, pkg)| ==>
      var d := DependencyRows(entries, n, base, pkg)[i];
      base <= d.fileset < base + n && d.corePackage == pkg
    decreases n
  {
    if n > 0 {
      DependencyRowsBounds(entries, n - 1, base, pkg);
      DepsOfBounds(entries[n - 1].depend, base + n - 1, pkg);
    }
  }

  lemma {:induction false} DepsOfBounds(depend: seq<(Option<string>, string)>, fileset: nat, pkg: nat)
    ensures forall i :: 0 <= i < |DepsOf(depend, fileset, pkg)| ==>
      DepsOf(depend, fileset, pkg)[i].fileset == fileset && DepsOf(depend, fileset, pkg)[i].corePackage == pkg
    decreases |depend|
  {
    if |depend| > 0 {
      DepsOfBounds(depend[..|depend| - 1], fileset, pkg);
    }
  }

  /** `fileset_objs` after the first `n` entries: fileset name to row, later entries overwriting earlier ones. */
  function FilesetObjs(entries: seq<FilesetEntry>, n: nat, base: nat): (r: map<string, nat>)
    requires n <= |entries|
    decreases n
  {
    if n == 0 then map[]
    else FilesetObjs(entries, n - 1, base)[entries[n - 1].name := base + n - 1]
  }

  /** Each name of an entry maps to the row of its last entry of that name, and no other name is present. */
  lemma {:induction false} FilesetObjsLast(entries: seq<FilesetEntry>, n: nat, base: nat, name: string)
    requires n <= |entries|
    ensures name in FilesetObjs(entries, n, base) <==> exists k :: 0 <= k < n && entries[k].name == name
    ensures name in FilesetObjs(entries, n, base) ==>
      base <= FilesetObjs(entries, n, base)[name] < base + n &&
      var k := FilesetObjs(entries, n, base)[name] - base;
      entries[k].name == name && forall j :: k < j < n ==> entries[j].name != name
    decreases n
  {
    if n > 0 {
      FilesetObjsLast(entries, n - 1, base, name);
    }
  }

  /** The filesets linked to a target: the listed names that are filesets of this package; other names are skipped. */
  function Links(objs: map<string, nat>, listed: seq<Json>): (r: set<nat>)
    ensures forall f :: f in r <==> exists k :: 0 <= k < |listed| && listed[k].Str? && listed[k].s in objs && objs[listed[k].s] == f
  {
    set k | 0 <= k < |listed| && listed[k].Str? && listed[k].s in objs :: objs[listed[k].s]
  }

  lemma LinksStep(objs: map<string, nat>, listed: seq<Json>, m: nat)
    requires m < |listed|
    ensures Links(objs, listed[..m + 1])
      == Links(objs, listed[..m]) + (if listed[m].Str? && listed[m].s in objs then {objs[listed[m].s]} else {})
  {
    assert forall k :: 0 <= k < m ==> listed[..m + 1][k] == listed[..m][k];
    assert listed[..m + 1][m] == listed[m];
  }

  /** The configuration row of one target entry with the given links; the text columns as the entry holds them. */
  function ConfigurationRow(e: TargetEntry, pkg: nat, target: nat, links: set<nat>): Models.TargetConfiguration
  {
    Models.TargetConfiguration(pkg, target, links, e.parameters, e.defaultTool, e.flow, e.description)
  }

  /** A target configuration as `create` leaves it for one target entry. */
  predicate Configured(c: Models.TargetConfiguration, targets: seq<Models.Target>, e: TargetEntry, pkg: nat, objs: map<string, nat>)
  {
    && c == ConfigurationRow(e, pkg, c.target, Links(objs, e.filesets))
    && Models.FindTarget(targets, e.name) == Some(c.target)
  }

  /** A first match stays the first match when rows are appended. */
  lemma FirstWhereAppend<T>(rows: seq<T>, extra: seq<T>, p: T -> bool)
    requires Models.FirstWhere(rows, p).Some?
    ensures Models.FirstWhere(rows + extra, p) == Models.FirstWhere(rows, p)
  {
    var i := Models.FirstWhere(rows, p).value;
    assert (rows + extra)[i] == rows[i];
    assert forall k :: 0 <= k < i ==> (rows + extra)[k] == rows[k];
  }

  /** Getting or creating a target keeps every earlier configuration's target the first of its name. */
  lemma TargetsGrow(before: seq<Models.Target>, after: seq<Models.Target>, entries: seq<TargetEntry>, k: nat, base: nat,
                    configurations: seq<Models.TargetConfiguration>, pkg: nat, objs: map<string, nat>)
    requires before <= after && k <= |entries| && base + k <= |configurations|
    requires forall q :: 0 <= q < k ==> Configured(configurations[base + q], before, entries[q], pkg, objs)
    ensures forall q :: 0 <= q < k ==> Configured(configurations[base + q], after, entries[q], pkg, objs)
  {
    forall q | 0 <= q < k
      ensures Configured(configurations[base + q], after, entries[q], pkg, objs)
    {
      assert after == before + after[|before|..];
      FirstWhereAppend(before, after[|before|..], (t: Models.Target) => t.name == entries[q].name);
    }
  }

  /** The package row `create` builds, with the uploaded files in the file fields. */
  function NewPackage(project: nat, data: Validated): (p: Models.CorePackage)
    ensures p.project == project && p.vlnvName == data.vlnvName && p.version == data.version && p.sanitizedName == ""
    ensures p.coreFile == data.coreFile.name && p.description == data.description && p.spdxLicense == data.spdxLicense
    ensures p.signatureFile == (if data.signatureFile.Some? then data.signatureFile.value.name else "")
    ensures p.versionMajor.None? && p.versionMinor.None? && p.versionPatch.None? && p.versionPrerelease.None?
  {
    Models.CorePackage(project, data.vlnvName, data.version, None, None, None, None, data.coreFile.name,
                       if data.signatureFile.Some? then data.signatureFile.value.name else "",
                       data.description, data.spdxLicense, "")
  }

  /** Why `create` did not complete: the package's save failed, or reading the core content raised. */
  datatype CreateError = NotSaved(error: Models.SaveError) | Raised

  /** The filesets loop of `create`: a row per entry and a dependency row per `depend` entry. */
  method CreateFilesets(reg: Models.Registry, entries: seq<FilesetEntry>, pkg: nat) returns (objs: map<string, nat>)
    requires reg.Valid() && pkg < |reg.packages|
    modifies reg
    ensures reg.Valid()
    ensures reg.vendors == old(reg.vendors) && reg.libraries == old(reg.libraries) && reg.projects == old(reg.projects)
    ensures reg.packages == old(reg.packages) && reg.targets == old(reg.targets) && reg.configurations == old(reg.configurations)
    ensures reg.filesets == old(reg.filesets) + FilesetRows(entries, pkg)
    ensures reg.dependencies == old(reg.dependencies) + DependencyRows(entries, |entries|, |old(reg.filesets)|, pkg)
    ensures objs == FilesetObjs(entries, |entries|, |old(reg.filesets)|)
  {
    var base := |reg.filesets|;
    objs := map[];
    var i := 0;
    while i < |entries|
      invariant 0 <= i <= |entries|
      invariant reg.Valid()
      invariant reg.vendors == old(reg.vendors) && reg.libraries == old(reg.libraries) && reg.projects == old(reg.projects)
      invariant reg.packages == old(reg.packages) && reg.targets == old(reg.targets) && reg.configurations == old(reg.configurations)
      invariant reg.filesets == old(reg.filesets) + FilesetRows(entries[..i], pkg)
      invariant reg.dependencies == old(reg.dependencies) + DependencyRows(entries, i, base, pkg)
      invariant objs == FilesetObjs(entries, i, base)
    {
      var fs := CreateFileset(reg, entries[i], pkg);
      objs := objs[entries[i].name := fs];
      FilesetStep(entries, i, base, pkg, old(reg.filesets), old(reg.dependencies), reg.filesets, reg.dependencies);
      i := i + 1;
    }
    assert entries[..i] == entries;
  }

  /** Handling one more entry extends the rows by that entry's fileset and its dependencies. */
  lemma FilesetStep(entries: seq<FilesetEntry>, i: nat, base: nat, pkg: nat,
                    filesets0: seq<Models.Fileset>, dependencies0: seq<Models.FilesetDependency>,
                    filesets: seq<Models.Fileset>, dependencies: seq<Models.FilesetDependency>)
    requires i < |entries|
    requires filesets == filesets0 + FilesetRows(entries[..i], pkg) + [FilesetRow(entries[i], pkg)]
    requires dependencies == dependencies0 + DependencyRows(entries, i, base, pkg) + DepsOf(entries[i].depend, base + i, pkg)
    ensures filesets == filesets0 + FilesetRows(entries[..i + 1], pkg)
    ensures dependencies == dependencies0 + DependencyRows(entries, i + 1, base, pkg)
  {
    var next := entries[..i + 1];
    assert next[..i] == entries[..i] && next[i] == entries[i] && |next| == i + 1;
    assert FilesetRows(next, pkg) == FilesetRows(entries[..i], pkg) + [FilesetRow(entries[i], pkg)];
  }

  /** One fileset entry: its row, then its dependencies. */
  method CreateFileset(reg: Models.Registry, e: FilesetEntry, pkg: nat) returns (fs: nat)
    requires reg.Valid() && pkg < |reg.packages|
    modifies reg
    ensures reg.Valid()
    ensures reg.vendors == old(reg.vendors) && reg.libraries == old(reg.libraries) && reg.projects == old(reg.projects)
    ensures reg.packages == old(reg.packages) && reg.targets == old(reg.targets) && reg.configurations == old(reg.configurations)
    ensures fs == |old(reg.filesets)| && reg.filesets == old(reg.filesets) + [FilesetRow(e, pkg)]
    ensures reg.dependencies == old(reg.dependencies) + DepsOf(e.depend, fs, pkg)
  {
    fs := reg.CreateFileset(FilesetRow(e, pkg));
    CreateDependencies(reg, e.depend, fs, pkg);
  }

  lemma DepsOfStep(depend: seq<(Option<string>, string)>, j: nat, fs: nat, pkg: nat)
    requires j < |depend|
    ensures DepsOf(depend[..j + 1], fs, pkg) == DepsOf(depend[..j], fs, pkg) + [DependencyRow(depend[j], fs, pkg)]
  {
    assert depend[..j + 1][..j] == depend[..j];
  }

  /** The dependencies loop of one fileset. */
  method CreateDependencies(reg: Models.Registry, depend: seq<(Option<string>, string)>, fs: nat, pkg: nat)
    requires reg.Valid() && fs < |reg.filesets| && pkg < |reg.packages|
    modifies reg
    ensures reg.Valid()
    ensures reg.vendors == old(reg.vendors) && reg.libraries == old(reg.libraries) && reg.projects == old(reg.projects)
    ensures reg.packages == old(reg.packages) && reg.targets == old(reg.targets) && reg.configurations == old(reg.configurations)
    ensures reg.filesets == old(reg.filesets)
    ensures reg.dependencies == old(reg.dependencies) + DepsOf(depend, fs, pkg)
  {
    var j := 0;
    while j < |depend|
      invariant 0 <= j <= |depend|
      invariant reg.Valid()
      invariant reg.vendors == old(reg.vendors) && reg.libraries == old(reg.libraries) && reg.projects == old(reg.projects)
      invariant reg.packages == old(reg.packages) && reg.targets == old(reg.targets) && reg.configurations == old(reg.configurations)
      invariant reg.filesets == old(reg.filesets)
      invariant reg.dependencies == old(reg.dependencies) + DepsOf(depend[..j], fs, pkg)
    {
      reg.CreateDependency(DependencyRow(depend[j], fs, pkg));
      DepsOfStep(depend, j, fs, pkg);
      j := j + 1;
    }
    assert depend[..j] == depend;
  }

  /** One target entry: its target got or created, a configuration for it, then the links. */
  method CreateConfiguration(reg: Models.Registry, e: TargetEntry, pkg: nat, objs: map<string, nat>) returns (c: nat)
    requires reg.Valid() && pkg < |reg.packages|
    requires forall n :: n in objs ==> objs[n] < |reg.filesets|
    modifies reg
    ensures reg.Valid()
    ensures reg.vendors == old(reg.vendors) && reg.libraries == old(reg.libraries) && reg.projects == old(reg.projects)
    ensures reg.packages == old(reg.packages) && reg.filesets == old(reg.filesets) && reg.dependencies == old(reg.dependencies)
    ensures old(reg.targets) <= reg.targets
    ensures c == |old(reg.configurations)| && |reg.configurations| == c + 1 && reg.configurations[..c] == old(reg.configurations)
    ensures Configured(reg.configurations[c], reg.targets, e, pkg, objs)
  {
    var t := reg.GetOrCreateTarget(e.name);
    c := reg.CreateConfiguration(ConfigurationRow(e, pkg, t, {}));
    ghost var created := reg.configurations;
    var m := 0;
    while m < |e.filesets|
      invariant 0 <= m <= |e.filesets|
      invariant reg.Valid()
      invariant reg.vendors == old(reg.vendors) && reg.libraries == old(reg.libraries) && reg.projects == old(reg.projects)
      invariant reg.packages == old(reg.packages) && reg.filesets == old(reg.filesets) && reg.dependencies == old(reg.dependencies)
      invariant old(reg.targets) <= reg.targets && Models.FindTarget(reg.targets, e.name) == Some(t)
      invariant |reg.configurations| == c + 1 && reg.configurations[..c] == old(reg.configurations)
      invariant reg.configurations[c] == ConfigurationRow(e, pkg, t, Links(objs, e.filesets[..m]))
    {
      var listed := e.filesets[m];
      LinksStep(objs, e.filesets, m);
      if listed.Str? && listed.s in objs {
        reg.AddFileset(c, objs[listed.s]);
      }
      m := m + 1;
    }
    assert e.filesets[..m] == e.filesets;
  }

  /** The targets loop of `create`: a configuration per entry, linked to the listed filesets of this package. */
  method CreateTargets(reg: Models.Registry, entries: seq<TargetEntry>, pkg: nat, objs: map<string, nat>)
    requires reg.Valid() && pkg < |reg.packages|
    requires forall n :: n in objs ==> objs[n] < |reg.filesets|
    modifies reg
    ensures reg.Valid()
    ensures reg.vendors == old(reg.vendors) && reg.libraries == old(reg.libraries) && reg.projects == old(reg.projects)
    ensures reg.packages == old(reg.packages) && reg.filesets == old(reg.filesets) && reg.dependencies == old(reg.dependencies)
    ensures old(reg.targets) <= reg.targets
    ensures |reg.configurations| == |old(reg.configurations)| + |entries|
    ensures reg.configurations[..|old(reg.configurations)|] == old(reg.configurations)
    ensures forall q :: 0 <= q < |entries| ==>
      Configured(reg.configurations[|old(reg.configurations)| + q], reg.targets, entries[q], pkg, objs)
  {
    var base := |reg.configurations|;
    var k := 0;
    while k < |entries|
      invariant 0 <= k <= |entries|
      invariant reg.Valid()
      invariant reg.vendors == old(reg.vendors) && reg.libraries == old(reg.libraries) && reg.projects == old(reg.projects)
      invariant reg.packages == old(reg.packages) && reg.filesets == old(reg.filesets) && reg.dependencies == old(reg.dependencies)
      invariant old(reg.targets) <= reg.targets
      invariant |reg.configurations| == base + k && reg.configurations[..base] == old(reg.configurations)
      invariant forall q :: 0 <= q < k ==> Configured(reg.configurations[base + q], reg.targets, entries[q], pkg, objs)
    {
      ghost var targetsBefore := reg.targets;
      ghost var configurationsBefore := reg.configurations;
      var c := CreateConfiguration(reg, entries[k], pkg, objs);
      TargetsGrow(targetsBefore, reg.targets, entries, k, base, configurationsBefore, pkg, objs);
      assert reg.configurations[..base + k] == configurationsBefore;
      k := k + 1;
    }
  }

  /** The keyword arguments `CorePackage(...)` accepts: its fields, the column of `project`, and `pk`. */
  const CorePackageKeywords: set<string> :=
    {"id", "pk", "project", "project_id", "vlnv_name", "version", "version_major", "version_minor", "version_patch",
     "version_prerelease", "core_file", "signature_file", "description", "spdx_license", "sanitized_name"}

  /** The keywords `create` passes to `CorePackage.objects.create`. */
  const CreateKeywordsAsWritten: set<string> :=
    {"project", "vlnv_name", "version", "core_url", "sig_url", "description", "spdx_license"}

  /** The keywords with the uploaded files passed to the model's file fields. */
  const CreateKeywords: set<string> :=
    {"project", "vlnv_name", "version", "core_file", "signature_file", "description", "spdx_license"}

  /** Building a `CorePackage` from keyword arguments: a keyword that names no field raises TypeError. */
  function Instantiate(keywords: set<string>): (r: Result<(), string>)
    ensures r.Success? <==> keywords <= CorePackageKeywords
    ensures r.Failure? ==> r.error == "TypeError"
  {
    if keywords <= CorePackageKeywords then Success(()) else Failure("TypeError")
  }

  /** `core_url` and `sig_url` are not fields of the package, so `create` as written always raises; the file fields are. */
  lemma CreateAsWrittenRaises()
    ensures "core_url" in CreateKeywordsAsWritten && "core_url" !in CorePackageKeywords
    ensures Instantiate(CreateKeywordsAsWritten) == Failure("TypeError")
    ensures Instantiate(CreateKeywords) == Success(())
  {
  }

  /** `create` as written: the rows got or created before the package is built are rolled back with it. */
  method CreateAsWritten(reg: Models.Registry, data: Validated) returns (r: Result<nat, CreateError>)
    requires reg.Valid()
    modifies reg
    ensures reg.Valid()
    ensures r == Failure(Raised)
    ensures reg.vendors == old(reg.vendors) && reg.libraries == old(reg.libraries) && reg.projects == old(reg.projects)
    ensures reg.packages == old(reg.packages) && reg.filesets == old(reg.filesets) && reg.dependencies == old(reg.dependencies)
    ensures reg.targets == old(reg.targets) && reg.configurations == old(reg.configurations)
  {
    var vendors, libraries, projects, packages := reg.vendors, reg.libraries, reg.projects, reg.packages;
    assert Models.Consistent(reg.licenses, vendors, libraries, projects, packages,
                             reg.filesets, reg.dependencies, reg.targets, reg.configurations);
    var _ := GetOrCreateProjectOf(reg, data);
    CreateAsWrittenRaises();
    match Instantiate(CreateKeywordsAsWritten)
    case Failure(_) =>
      reg.Restore(vendors, libraries, projects, packages);
      r := Failure(Raised);
  }

  /** The vendor, library and project of the package, each got or created by name. */
  method GetOrCreateProjectOf(reg: Models.Registry, data: Validated) returns (project: nat)
    requires reg.Valid()
    modifies reg
    ensures reg.Valid()
    ensures reg.packages == old(reg.packages) && reg.filesets == old(reg.filesets) && reg.dependencies == old(reg.dependencies)
    ensures reg.targets == old(reg.targets) && reg.configurations == old(reg.configurations)
    ensures old(reg.vendors) <= reg.vendors && old(reg.libraries) <= reg.libraries && old(reg.projects) <= reg.projects
    ensures project < |reg.projects| && reg.projects[project].name == data.projectName
    ensures reg.projects[project].vendor < |reg.vendors| && reg.vendors[reg.projects[project].vendor].name == data.vendorName
    ensures reg.projects[project].library < |reg.libraries| && reg.libraries[reg.projects[project].library].name == data.libraryName
    ensures reg.libraries[reg.projects[project].library].vendor == reg.projects[project].vendor
    ensures Models.FindVendor(old(reg.vendors), data.vendorName).Some? ==> reg.vendors == old(reg.vendors)
    ensures forall p: nat :: NamedProject(old(reg.vendors), old(reg.libraries), old(reg.projects), p, data) ==> project == p
  {
    ghost var vendors0, libraries0, projects0 := reg.vendors, reg.libraries, reg.projects;
    forall p: nat | NamedProject(vendors0, libraries0, projects0, p, data)
      ensures Models.FindVendor(vendors0, data.vendorName) == Some(projects0[p].vendor)
      ensures Models.FindLibrary(libraries0, projects0[p].vendor, data.libraryName) == Some(projects0[p].library)
      ensures Models.FindProject(projects0, projects0[p].vendor, projects0[p].library, data.projectName) == Some(p)
    {
      NamedProjectFound(vendors0, libraries0, projects0, p, data);
    }
    var vendor := reg.GetOrCreateVendor(data.vendorName);
    var library := reg.GetOrCreateLibrary(vendor, data.libraryName);
    project := reg.GetOrCreateProject(vendor, library, data.projectName);
  }

  /** The eight tables of the registry, as values. */
  datatype Tables = Tables(vendors: seq<Models.Vendor>, libraries: seq<Models.Library>, projects: seq<Models.Project>,
                           packages: seq<Models.CorePackage>, filesets: seq<Models.Fileset>,
                           dependencies: seq<Models.FilesetDependency>, targets: seq<Models.Target>,
                           configurations: seq<Models.TargetConfiguration>)

  function TablesOf(reg: Models.Registry): (t: Tables)
    reads reg
    ensures t.packages == reg.packages && t.filesets == reg.filesets && t.configurations == reg.configurations
  {
    Tables(reg.vendors, reg.libraries, reg.projects, reg.packages, reg.filesets, reg.dependencies, reg.targets, reg.configurations)
  }

  /**
   * The rows the two loops of `create` add after package `pkg`: a fileset
   * per fileset entry, a dependency per `depend` item, and a configuration
   * per target entry linked to the filesets it names.
   */
  ghost predicate RowsCreated(before: Tables, after: Tables, fe: seq<FilesetEntry>, te: seq<TargetEntry>, pkg: nat)
  {
    && after.filesets == before.filesets + FilesetRows(fe, pkg)
    && after.dependencies == before.dependencies + DependencyRows(fe, |fe|, |before.filesets|, pkg)
    && before.targets <= after.targets
    && ConfiguredAll(after.configurations, before.configurations, after.targets, te, pkg, FilesetObjs(fe, |fe|, |before.filesets|))
  }

  /** The filesets loop, then the targets loop. */
  method CreateRows(reg: Models.Registry, fe: seq<FilesetEntry>, te: seq<TargetEntry>, pkg: nat)
    requires reg.Valid() && pkg < |reg.packages|
    modifies reg
    ensures reg.Valid()
    ensures reg.vendors == old(reg.vendors) && reg.libraries == old(reg.libraries) && reg.projects == old(reg.projects)
    ensures reg.packages == old(reg.packages)
    ensures RowsCreated(old(TablesOf(reg)), TablesOf(reg), fe, te, pkg)
  {
    var objs := CreateFilesets(reg, fe, pkg);
    ObjsInRange(fe, |old(reg.filesets)|, |reg.filesets|);
    CreateTargets(reg, te, pkg, objs);
  }

  /**
   * Project `p` has the validated project name, and lies under the vendor
   * and the library (of that vendor) with the validated names.
   */
  predicate NamedProject(vendors: seq<Models.Vendor>, libraries: seq<Models.Library>, projects: seq<Models.Project>,
                         p: nat, data: Validated)
  {
    && p < |projects| && projects[p].name == data.projectName
    && projects[p].vendor < |vendors| && vendors[projects[p].vendor].name == data.vendorName
    && projects[p].library < |libraries| && libraries[projects[p].library].name == data.libraryName
    && libraries[projects[p].library].vendor == projects[p].vendor
  }

  /** A package of the project with the validated names already has the validated version. */
  ghost predicate VersionTaken(t: Tables, data: Validated)
  {
    exists j :: 0 <= j < |t.packages| && t.packages[j].version == data.version
      && NamedProject(t.vendors, t.libraries, t.projects, t.packages[j].project, data)
  }

  /** The package's own fields pass validation, and its pre-release fits its column. */
  predicate Publishable(m: Spdx.LicenseMap, data: Validated)
  {
    && Models.FieldsValid(m, NewPackage(0, data))
    && |Models.PrereleaseOrEmpty(SemVer.Parse(data.version).value.prerelease)| <= Models.PrereleaseMaxLength
  }

  /** A clash with the project got or created can only be with a package of the project of those names. */
  lemma DuplicateIsTaken(before: Tables, after: Tables, project: nat, data: Validated)
    requires Models.ProjectsValid(before.projects, |before.vendors|, |before.libraries|)
    requires forall j :: 0 <= j < |before.packages| ==> before.packages[j].project < |before.projects|
    requires before.vendors <= after.vendors && before.libraries <= after.libraries && before.projects <= after.projects
    requires NamedProject(after.vendors, after.libraries, after.projects, project, data)
    requires Models.DuplicateVersion(before.packages, NewPackage(project, data), None)
    ensures VersionTaken(before, data)
  {
    var j :| 0 <= j < |before.packages| && Some(j) != None && before.packages[j].project == NewPackage(project, data).project
             && before.packages[j].version == NewPackage(project, data).version;
    assert NamedProject(before.vendors, before.libraries, before.projects, project, data);
  }

  /** With unique names, the lookups by name find exactly the rows of a project with those names. */
  lemma NamedProjectFound(vendors: seq<Models.Vendor>, libraries: seq<Models.Library>, projects: seq<Models.Project>,
                          p: nat, data: Validated)
    requires Models.VendorsValid(vendors) && Models.LibrariesValid(libraries, |vendors|)
    requires Models.ProjectsValid(projects, |vendors|, |libraries|)
    requires NamedProject(vendors, libraries, projects, p, data)
    ensures Models.FindVendor(vendors, data.vendorName) == Some(projects[p].vendor)
    ensures Models.FindLibrary(libraries, projects[p].vendor, data.libraryName) == Some(projects[p].library)
    ensures Models.FindProject(projects, projects[p].vendor, projects[p].library, data.projectName) == Some(p)
  {
    var v, l := projects[p].vendor, projects[p].library;
    var fv := Models.FindVendor(vendors, data.vendorName);
    assert vendors[v].name == data.vendorName;
    assert fv.Some? && fv.value <= v;
    var fl := Models.FindLibrary(libraries, v, data.libraryName);
    assert libraries[l].vendor == v && libraries[l].name == data.libraryName;
    assert fl.Some? && fl.value <= l;
    var fp := Models.FindProject(projects, v, l, data.projectName);
    assert projects[p].vendor == v && projects[p].library == l && projects[p].name == data.projectName;
    assert fp.Some? && fp.value <= p;
  }

  /**
   * The first half of `create`: the vendor, library and project got or
   * created, then the package saved; when the save fails, the rows got or
   * created for it are rolled back with it.
   */
  method SavePackage(reg: Models.Registry, data: Validated) returns (r: Result<nat, Models.SaveError>)
    requires reg.Valid()
    modifies reg
    ensures reg.Valid()
    ensures reg.filesets == old(reg.filesets) && reg.dependencies == old(reg.dependencies)
    ensures reg.targets == old(reg.targets) && reg.configurations == old(reg.configurations)
    ensures r.Failure? ==>
      reg.vendors == old(reg.vendors) && reg.libraries == old(reg.libraries) && reg.projects == old(reg.projects)
      && reg.packages == old(reg.packages)
    ensures r.Success? <==> Publishable(reg.licenses, data) && !VersionTaken(old(TablesOf(reg)), data)
    ensures r.Success? ==>
      && r.value == |old(reg.packages)| < |reg.packages| && reg.packages == old(reg.packages) + [reg.packages[r.value]]
      && Published(TablesOf(reg), data, reg.packages[r.value])
      && Models.FreshSanitized(reg.packages[r.value].sanitizedName, Models.PackageSanitizedNames(old(reg.packages)), data.version, None)
      && old(reg.vendors) <= reg.vendors && old(reg.libraries) <= reg.libraries && old(reg.projects) <= reg.projects
      && (Models.FindVendor(old(reg.vendors), data.vendorName).Some? ==> reg.vendors == old(reg.vendors))
  {
    var vendors, libraries, projects, packages := reg.vendors, reg.libraries, reg.projects, reg.packages;
    ghost var before := TablesOf(reg);
    assert Models.Consistent(reg.licenses, vendors, libraries, projects, packages,
                             reg.filesets, reg.dependencies, reg.targets, reg.configurations);
    var project := GetOrCreateProjectOf(reg, data);
    var p := NewPackage(project, data);
    assert NamedProject(reg.vendors, reg.libraries, reg.projects, project, data);
    if VersionTaken(before, data) {
      var j :| 0 <= j < |packages| && packages[j].version == data.version
               && NamedProject(vendors, libraries, projects, packages[j].project, data);
      assert Models.DuplicateVersion(packages, p, None);
    } else if Models.DuplicateVersion(packages, p, None) {
      DuplicateIsTaken(before, TablesOf(reg), project, data);
    }
    r := SaveUnder(reg, data, project, vendors, libraries, projects);
  }

  /**
   * `CorePackage.objects.create(...)` under the project got or created,
   * inside the transaction: a failed save rolls back to the tables as they
   * were before the project was got or created.
   */
  method SaveUnder(reg: Models.Registry, data: Validated, project: nat,
                   vendors0: seq<Models.Vendor>, libraries0: seq<Models.Library>, projects0: seq<Models.Project>)
      returns (r: Result<nat, Models.SaveError>)
    requires reg.Valid() && project < |reg.projects|
    requires Models.Consistent(reg.licenses, vendors0, libraries0, projects0, reg.packages,
                               reg.filesets, reg.dependencies, reg.targets, reg.configurations)
    modifies reg
    ensures reg.Valid()
    ensures reg.filesets == old(reg.filesets) && reg.dependencies == old(reg.dependencies)
    ensures reg.targets == old(reg.targets) && reg.configurations == old(reg.configurations)
    ensures r.Failure? ==>
      reg.vendors == vendors0 && reg.libraries == libraries0 && reg.projects == projects0 && reg.packages == old(reg.packages)
    ensures r.Success? <==> Publishable(reg.licenses, data) && !Models.DuplicateVersion(old(reg.packages), NewPackage(project, data), None)
    ensures r.Success? ==>
      && reg.vendors == old(reg.vendors) && reg.libraries == old(reg.libraries) && reg.projects == old(reg.projects)
      && r.value == |old(reg.packages)| < |reg.packages| && reg.packages == old(reg.packages) + [reg.packages[r.value]]
      && SemVer.Parse(data.version).Some?
      && reg.packages[r.value] == Models.Derive(Models.Cleaned(NewPackage(project, data))).(sanitizedName := reg.packages[r.value].sanitizedName)
      && Models.FreshSanitized(reg.packages[r.value].sanitizedName, Models.PackageSanitizedNames(old(reg.packages)), data.version, None)
  {
    var packages := reg.packages;
    FieldsValidOfProject(reg.licenses, data, project);
    r := reg.SaveCorePackage(NewPackage(project, data), None);
    if r.Failure? {
      reg.Restore(vendors0, libraries0, projects0, packages);
    }
  }

  /**
   * `create` with the uploaded files passed to the file fields: the package
   * saved, then a row per fileset, per dependency and per target; any
   * failure rolls all of it back.
   */
  method Create(reg: Models.Registry, data: Validated) returns (r: Result<nat, CreateError>)
    requires reg.Valid()
    modifies reg
    ensures reg.Valid()
    ensures r.Failure? ==> TablesOf(reg) == old(TablesOf(reg))
    ensures r.Success? <==>
      && Publishable(reg.licenses, data) && !VersionTaken(old(TablesOf(reg)), data)
      && FilesetEntries(data.coreContent).Some? && TargetEntries(data.coreContent).Some?
    ensures r.Success? ==>
      && FilesetEntries(data.coreContent).Some? && TargetEntries(data.coreContent).Some?
      && r.value == |old(reg.packages)| < |reg.packages| && reg.packages == old(reg.packages) + [reg.packages[r.value]]
      && Published(TablesOf(reg), data, reg.packages[r.value])
      && Models.FreshSanitized(reg.packages[r.value].sanitizedName, Models.PackageSanitizedNames(old(reg.packages)), data.version, None)
      && old(reg.vendors) <= reg.vendors && old(reg.libraries) <= reg.libraries && old(reg.projects) <= reg.projects
      && (Models.FindVendor(old(reg.vendors), data.vendorName).Some? ==> reg.vendors == old(reg.vendors))
      && RowsCreated(old(TablesOf(reg)), TablesOf(reg),
                     FilesetEntries(data.coreContent).value, TargetEntries(data.coreContent).value, r.value)
  {
    var vendors, libraries, projects, packages := reg.vendors, reg.libraries, reg.projects, reg.packages;
    ghost var before := TablesOf(reg);
    assert Models.Consistent(reg.licenses, vendors, libraries, projects, packages,
                             before.filesets, before.dependencies, before.targets, before.configurations);
    var saved := SavePackage(reg, data);
    if saved.Failure? {
      return Failure(NotSaved(saved.error));
    }
    var filesetEntries := FilesetEntries(data.coreContent);
    var targetEntries := TargetEntries(data.coreContent);
    if filesetEntries.None? || targetEntries.None? {
      reg.Restore(vendors, libraries, projects, packages);
      return Failure(Raised);
    }
    CreateRows(reg, filesetEntries.value, targetEntries.value, saved.value);
    r := Success(saved.value);
  }

  /** The package row is the one built from the validated data, under the project of the validated names. */
  ghost predicate Published(t: Tables, data: Validated, package: Models.CorePackage)
  {
    && package.project < |t.projects|
    && var project := t.projects[package.project];
       && project.name == data.projectName
       && project.vendor < |t.vendors| && t.vendors[project.vendor].name == data.vendorName
       && project.library < |t.libraries| && t.libraries[project.library].name == data.libraryName
       && SemVer.Parse(data.version).Some?
       && package == Models.Derive(Models.Cleaned(NewPackage(package.project, data))).(sanitizedName := package.sanitizedName)
  }

  /** `is_signed` of the package `create` saves: exactly when `validate` was given a signature file. */
  lemma PublishedSigned(t: Tables, data: Validated, package: Models.CorePackage)
    requires Published(t, data, package)
    ensures Models.IsSigned(package) <==> HasSignature(data.signatureFile)
  {
  }

  /** The configurations after the targets loop: the earlier ones, then one per target entry. */
  predicate ConfiguredAll(configurations: seq<Models.TargetConfiguration>, before: seq<Models.TargetConfiguration>,
                          targets: seq<Models.Target>, entries: seq<TargetEntry>, pkg: nat, objs: map<string, nat>)
  {
    && |configurations| == |before| + |entries|
    && configurations[..|before|] == before
    && forall q :: 0 <= q < |entries| ==> Configured(configurations[|before| + q], targets, entries[q], pkg, objs)
  }

  /** Whether the fields are valid does not depend on the project. */
  lemma FieldsValidOfProject(m: Spdx.LicenseMap, data: Validated, project: nat)
    ensures Models.FieldsValid(m, NewPackage(project, data)) == Models.FieldsValid(m, NewPackage(0, data))
  {
  }

  /** Every row in `fileset_objs` is one of the filesets just made. */
  lemma ObjsInRange(entries: seq<FilesetEntry>, base: nat, nFilesets: nat)
    requires base + |entries| <= nFilesets
    ensures forall n :: n in FilesetObjs(entries, |entries|, base) ==> FilesetObjs(entries, |entries|, base)[n] < nFilesets
  {
    forall n | n in FilesetObjs(entries, |entries|, base)
      ensures FilesetObjs(entries, |entries|, base)[n] < nFilesets
    {
      FilesetObjsLast(entries, |entries|, base, n);
    }
  }
}
