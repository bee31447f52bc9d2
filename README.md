# FuseSoC package database: a verified model of the core

FuseSoC cores are published to the package database by uploading a `.core`
file, optionally with a `.sig` signature file. The web service checks the
upload (`CoreSerializer.validate`), then writes the package into its
registry (`CoreSerializer.create`). The registry has these tables:

- vendors, libraries and projects;
- core packages, one per version;
- filesets with their dependencies;
- targets and the packages' target configurations.

This project models that core in Dafny and proves what it promises.

The modules follow the repository's files:

| module | file | what it holds |
|---|---|---|
| `Vlnv` | `utils/vlnv.py` | the `vendor:library:name:version` identifier, parsed and printed |
| `Sanitize` | `utils/sanitize.py` | `sanitize_string` and the collision-free `get_unique_sanitized_name` |
| `Spdx` | `utils/spdx.py` | the SPDX licence list: identifiers, choices, URLs, the validator |
| `Files` | `utils/files.py` | the value to assign to a file field |
| `DummyStorage` | `core_directory/storages/dummy_storage.py` | the in-memory storage backend, as classes over one shared file store |
| `Models` | `core_directory/models.py` | the rows, the checked save of a package, the listing order, and the class `Registry` whose sequences are the tables |
| `Serializers` | `core_directory/serializers.py` | the upload checks, `validate` as a function, and `create` as methods on the registry |
| `ApiExtras` | `core_directory/api_extras.py` | the throttling message, and the OpenAPI hook that documents `Retry-After` on 429 responses |

Four support modules are shared by the others:

- `Wrappers`: `Option` and `Result`.
- `Text`: `join`, `split`, `strip`, `str(int)` and string order.
- `Json`: YAML/JSON documents, with dicts as ordered key/value lists.
- `SemVer`: the version grammar of Semantic Versioning 2.0.0, items 2, 9 and 10, which `VersionInfo.parse` implements.

Where the code and its documentation differ, the model follows the code:

- The first line of a core file is accepted when its *stripped* text *starts with* `CAPI=2:`. It does not have to equal `CAPI=2:`.
- A `LicenseRef-…` identifier is not refused as such. Like any other identifier, it is accepted exactly when the loaded licence list contains it.
- A package's `sanitized_name` is unique over the whole package table, not per project.

## Model

| member | source | states |
|---|---|---|
| `Vlnv.Split` | utils/vlnv.py:32 | `s.split(':', n)`: at most n+1 parts, which join back to `s` with `:`; every part before the last is colon-free |
| `Vlnv.SplitCount` | utils/vlnv.py:32 | the number of parts is the number of colons plus one, capped at n+1 |
| `Vlnv.FromString` | utils/vlnv.py:20-35 | a parse always has a version |
| `Vlnv.FromStringShape` | utils/vlnv.py:20-35 | with k colons, the first 3-k fields are `None` (the parts are right-aligned); only the version may hold a colon; the present fields joined with `:` give back the input |
| `Vlnv.FromStringAbsent` | utils/vlnv.py:32-35 | field i is `None` exactly when i + (number of colons) < 3 |
| `Vlnv.FromStringColonFree` | utils/vlnv.py:32-35 | vendor, library and name never contain `:` |
| `Vlnv.FromStringInjective` | utils/vlnv.py:20-35 | different strings parse to different VLNVs |
| `Vlnv.RoundTrip` | utils/vlnv.py:20-41 | with at least three colons, `to_string(from_string(s)) == s` |
| `Vlnv.RoundTripShort` | utils/vlnv.py:20-41 | with fewer colons, printing gives `None:` once per missing field, followed by the input |
| `Vlnv.ParsePrinted` | utils/vlnv.py:20-47 | a VLNV whose four fields are present, and whose first three are colon-free, parses back from its text |
| `Sanitize.LowerChar` | utils/sanitize.py:39 | lowercasing leaves no upper-case letter and maps valid to valid and invalid to invalid |
| `Sanitize.ReplaceInvalid` | utils/sanitize.py:35-39 | same length; each character of the class `[\/\\:*?"<>| ]` becomes `_`, all others stay |
| `Sanitize.SanitizeString` | utils/sanitize.py:7-45 | the result has length min(\|s\|, 255); position i holds `_` or the lowercased input character; no invalid character or upper-case letter remains |
| `Sanitize.SanitizeIdempotent` | utils/sanitize.py:7-45 | sanitizing twice is sanitizing once |
| `Sanitize.Candidate` | utils/sanitize.py:78-84 | every probe starts with the base name |
| `Sanitize.CandidateInjective` | utils/sanitize.py:83-85 | distinct probe numbers give distinct names, so no name is probed twice and the loop ends |
| `Sanitize.GetUniqueSanitizedName` | utils/sanitize.py:47-86 | the result is taken by no row except the excluded instance; it is the first free name of `base`, `base_1`, `base_2`, …; it is `base` itself when `base` is free |
| `Spdx.FromRecords` | utils/spdx.py:37 | the map's keys are exactly the `licenseId`s of the records |
| `Spdx.FromRecordsLastWins` | utils/spdx.py:37 | for a repeated identifier, the last record wins |
| `Spdx.LoadLicenseData` | utils/spdx.py:28-39 | a missing file or one that is not JSON gives the empty map; every other failure of the read raises (a missing `licenses` or `licenseId` key, a document that is not a dict, text that is not UTF-8, another OS error); otherwise the keys are the listed identifiers |
| `Spdx.LicenseIds` | utils/spdx.py:41-45 | an identifier is in the set exactly when the list has it |
| `Spdx.SortedIds` | utils/spdx.py:51 | `sorted(ids)`: every identifier exactly once, strictly ascending |
| `Spdx.Choices` | utils/spdx.py:47-51 | one `(id, id)` pair per identifier of the list, strictly ascending |
| `Spdx.LicenseUrlAsWritten` | utils/spdx.py:53-60 | the lookup as written fails exactly for a listed identifier whose `seeAlso` is `[]` |
| `Spdx.LicenseUrl` | utils/spdx.py:53-60 | `None` for an unknown identifier; for a listed one, the first `seeAlso` URL when there is one and it is not empty, and `reference` in every other case (no `seeAlso`, an empty list, or an empty first URL); a URL is only ever that one or `reference` |
| `Spdx.LicenseUrlAgrees` | utils/spdx.py:53-60 | wherever the code as written returns, it returns `LicenseUrl` |
| `Spdx.EmptySeeAlsoRaises` | utils/spdx.py:59 | a record with `seeAlso: []` makes the code as written raise where `reference` was meant |
| `Spdx.ValidateSpdx` | utils/spdx.py:62-68 | passes exactly for listed identifiers; otherwise fails with the message `<value> is not a valid SPDX license identifier.` |
| `Spdx.UnreadableLicenseFile` | utils/spdx.py:34-39 | when the licence file is missing or is not JSON, there are no identifiers, no choices and no URLs, and every licence is refused |
| `Files.FileFieldValueForStorage` | utils/files.py:10-20 | no file object gives `None`; a name already in storage gives the name; otherwise the very file object, to be uploaded |
| `DummyStorage.FileStore.constructor` | core_directory/storages/dummy_storage.py:19 | the shared file store starts empty |
| `DummyStorage.ContentFile.Seek` | core_directory/storages/dummy_storage.py:25 | only the read position moves |
| `DummyStorage.ContentFile.Read` | core_directory/storages/dummy_storage.py:26 | returns everything from the position to the end, and the position moves to the end |
| `DummyStorage.Storage.Contents` | core_directory/storages/dummy_storage.py:21-22 | the stored bytes, or no bytes for an unknown name |
| `DummyStorage.Storage.Open` | core_directory/storages/dummy_storage.py:21-22 | a fresh file over the stored bytes, read from the start; an unknown name opens as empty instead of failing |
| `DummyStorage.Storage.Save` | core_directory/storages/dummy_storage.py:24-27 | the content is rewound and its bytes replace whatever was stored under the name; the name is returned; afterwards the name exists and opens to those bytes |
| `DummyStorage.Storage.Exists` | core_directory/storages/dummy_storage.py:29-30 | true exactly when bytes are stored under the name; a name that does not exist opens as no bytes |
| `DummyStorage.Storage.Delete` | core_directory/storages/dummy_storage.py:32-34 | removes that name and nothing else; deleting an absent name changes nothing |
| `DummyStorage.Storage.Url` | core_directory/storages/dummy_storage.py:36-37 | the name under the `/dummy/` prefix |
| `DummyStorage.UrlInjective` | core_directory/storages/dummy_storage.py:36-37 | distinct names have distinct URLs |
| `DummyStorage.Storage.GetAccessedTime` | core_directory/storages/dummy_storage.py:39-41 | fails for every name, with NotImplementedError and its message |
| `DummyStorage.Storage.GetCreatedTime` | core_directory/storages/dummy_storage.py:43-45 | fails for every name, with NotImplementedError and its message |
| `DummyStorage.Storage.GetModifiedTime` | core_directory/storages/dummy_storage.py:47-49 | fails for every name, with NotImplementedError and its message |
| `DummyStorage.Storage.Path` | core_directory/storages/dummy_storage.py:51-53 | fails for every name, with NotImplementedError and its message |
| `DummyStorage.Storage.ListDir` | core_directory/storages/dummy_storage.py:55-57 | fails for every path, with NotImplementedError and its message |
| `DummyStorage.Storage.Size` | core_directory/storages/dummy_storage.py:59-61 | fails for every name, with NotImplementedError and its message |
| `DummyStorage.SharedAcrossInstances` | core_directory/storages/dummy_storage.py:19-34 | `_files` is a class attribute: one instance opens what another saved, and a delete through one instance is seen by the other |
| `Models.SanitizedNameOnSave` | core_directory/models.py:20-32 | a name already set is kept; an empty one becomes the first free sanitized name of the source field, with the instance itself excluded |
| `Models.DistinctAppend` | core_directory/models.py:14 | adding a name that no row holds keeps `sanitized_name` unique |
| `Models.DistinctReplace` | core_directory/models.py:14 | rewriting a row with a name no other row holds keeps `sanitized_name` unique |
| `Models.FirstWhere` | core_directory/serializers.py:181-183 | `filter(...).first()`: the least index whose row matches, or `None` when no row matches |
| `Models.CharText` | core_directory/models.py:127-137 | `CharField.to_python`: `None` stays `None`, a string stays as it is, and every other value becomes a non-empty text, its `str()` |
| `Models.FieldErrors` | core_directory/models.py:94-138 | no field error exactly when the project exists and `vlnv_name`, `version`, `core_file`, `description` and `spdx_license` pass their field rules; a value is converted to text before the blank test, the length limit and the NUL-character check, so `[]` and `{}` are non-blank texts |
| `Models.Cleaned` | core_directory/models.py:127-137 | `clean_fields` writes the converted values back: the description and a non-empty licence become text with the same content as before; an empty licence and every other field stay as they were |
| `Models.CleanedIdempotent` | core_directory/models.py:127-137 | writing the converted values back a second time changes nothing |
| `Models.CleanedFieldErrors` | core_directory/models.py:94-138 | the package with its values written back has the same field errors as the one supplied |
| `Models.EmptyContainerDescription` | core_directory/models.py:127-130 | an empty list or dict as description passes, stored as the text `[]` or `{}`, while `None` and `""` are refused |
| `Models.CleanErrors` | core_directory/models.py:202-227 | no error exactly when the fields pass and no other row has the same project and version; a bad version is always reported; `__all__` is reported only for a real duplicate |
| `Models.Derive` | core_directory/models.py:229-234 | after the save parses the version, all four derived fields are set |
| `Models.DeriveOfFormat` | core_directory/models.py:229-234 | the derived fields are major, minor, patch and the pre-release (`""` for a release) of the version the string spells |
| `Models.DeriveIgnoresSupplied` | core_directory/models.py:218-234 | values the caller put in the derived fields are overwritten |
| `Models.DeriveExample` | core_directory/models.py:98-116 | `1.2.3-rc1` is stored as 1, 2, 3, `rc1` |
| `Models.BadVersionRejected` | core_directory/models.py:202-209 | the version `bad` is refused, with an error on `version` |
| `Models.IsSigned` | core_directory/models.py:141-147 | `is_signed`: the signature file field holds a name |
| `Models.LicenseUrl` | core_directory/models.py:183-189 | an empty licence gives `None`; a licence string gives the list's URL for it; a truthy number or boolean is no key of the list and gives `None`; a URL is only ever returned for a listed licence string |
| `Models.LicenseUrlOfValid` | core_directory/models.py:183-189 | a package that passed validation with a licence string gets that licence's first `seeAlso` URL when there is one |
| `Models.SanitizedVlnv` | core_directory/models.py:149-160 | the vendor's, library's, project's and package's stored sanitized names, in that order, each followed by `_` except the last, at the offsets their lengths give |
| `Models.AbsoluteUrlSegments` | core_directory/models.py:191-200 | the route uses the four sanitized names, with `~` for an empty library name; the library segment is never empty |
| `Models.StoredVersionOrder` | core_directory/models.py:166-173 | two stored packages of one vendor and project are listed in the numeric order of their versions' major, minor and patch numbers, and a release before a pre-release with the same numbers |
| `Models.KeyLessOrder` | core_directory/models.py:166-173 | the listing order is a strict total order |
| `Models.NumericVersionOrder` | core_directory/models.py:166-173 | versions sort numerically (1.9.9 < 2.0.0 < 10.0.0), although the text `10.0.0` sorts before `2.0.0` |
| `Models.ReleaseListedFirst` | core_directory/models.py:166-173 | a release is listed before its own pre-releases |
| `Models.StoredOfClean` | core_directory/models.py:211-239 | the row a clean save writes, with its converted values written back, has valid fields and derived fields matching its version, and no other row has its project and version |
| `Models.StoredFieldsValid` | core_directory/models.py:94-138 | a saved package passes field validation again with no field error, and writing its values back changes nothing |
| `Models.PackagesAppend` | core_directory/models.py:162-164 | a new package with a fresh project and version, and a free sanitized name, keeps the package table valid |
| `Models.PackagesReplace` | core_directory/models.py:162-164 | the same holds for re-saving an existing row, where only the other rows count |
| `Models.SaveRow` | core_directory/models.py:211-239 | on the package table: field or duplicate errors fail with exactly `CleanErrors`; a pre-release over 20 characters fails; a taken sanitized name is an integrity error; otherwise the row is the supplied package with its converted values written back, the derived version fields and a kept or fresh sanitized name, and is appended or replaced; the table stays valid, and a failure leaves it as it was |
| `Models.Registry.Restore` | core_directory/serializers.py:211 | leaving `transaction.atomic` by an exception puts the vendor, library, project and package tables back; the registry stays valid |
| `Models.Registry.GetOrCreateVendor` | core_directory/serializers.py:213 | returns the existing vendor of that name unchanged, or appends one with a fresh sanitized name; every table invariant is kept |
| `Models.Registry.GetOrCreateLibrary` | core_directory/serializers.py:214 | the same, keyed by vendor and name |
| `Models.Registry.GetOrCreateProject` | core_directory/serializers.py:215-219 | the same, keyed by vendor, library and name; a new project has an empty description |
| `Models.Registry.SaveCorePackage` | core_directory/models.py:211-239 | the outcome and the new package table are those `SaveRow` states; the other tables are unchanged and the registry stays valid |
| `Models.Registry.CreateFileset` | core_directory/serializers.py:235-240 | appends the fileset; its key is the old table length |
| `Models.Registry.CreateDependency` | core_directory/serializers.py:253-258 | appends the dependency and changes nothing else |
| `Models.Registry.GetOrCreateTarget` | core_directory/serializers.py:263 | returns the first target of that name, or appends a new one without description |
| `Models.Registry.CreateConfiguration` | core_directory/serializers.py:264-271 | appends a configuration linked to no fileset yet |
| `Models.Registry.AddFileset` | core_directory/serializers.py:275 | adds one fileset to the configuration's set; adding a link twice is adding it once |
| `SemVer.ParseSound` | core_directory/models.py:207 | every accepted version text is a well-formed version that prints back as the same text |
| `SemVer.ParseFormat` | core_directory/models.py:229 | every well-formed version parses back from its text |
| `SemVer.ParseExample` | core_directory/models.py:98-116 | `1.2.3-rc1` parses to 1, 2, 3 with pre-release `rc1` |
| `SemVer.ParseRejects` | core_directory/models.py:206-209 | `bad` is not a version |
| `Text.Strip` | core_directory/serializers.py:125 | the result has no whitespace at either end |
| `Text.Repr` | core_directory/serializers.py:161 | `repr` of a string is its escaped text between quotes, `"` when it holds `'` and no `"`, `'` otherwise |
| `Text.ReprRoundTrip` | core_directory/serializers.py:161 | reading the escapes of `repr` back gives the ASCII text it was applied to |
| `Text.ReprQuoteExample` | core_directory/serializers.py:161 | `O'Reilly` is written between `"` without escape |
| `Text.ReprBackslashExample` | core_directory/serializers.py:161 | a backslash is doubled |
| `Text.StripOf` | core_directory/serializers.py:247-250 | stripping removes exactly the surrounding whitespace |
| `Json.LookupAssign` | core_directory/api_extras.py:43-44 | after assigning a key, that key reads the new value and every other key reads as before |
| `Json.AssignAssign` | core_directory/api_extras.py:44 | assigning the same key twice is assigning it once with the later value |
| `Json.Remove` | core_directory/serializers.py:140 | `del d[key]`: that key is gone and every other key reads as before |
| `Serializers.ValidateCoreFile` | core_directory/serializers.py:80-91 | accepted exactly with a `.core` name and at most 64 KiB; the extension is checked first; each failure has its message |
| `Serializers.ValidateSignatureFile` | core_directory/serializers.py:93-104 | accepted exactly with a `.sig` name and at most 10 KiB; the extension is checked first; each failure has its message |
| `Serializers.SizeLimits` | core_directory/serializers.py:87-90 | 65536 bytes pass and 65537 do not; a wrong extension is reported whatever the size |
| `Serializers.FirstLine` | core_directory/serializers.py:125 | `readline()`: the text up to and including the first line break |
| `Serializers.HeaderAccepted` | core_directory/serializers.py:124-130 | a first line that is `CAPI=2:` after indentation, followed by anything, passes |
| `Serializers.HeaderFirst` | core_directory/serializers.py:124-130 | a first line that starts with another non-space character is refused |
| `Serializers.HeaderNeedsColon` | core_directory/serializers.py:124-130 | a first line without a colon, such as `CAPI=2`, is refused |
| `Serializers.ErrorMessage` | core_directory/serializers.py:311-329 | the name-pattern and licence-type errors get their own messages; every other error keeps the jsonschema message |
| `Serializers.PathKeysAsWritten` | core_directory/serializers.py:327 | `'::'.join(e.path)` succeeds exactly when every path entry is a key; otherwise it fails with `str.join`'s TypeError naming the position of the first integer |
| `Serializers.FormatValidationErrorAsWritten` | core_directory/serializers.py:305-330 | the formatter as written raises exactly when the error path holds a list position, with the TypeError of the first one |
| `Serializers.FormatValidationError` | core_directory/serializers.py:305-330 | the formatter with list positions in decimal, which the schema check uses |
| `Serializers.FormatAgrees` | core_directory/serializers.py:305-330 | wherever the code as written does not raise, both formatters give the same text |
| `Serializers.IntegerPathRaises` | core_directory/serializers.py:327 | an error at `filesets/rtl/files/0` makes the code as written raise `sequence item 3: expected str instance, int found`; the corrected formatter names the path |
| `Serializers.IntegerPathJoinFails` | core_directory/serializers.py:327 | `str.join` over that path stops at the integer in position 3 |
| `Serializers.LicenseObjectMessage` | core_directory/serializers.py:320-329 | a licence given as a dict is reported as not being an SPDX identifier string |
| `Serializers.RootErrorMessage` | core_directory/serializers.py:327-330 | an error at the root names the file type and keeps jsonschema's message |
| `Serializers.SchemaRejection` | core_directory/serializers.py:284-303 | nothing for a conforming document; a validation error gives its formatted text; a broken schema gives the internal-error text |
| `Serializers.CloseAt` | core_directory/serializers.py:245 | `\)$` matches only at a final `)`, or at a `)` followed by one final line break |
| `Serializers.SkipSpace` | core_directory/serializers.py:245 | the greedy `\s*` ends at the first non-space character |
| `Serializers.FirstMatch` | core_directory/serializers.py:245 | a position found is one where the pattern matches |
| `Serializers.FirstMatchFirst` | core_directory/serializers.py:245 | the lazy `(.*?)` takes the leftmost matching `?`; no match is found exactly when none exists |
| `Serializers.ParseDependency` | core_directory/serializers.py:244-251 | a dependency without a condition is the stripped entry |
| `Serializers.ParseDependencyMatches` | core_directory/serializers.py:245-251 | a condition is found exactly when the pattern matches; the condition and the core name are both stripped |
| `Serializers.ParseDependencyLeftmost` | core_directory/serializers.py:245-248 | the groups come from the leftmost `?` at which the pattern matches |
| `Serializers.PlainDependency` | core_directory/serializers.py:249-251 | an entry without `?` is the stripped core name, without condition |
| `Serializers.ConditionalDependency` | core_directory/serializers.py:245-248 | `cond? (name)` gives the stripped condition and name |
| `Serializers.PlainDependencyExample` | core_directory/serializers.py:249-251 | `othercore` has no condition |
| `Serializers.ConditionalDependencyExample` | core_directory/serializers.py:245-248 | `sim? (conditionalcore)` is `conditionalcore` under the condition `sim` |
| `Serializers.YamlRejection` | core_directory/serializers.py:199-206 | YAML errors become validation errors not tied to a field |
| `Serializers.LoadChecked` | core_directory/serializers.py:133-138 | passes exactly when the YAML loads and conforms to the schema; a failure is the YAML error or the schema message |
| `Serializers.CoreContent` | core_directory/serializers.py:124-141 | a bad first line is refused before anything is loaded; success holds exactly when the header passed, the YAML loaded and conformed, the document is a dict holding `CAPI=2`, and `Core2Parser` accepts the rest; a conforming document that is not a dict raises TypeError, one without `CAPI=2` raises KeyError, and a `Core2Parser` refusal is a validation error carrying its message |
| `Serializers.CoreVlnv` | core_directory/serializers.py:143 | succeeds exactly when `name` is a string, with its parse |
| `Serializers.LicenseRejection` | core_directory/serializers.py:155-161 | no error exactly when the licence is falsy or a listed identifier; every refusal is keyed `spdx_license`; a refused string carries `str()` of the validator's error, which is `repr` of its one-message list; a list or dict carries the TypeError's text |
| `Serializers.LicenseQuoteMessage` | core_directory/serializers.py:155-161 | the message of a refused licence string is `repr` of the validator's message in a list: between `"` when the identifier holds `'` and no `"`, between `'` when it holds no `'` |
| `Serializers.LicenseRefRejected` | core_directory/serializers.py:155-161 | a `LicenseRef-` identifier that the list lacks is refused |
| `Serializers.SignatureVlnv` | core_directory/serializers.py:166-171 | the signature file must load and conform; then it succeeds exactly when `coresig` is a dict whose `name` is a string, with the parse of that name, and raises AttributeError otherwise |
| `Serializers.SignatureRejection` | core_directory/serializers.py:166-177 | no error exactly when there is no signature file or it was made for the same VLNV; a mismatch names both VLNVs |
| `Serializers.SanitizedComposite` | core_directory/serializers.py:180-192 | each of vendor, library and project contributes the stored sanitized name of the first row of that name (the library under that vendor, the project under both), or the sanitized text of its name when there is no such row; the version contributes its sanitized text; the four are joined by `_` |
| `Serializers.Validate` | core_directory/serializers.py:106-208 | the steps run in order and the first failure decides, with that step's error; when every check passes, the upload is accepted exactly when the name has vendor, library and name, and otherwise sanitizing the missing part raises TypeError; on success the result holds the four colon-separated name parts, which parse back to the same VLNV, the description and licence of the document, a licence that is falsy or listed, a matching signature, and the predicted sanitized name |
| `Serializers.ValidatedName` | core_directory/serializers.py:143-150 | a name with vendor, library and name prints back as itself and is its four fields joined by colons |
| `Serializers.Items` | core_directory/serializers.py:234 | `get(key, {}).items()`: defined exactly when the document is a dict whose section is missing or a dict; a missing section is empty; a dict section gives its entries |
| `Serializers.Iterate` | core_directory/serializers.py:244 | iteration over a list gives its items, over a string its characters, over a dict its keys; other values raise |
| `Serializers.DependEntries` | core_directory/serializers.py:244-245 | the `depend` entries are read exactly when they are iterable and every item is a string |
| `Serializers.ToFileset` | core_directory/serializers.py:234-251 | an entry is read exactly when its value is a dict with readable `depend`; each dependency is parsed; `files` is kept as the document value and `file_type` as its text column keeps it (`None` stays `None`, a string is kept, anything else becomes its `str()`) |
| `Serializers.ToTarget` | core_directory/serializers.py:261-273 | an entry is read exactly when its value is a dict whose listed fileset names are iterable and hashable; `parameters` is kept as the document value, and `default_tool`, `flow` and `description` as their text columns keep them (`CharText`) |
| `Serializers.FilesetEntriesSpec` | core_directory/serializers.py:234-251 | the `filesets` section is read exactly when every entry reads; there is one entry per item, in order |
| `Serializers.TargetEntriesSpec` | core_directory/serializers.py:261-273 | the `targets` section is read exactly when every entry reads; there is one entry per item, in order |
| `Serializers.FilesetRows` | core_directory/serializers.py:234-240 | one fileset row per entry, in order, belonging to the package, with the entry's name, its `files` value and its `file_type` as text (`str()` of the value, `None` kept) |
| `Serializers.DependencyRowsBounds` | core_directory/serializers.py:253-258 | every dependency row belongs to the package and to one of the filesets just made |
| `Serializers.FilesetObjsLast` | core_directory/serializers.py:233-242 | `fileset_objs` maps a name to the row of its last entry of that name, and holds no other name |
| `Serializers.Links` | core_directory/serializers.py:272-275 | a configuration is linked exactly to the listed names that are filesets of this package |
| `Serializers.CreateDependencies` | core_directory/serializers.py:244-258 | the dependency rows of one fileset are appended in the order of its `depend` list |
| `Serializers.CreateFileset` | core_directory/serializers.py:235-258 | one fileset row, then its dependency rows |
| `Serializers.CreateFilesets` | core_directory/serializers.py:233-258 | the filesets loop appends `FilesetRows` and `DependencyRows` and returns `fileset_objs`; it keeps every table invariant |
| `Serializers.CreateConfiguration` | core_directory/serializers.py:263-275 | one configuration per target entry, for the first target of its name, linked to `Links`; `parameters` is the document value and `default_tool`, `flow` and `description` are stored as text (`str()` of the value, `None` kept) |
| `Serializers.CreateTargets` | core_directory/serializers.py:260-275 | the targets loop appends one configured row per entry, in order; the existing rows and targets are kept |
| `Serializers.Instantiate` | core_directory/serializers.py:222-230 | building a package from keyword arguments succeeds exactly when every keyword names a field |
| `Serializers.CreateAsWrittenRaises` | core_directory/serializers.py:226-227 | `core_url` is no field of the package, so `create` as written raises TypeError; the file-field keywords are accepted |
| `Serializers.PublishedSigned` | core_directory/models.py:141-147 | the package `create` saves is signed exactly when `validate` was given a signature file |
| `Serializers.CreateAsWritten` | core_directory/serializers.py:210-230 | `create` as written always fails and, through the transaction, leaves every table as it was |
| `Serializers.GetOrCreateProjectOf` | core_directory/serializers.py:213-219 | the project got or created has the validated vendor, library and project names; the library belongs to that vendor; an existing vendor is reused, and an existing project of those names is the one returned |
| `Serializers.NamedProjectFound` | core_directory/serializers.py:213-219 | with unique names, the lookups by vendor name, by (vendor, library name) and by (vendor, library, project name) find exactly the rows of a project with those names |
| `Serializers.DuplicateIsTaken` | core_directory/models.py:162-164 | a `(project, version)` clash of the new package can only be with a package of the project of the validated names |
| `Serializers.CreateRows` | core_directory/serializers.py:232-275 | both loops: the filesets, dependencies and configurations that `RowsCreated` describes |
| `Serializers.SavePackage` | core_directory/serializers.py:211-230 | the package is saved exactly when its fields pass, its pre-release fits, and no package of the project with the validated names already has its version; a saved package is appended with a fresh sanitized name, under the project of the validated names; a failure leaves every table as it was |
| `Serializers.SaveUnder` | core_directory/serializers.py:220-228 | `CorePackage.objects.create` under the project found: the package is saved exactly when its fields pass, its pre-release fits and no other package of that project has its version; the saved row is the supplied values written back as text, with derived fields and a fresh sanitized name; a failure restores the vendor, library, project and package tables |
| `Serializers.Create` | core_directory/serializers.py:210-277 | succeeds exactly when the package can be saved (as for `SavePackage`) and the `filesets` and `targets` sections can be read; any failure leaves all eight tables as they were; success appends exactly one package, built from the validated data, then the rows of both loops; the registry stays valid throughout |
| `ApiExtras.DivMod60` | core_directory/api_extras.py:21 | `divmod(w, 60)`: seconds below 60, and 60·minutes + seconds = w |
| `ApiExtras.ThrottleFailure` | core_directory/api_extras.py:18-32 | the exception keeps `wait`; its detail names a waiting time exactly when `wait` is known |
| `ApiExtras.ThrottleDetail` | core_directory/api_extras.py:19-29 | minutes appear exactly from 60 seconds on, with the remaining seconds |
| `ApiExtras.ThrottleMinutesExample` | core_directory/api_extras.py:21-29 | 125 seconds reads as 2 minute(s) and 5 second(s) |
| `ApiExtras.ThrottleSecondsExample` | core_directory/api_extras.py:21-29 | 45 seconds reads as 45 second(s) |
| `ApiExtras.WithRetryAfterSpec` | core_directory/api_extras.py:43-47 | the response gets the fixed `Retry-After` header object; it keeps its other headers and every other member |
| `ApiExtras.WithRetryAfterIdempotent` | core_directory/api_extras.py:43-47 | setting the header twice is setting it once |
| `ApiExtras.UpdateOperationSpec` | core_directory/api_extras.py:41-47 | an operation without a 429 response is unchanged; with one, only that response changes, and it gets the header |
| `ApiExtras.UpdateOperationIdempotent` | core_directory/api_extras.py:41-47 | updating an operation twice is updating it once |
| `ApiExtras.UpdatePathItemIdempotent` | core_directory/api_extras.py:40-47 | updating a path item twice is updating it once |
| `ApiExtras.UpdatePathsIdempotent` | core_directory/api_extras.py:39-47 | updating all path items twice is updating them once |
| `ApiExtras.UpdateOperations` | core_directory/api_extras.py:40-47 | the inner loop's result is the path item with every operation updated, in order |
| `ApiExtras.AddRetryAfterHeaderTo429Responses` | core_directory/api_extras.py:34-48 | the two loops compute the document with every operation updated |
| `ApiExtras.AddRetryAfterAt` | core_directory/api_extras.py:39-48 | every operation keeps its path, method and position, and is updated in place |
| `ApiExtras.AddRetryAfterIdempotent` | core_directory/api_extras.py:34-48 | running the hook on its own output changes nothing |
| `ApiExtras.AddRetryAfterWithout429` | core_directory/api_extras.py:34-48 | a document without any 429 response comes back unchanged |

## Findings

| source | as written | input that shows it | evidently intended | confidence | as-written member | corrected member |
|---|---|---|---|---|---|---|
| core_directory/serializers.py:226-227 | `create` passes `core_url=` and `sig_url=` to `CorePackage.objects.create`, but the model has no such fields, so `CorePackage(**kwargs)` raises TypeError and the transaction rolls back | any validated upload | the package is created, with the uploaded files in its `core_file` and `signature_file` fields | high, not executed | `Serializers.CreateAsWritten` (with `Serializers.CreateAsWrittenRaises`) | `Serializers.Create` |
| utils/spdx.py:59 | `lic.get('seeAlso', [None])[0]` raises IndexError when a licence record has `seeAlso: []` | `{"licenseId": "X", "seeAlso": [], "reference": "https://spdx.org/licenses/X.html"}` | an empty `seeAlso` is read like a missing one, and `reference` is returned | medium, not executed | `Spdx.LicenseUrlAsWritten` (with `Spdx.EmptySeeAlsoRaises`) | `Spdx.LicenseUrl` |
| core_directory/serializers.py:327 | `'::'.join(e.path)` raises TypeError when the schema error lies inside a list, whose path holds an integer index | a core file whose `filesets: rtl: files:` list holds the number `1` (error path `filesets, rtl, files, 0`) | a validation message that names the path `filesets::rtl::files::0` | medium, not executed | `Serializers.FormatValidationErrorAsWritten` (with `Serializers.IntegerPathRaises`) | `Serializers.FormatValidationError` |

## Left out

- Reading files is not part of this model: the licence JSON, the schema files and the uploads. The outcome of each read is a parameter, and upload text arrives already decoded from UTF-8.
- The YAML loader, the two JSON schemas and FuseSoC's `Core2Parser` are libraries outside the model. Their verdicts are the parameter `Serializers.Oracles`.
- `lru_cache` is not modelled: the licence map is loaded once and passed as a value. A load that raises is not cached, so the next call reads the file again.
- `Spdx.LoadLicenseData`: a loaded record's `licenseId` is taken to be a string; a number, `true` or `null` identifier, which Python would use as a key as it is, is not modelled.
- The storage backend's `exists` in `utils/files.py` is a parameter.
- Django's `reverse()` is not part of this model. `Models.AbsoluteUrlSegments` gives the route's keyword arguments, not the URL text.
- The `__str__` methods are written out as functions (`Models.VendorText` … `Models.ConfigurationText`) without contracts of their own.
- `CoreSerializer.update` is left out: it does nothing.
- The database is modelled as one sequence per table, with the index as primary key. Concurrency, cascading deletes and key reuse after a rollback are not modelled.
- Column length limits of rows written by `objects.create` or `get_or_create` are not modelled. Those calls skip `full_clean`, and the limit only holds in some databases.
- `Sanitize.LowerChar`: lowercases ASCII letters only; `str.lower` on other Unicode letters is not modelled.
- `Text.Repr`: escapes the ASCII control characters as Python does; non-ASCII characters that Python does not count as printable, which it writes as `\x`, `\u` or `\U` escapes, are written unchanged.
- `Json.ReprOf`: the `str()` of a list or dict writes its strings with `Text.Repr`, so the same non-ASCII gap applies to a description or licence given as a list or dict.
- `Models.Registry.SaveCorePackage`: does not model the range checks the second `full_clean` applies to `version_major`, `version_minor` and `version_patch`, because they depend on the database backend (±2147483647 on PostgreSQL and MySQL); a version such as `3000000000.0.0` is saved by the model where such a backend refuses it.
- `Models.KeyLess`: compares names by code point; the database orders `Meta.ordering`'s name columns by its collation, which may be locale-aware.
- `Text.IsSpace`: covers the ASCII characters for which `str.isspace` holds; other Unicode whitespace is not modelled.
- `SemVer.Parse`: two inputs the library's regular expression accepts are refused here, namely a version ending in one line break (Python's `$` allows it) and non-ASCII decimal digits (Python's `\d` allows them).
- `ApiExtras.ThrottleFailure`: takes `wait()` as a whole number of seconds; for a fractional wait the source formats `int(wait)` but passes the wait itself to `Throttled`. The model stops at the two arguments given to `Throttled`; what the REST framework's exception does with them is not modelled.
- `ApiExtras.AddRetryAfterHeaderTo429Responses`: requires dicts wherever the hook calls dict methods. The AttributeError the source raises for other values is not modelled.
- `ApiExtras.AddRetryAfterHeaderTo429Responses`: computes the new document as a value, while the source mutates `result` in place and returns it. Aliasing between dicts shared by several operations is not modelled.
- `Serializers.Create`: reads the `filesets` and `targets` sections before the loops, where the source raises inside them. A failing read rolls back every row either way, so the final tables are the same; the model keeps no record of how far the loops got.
- `Serializers.Create`: a failure that raises is reported as `Raised`, without the exception's text. The same holds for `Rejection.Crash` in `Serializers.Validate`, which names only the exception type.
- `Serializers.Create`: stores the uploaded file under its own name. Storage's renaming of clashing names is not modelled.
- `Models.CharText`: `str()` is modelled for every value of the document model (`None`, booleans, integers, strings, lists and dicts). The YAML loader's floats, dates and timestamps are not part of the document model, so their text is not modelled.
- `Json`: documents have string keys only, and no key repeats. YAML documents with non-string or duplicate keys are not modelled.
- `DummyStorage.Storage.Save`: models `_save` only. The public `Storage.save` wrapper (name validation, `get_available_name`) is Django's and is not part of this model.
