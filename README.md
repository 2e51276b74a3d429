# EdgeLake service-definition updater, modelled in Dafny

The script `edgelake/update_service_deployment.py` produces the Open Horizon service
definition of an EdgeLake node. It works in three steps:

- **Template.** The module starts from a built-in service definition, `BASE_POLICY`. That document has an empty `requiredServices` list and a catalogue of 23 user inputs.
- **Load or default.** If `service.definition.json` exists and parses, its contents replace the template wholesale and `IS_BASE` becomes false. Any failure leaves the template in force.
- **Merge.** `main()` splits the `--required-services` argument on commas. For each name it scans the existing `requiredServices` entries, and when the scan says the name is absent it appends a dependency record (`url`, `org` `myorg`, `versionRange` `[0.0.0,INFINITY)`, `arch` `$ARCH`). The document is then written back.

The scan reassigns `is_service` for every entry, so it ends holding only the comparison with the **last** entry. The model reproduces that rule exactly. A name is skipped iff the list is non-empty and its current last entry has that `url`. Consecutive repeats of a name therefore collapse to one record, while a name matching only an earlier entry is appended again. Running the merge a second time is not a no-op. Under the merge's design intent, a name already present anywhere should be skipped and the merge should be idempotent. Where that intent and the code disagree, the model follows the code. The whole-list rule is modelled beside it, with its proofs (see Findings).

Loaded documents can have any shape, so a document is a generic JSON value (`JsonValue.Json`). The exceptions the merge raises on a document of the wrong shape are modelled as values (`Merge.Error`):

- `TypeError` when the document is not a dict, when `requiredServices` is truthy but not a list, or when an entry is not a dict.
- `KeyError` when `requiredServices` or an entry's `url` is missing.
- `AttributeError` when `requiredServices` is falsy but not a list, so `.append` fails.

The comma split always yields at least one name, so these errors can only come from the first name's pass, before anything is appended.

Files:

- `wrappers.dfy`: `Option` and `Result`.
- `json_value.dfy`: JSON values, Python truthiness, and `==` against a string.
- `split.dfy`: Python's `str.split(sep)` for a one-character separator, with its inverse `Join`.
- `template.dfy`: `BASE_POLICY` as a constant.
- `load.dfy`: the module-level choice between file and template.
- `merge.dfy`: the merge as a specification on values, its properties, and the whole-list rule.
- `service_definition.dfy`: the globals `BASE_POLICY` and `IS_BASE` as the class `Script`. Its methods are the two nested loops of `main()`, proved against `Merge.MergePolicy`.
- `scenarios.dfy`: whole runs, from load to merge, on three concrete inputs.

## Model

| member | source | states |
|---|---|---|
| Split.SplitOn | edgelake/update_service_deployment.py:225 | the split yields at least one piece, even for the empty argument |
| Split.SplitPiecesHaveNoSeparator | edgelake/update_service_deployment.py:225 | no piece of the split contains a comma |
| Split.SplitCount | edgelake/update_service_deployment.py:225 | the number of pieces is the number of commas plus one |
| Split.JoinSplit | edgelake/update_service_deployment.py:225 | joining the pieces with commas gives back the argument |
| Split.SplitJoin | edgelake/update_service_deployment.py:225 | splitting a comma-join of comma-free pieces gives back those pieces |
| Split.SplitNoSeparator | edgelake/update_service_deployment.py:225 | an argument without a comma is one name |
| Split.SplitPrefix | edgelake/update_service_deployment.py:225 | a comma-free prefix followed by a comma is split off as the first name |
| Split.SplitEmpty | edgelake/update_service_deployment.py:225 | the empty argument yields exactly one empty name |
| Template.UserInputSpec.ToJson | edgelake/update_service_deployment.py:29-172 | each catalogue entry is a dict with exactly the keys `name`, `label`, `type`, `defaultValue` |
| Template.UserInputsJson | edgelake/update_service_deployment.py:28-174 | the `userInput` list has one dict per catalogue entry, in catalogue order, each with exactly the keys `name`, `label`, `type`, `defaultValue` holding that entry's strings; names distinct in the catalogue are distinct in the list |
| Template.UserInputsTyped | edgelake/update_service_deployment.py:28-174 | the catalogue has 23 entries, each of type `string`, `int` or `bool` |
| Template.UserInputNamesDistinct | edgelake/update_service_deployment.py:28-174 | no two catalogue entries share a name |
| Template.BasePolicyShape | edgelake/update_service_deployment.py:17-190 | the constant `Template.BasePolicy` is the template of lines 17-190; the lemma states that the template is a dict whose `requiredServices` is an empty list and whose `userInput` holds 23 dicts with distinct string names and known types |
| Load.LoadOrDefault | edgelake/update_service_deployment.py:193-201 | `IS_BASE` is false iff the file exists and parses; then the document is exactly the parsed one, and otherwise exactly the template |
| Load.NeverHybrid | edgelake/update_service_deployment.py:194-201 | the working document is either the template or the parsed file, never a mixture |
| Load.FallbackIsTemplate | edgelake/update_service_deployment.py:194-199 | a missing or unreadable file leaves the template and `IS_BASE` true |
| JsonValue.Truthy | edgelake/update_service_deployment.py:227 | Python truthiness: exactly `None`, `False`, `0`, `""`, `[]` and `{}` are falsy |
| JsonValue.EqualsStr | edgelake/update_service_deployment.py:229 | `value == name` holds exactly when the value is the string `name`, never for a number, list, dict or `None` |
| Merge.EntryError | edgelake/update_service_deployment.py:229 | `service['url']` for one entry: `TypeError` on a non-dict, `KeyError` without `url`; no contract of its own, its cases are stated by `Merge.EntriesError` and `Merge.MergePolicyCases` |
| Merge.EntriesError | edgelake/update_service_deployment.py:228-229 | the scan raises nothing iff every entry is a dict with a `url`, and otherwise raises the exception of the first entry that does not |
| Merge.NewDependency | edgelake/update_service_deployment.py:231-236 | the appended record is a dict whose `url` is the new name |
| Merge.Dependencies | edgelake/update_service_deployment.py:231-236 | the records for a list of names, one per name in order |
| Merge.ServicesOf | edgelake/update_service_deployment.py:227-231 | the first pass succeeds iff the document is a dict whose `requiredServices` is a list of dicts that all have `url`; on success it yields that list |
| Merge.WithServices | edgelake/update_service_deployment.py:231 | the document with its `requiredServices` set to the given list; it has the same keys plus `requiredServices`, and every other key keeps its value |
| Merge.Step | edgelake/update_service_deployment.py:226-236 | one pass of the outer loop as written; no contract of its own, its rule is stated by `Merge.StepSkipsIffLastMatches` and `Merge.StepTwice` |
| Merge.MergeServices | edgelake/update_service_deployment.py:225-236 | all passes over the split names in order; no contract of its own, its properties are `Merge.MergeServicesSnoc`, `Merge.MergeServicesAppend`, `Merge.MergeAppendOnly`, `Merge.MergeAppendsInOrder`, `Merge.MergeCoversNames` and `Merge.ConsecutiveDuplicatesCollapse` |
| Merge.MergePolicy | edgelake/update_service_deployment.py:224-236 | the effect of lines 224-236 on the document; no contract of its own, it is stated by `Merge.MergePolicyWithoutArgument`, `Merge.MergePolicyWithArgument` and `Merge.MergePolicyCases`, and the loops of `ServiceDefinition.Script.MergeRequiredServices` are proved to compute it |
| Merge.StepSkipsIffLastMatches | edgelake/update_service_deployment.py:226-236 | a pass leaves the list unchanged iff its last entry's `url` is the name, and otherwise appends exactly the new record |
| Merge.StepTwice | edgelake/update_service_deployment.py:226-236 | after a pass the last entry carries the name, so an immediate repeat is skipped |
| Merge.ConsecutiveDuplicatesCollapse | edgelake/update_service_deployment.py:225-236 | a name given twice in a row, anywhere in the argument, has the same effect as given once |
| Merge.MergeServicesSnoc | edgelake/update_service_deployment.py:225-236 | merging one more name is one more pass over the result so far |
| Merge.MergeServicesAppend | edgelake/update_service_deployment.py:225-236 | merging `a + b` is merging `a` and then merging `b` into the result |
| Merge.MergeAppendOnly | edgelake/update_service_deployment.py:225-236 | the old list is a prefix of the result, which grows by at most one record per name |
| Merge.MergeAppendsInOrder | edgelake/update_service_deployment.py:225-236 | the result is the old list followed by the new records of a subsequence of the names, in argument order |
| Merge.MergeCoversNames | edgelake/update_service_deployment.py:225-236 | afterwards every requested name has an entry with that `url` |
| Merge.MergeKeepsEntriesScannable | edgelake/update_service_deployment.py:228-236 | records appended by the merge keep every entry a dict with a `url` |
| Merge.MergePolicyWithoutArgument | edgelake/update_service_deployment.py:224 | without the argument the document is left exactly as loaded, whatever its shape |
| Merge.MergePolicyWithArgument | edgelake/update_service_deployment.py:224-236 | with the argument the merge succeeds iff the first pass does, raises that pass's exception otherwise, and on success changes only `requiredServices`, keeping the old entries as a prefix and adding at most commas+1 records |
| Merge.MergePolicyCases | edgelake/update_service_deployment.py:224-231 | the exception raised for each wrong shape of the document, and the merged document otherwise |
| Merge.MergeNotIdempotent | edgelake/update_service_deployment.py:226-230 | merging `a,b` into the list produced by merging `a,b` yields records `a,b,a,b` |
| Merge.NonAdjacentDuplicateReappended | edgelake/update_service_deployment.py:226-230 | `a,b,a` into an empty list appends three records, `a` twice |
| Merge.AsWrittenDiffersFromMembership | edgelake/update_service_deployment.py:228-230 | with entries `a,b`, the name `a` is appended again as written but skipped by the whole-list rule |
| Merge.StepAgreement | edgelake/update_service_deployment.py:228-230 | the two rules agree when the name is on the last entry or on no entry |
| Merge.MergeIntended | edgelake/update_service_deployment.py:226-236 | the merge with a whole-list membership test, the corrected rule; no contract of its own, its properties are `Merge.StepAgreement`, `Merge.MergeIntendedCovers`, `Merge.MergeIntendedSkipsPresent`, `Merge.MergeIntendedIdempotent` and `Merge.MergeIntendedKeepsUnique` |
| Merge.MergePolicyIntended | edgelake/update_service_deployment.py:224-236 | the corrected merge on the document, raising what the merge as written raises; no contract of its own, it is stated by `Merge.MergePolicyIntendedIdempotent` |
| Merge.MergeIntendedCovers | edgelake/update_service_deployment.py:226-236 | under the whole-list rule every requested name has an entry afterwards |
| Merge.MergeIntendedSkipsPresent | edgelake/update_service_deployment.py:226-236 | under the whole-list rule names already present are all skipped |
| Merge.MergeIntendedIdempotent | edgelake/update_service_deployment.py:226-236 | under the whole-list rule a second merge of the same names changes nothing |
| Merge.MergeIntendedKeepsUnique | edgelake/update_service_deployment.py:226-236 | under the whole-list rule a list without repeated `url`s stays without them |
| Merge.MergeIntendedKeepsEntriesScannable | edgelake/update_service_deployment.py:231-236 | under the whole-list rule appended records keep every entry a dict with a `url` |
| Merge.MergePolicyIntendedIdempotent | edgelake/update_service_deployment.py:224-236 | on the document, a second run of the corrected merge with the same argument changes nothing |
| Merge.EntriesErrorOfPrefix | edgelake/update_service_deployment.py:228-229 | once an entry raises, the scan of the whole list raises the same exception |
| Merge.WithServicesUnchanged | edgelake/update_service_deployment.py:230 | skipping a name leaves the document as it was |
| Merge.WithServicesTwice | edgelake/update_service_deployment.py:231 | successive appends to `requiredServices` leave only the last list in the document |
| ServiceDefinition.Script.Init | edgelake/update_service_deployment.py:15-201 | the globals after module load are those `Load.LoadOrDefault` gives for the file |
| ServiceDefinition.Script.MergeRequiredServices | edgelake/update_service_deployment.py:224-236 | the loop over the names leaves `BASE_POLICY` as `Merge.MergePolicy` says, or raises its exception with the document untouched |
| ServiceDefinition.Script.AddService | edgelake/update_service_deployment.py:226-236 | one pass raises exactly what `Merge.ServicesOf` reports, and otherwise performs one skip-or-append step |
| ServiceDefinition.ScanForUrl | edgelake/update_service_deployment.py:228-229 | the inner loop raises the first entry's exception, and otherwise ends with whether the last entry's `url` is the name |
| ServiceDefinition.ServicesOfMerged | edgelake/update_service_deployment.py:227-231 | after an append, the next pass sees the list just written |
| ServiceDefinition.StepKeepsEntriesScannable | edgelake/update_service_deployment.py:231-236 | an appended record keeps the list scannable |
| Scenarios.Run | edgelake/update_service_deployment.py:193-236 | without the argument a run leaves the loaded or template document |
| Scenarios.SplitTwo | edgelake/update_service_deployment.py:225 | `a,b` with comma-free `a` and `b` splits into those two names |
| Scenarios.NoDependenciesTwoNames | edgelake/update_service_deployment.py:224-236 | two different names into an empty `requiredServices` append exactly their two records, in order |
| Scenarios.ExistingFirstName | edgelake/update_service_deployment.py:224-236 | a first name matching the only entry is skipped and a second different name is appended after it |
| Scenarios.FreshTemplateTwoNames | edgelake/update_service_deployment.py:17-236 | with no file, `service-a,service-b` gives the template with exactly those two records |
| Scenarios.ExistingDependencyKept | edgelake/update_service_deployment.py:193-236 | with a file whose only dependency is `service-a`, `service-a,service-c` keeps that entry unchanged and appends one `service-c` record |
| Scenarios.FreshTemplateNoArgument | edgelake/update_service_deployment.py:17-224 | with no file and no argument, the document is the template, whose `requiredServices` is empty |

## Left out

- The file system: the resolution of `ROOT_DIR` and `FILE_PATH` (lines 11-12), `os.path.isfile`, and `open`. The file is an input value, `Load.FileState`.
- JSON parsing and serialisation. `json.load` (line 197) is a foreign library, so its outcome is part of `Load.FileState`. The final `json.dump` (lines 238-239) is not modelled: indentation, `ensure_ascii`, and the on-disk round-trip of a written document are unmodelled effects.
- The bare `except` (line 198) catches every exception, including interrupts. The model has one outcome for every failure: the template, with `IS_BASE` true.
- Load.LoadOrDefault: an exception raised after the assignment at line 197 leaves `BASE_POLICY` as the parsed document while `IS_BASE` stays true. Examples are a failure when the `with` block closes the file, or an interrupt just after the assignment. The model does not represent that mixed outcome, because it needs failures inside the runtime.
- `argparse` (lines 220-222). Only the resulting `Option<string>` is modelled.
- The Python 2 `FileNotFoundError` shim (lines 6-9) is an environment quirk.
- `IGNORE_LIST` (line 13) is never used.
- `IS_BASE` is set but never read after line 201. The docstring's claim about versions (line 213) has no counterpart in the code.
- The docstring of `main()` (lines 204-217) describes a conversion the code does not perform.
- Placeholder tokens such as `$ARCH` and `$SERVICE_NAME` are substituted later by the consuming tool. Here they are literal strings.
- The key order of dicts is not modelled, since objects are `map`s. Numbers are integers, because only their truthiness matters to the merge.
- Strings are Dafny strings, which hold Unicode scalar values. A Python `str` from `json.load` can also hold lone surrogates, from escapes such as `\ud800`, and those are not representable.
- ServiceDefinition.Script.MergeRequiredServices: the source appends to the list object in place, while the model reassigns the document with the longer list. No other reference to that list exists, so nothing is observably lost. When an exception escapes `main()`, the file is not written; the model returns the exception instead.
- ServiceDefinition.Script.AddService: the source looks up `BASE_POLICY['requiredServices']` up to three times per pass (lines 227, 228 and 231). The model reads it once, since nothing changes the document between the lookups.

## Findings

| source | as written | input that shows it | evidently intended | confidence | as-written member | corrected member |
|---|---|---|---|---|---|---|
| edgelake/update_service_deployment.py:228-229 | `is_service` is reassigned for every existing entry, so only the last entry's `url` decides whether a name is skipped | `requiredServices` with `url`s `a`, `b` and `--required-services a`: a second `a` record is appended; merging `a,b` twice gives `a,b,a,b` | a name already present on any entry is skipped, so `is_service` stays true once an entry matches; the scan still reads every entry's `url`, so it raises as before; this makes the merge idempotent | not executed | Merge.AsWrittenDiffersFromMembership | Merge.MergePolicyIntendedIdempotent |
