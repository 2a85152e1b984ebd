# Mapper model

A Dafny model of the mapping engine of `ndr_import_py`, the Python port of the
`ndr_import` mapper (`mapper/__init__.py`). The engine turns one row of raw cell values
and a list of column mappings into an attribute map:

- each cell is checked against its column mapping. A falsy mapping aborts the row. A
  `do_not_capture` column is skipped. A `standard_mapping` reference is merged with a
  template from the built-in registry.
- the cell is decoded (`decode`, base64 only) and captured under its raw-text name.
- every field mapping of the column then runs `replace`, then the single transform its
  keys select (`format` > `clean` > `map` > `match` > `daysafter` > default trim), then
  the `validates: presence` check.
- a surviving value lands in a slot of its field's accumulator: `order - 1`, else
  `priority`, else 0. The first ordered writer fixes the `join` separator. The last
  ordered writer that declares `compact` sets that flag.
- finally each field is extracted. Without a separator the lowest slot wins. With one,
  the slots are joined in ascending order, with falsy parts dropped unless compaction is
  off.
- the raw-text snapshot is assigned last, under `rawtext`.

Modules, one per file:

- `Wrappers` holds `Option` and `Result`.
- `Values` holds cell values, Python truthiness, `isblank`, `str.strip` and `str.lower`.
- `Config` holds the parsed configuration records, the row errors and the library
  interface.
- `Transforms` holds `decode_raw_value`, `replace_before_mapping` and `apply_replaces`,
  `mapped_value`, and the validations.
- `Registry` holds `STANDARD_MAPPINGS` and `standard_mapping`.
- `Accumulator` holds the per-field slots, the join and compact rules, and the
  extraction.
- `Mapper` holds `mapped_line`.
- `Scenarios` holds whole rows built from the fixtures of `test_mapper.py`.

The regular-expression, date-parsing and base64 routines are parameters: a `Library`
value of functions. Every property below holds for every choice of them.

Python exceptions become `Failure` values of `Config.Error`, and any of them aborts the
whole row. A Python `TypeError` from applying a string operation to a non-string
becomes `TypeMismatch`.

Behaviour of the code worth knowing, which the model follows:

- a row shorter than the mapping list is not an error, because the loop runs over the
  row's cells and extra mappings are never read (`Mapper.ExtraMappingsIgnored`). Only a
  longer row fails (`Mapper.LongRowAbortsLine`).
- before joining, parts are dropped by Python falsiness (`v or None`), not by
  blankness. A whitespace-only part therefore survives compaction
  (`Accumulator.WhitespacePartSurvivesCompaction`).
- `replace` is skipped for falsy values only. A whitespace-only string is still
  substituted.
- an unknown `standard_mapping` name makes `standard_mapping` return `None`, and the
  next line then fails on it. The model reports this as
  `UnknownStandardMapping(name)`.
- the code has no configuration validator, so there is no duplicate-priority check. Two
  writers to one slot simply overwrite each other, and the last write wins
  (`Accumulator.SlotIsLastWriter`).
- `clean` returns its input unchanged, because the cleaners are not implemented in the
  code.

## Model

| member | source | states |
|---|---|---|
| Values.Strip | mapper/__init__.py:105-106 | the result is empty exactly when the input is all whitespace; otherwise it neither starts nor ends with whitespace and is the input with only whitespace cut from either side |
| Values.StripUnpadded | mapper/__init__.py:105-106 | a string that neither starts nor ends with whitespace strips to itself |
| Values.StripIdempotent | mapper/__init__.py:105-106 | stripping an already stripped string changes nothing |
| Values.Truthy | mapper/__init__.py:191-194 | a value is falsy exactly when it is None, empty text, an empty list or empty bytes, as Python's `bool` decides for `v or None` and `filter(None, …)` |
| Values.IsBlank | mapper/__init__.py:23-29 | a string is blank exactly when stripping it leaves nothing; any other value is blank exactly when it is falsy |
| Values.Lower | mapper/__init__.py:143-144 | lower-casing keeps the length and maps each character on its own |
| Values.LowerKeepsLowercase | mapper/__init__.py:143-144 | a name without upper-case letters is its own raw-text key |
| Values.LowerIdempotent | mapper/__init__.py:143-144 | lower-casing twice is lower-casing once |
| Transforms.AsciiBytes | mapper/__init__.py:38-39 | text is converted to bytes exactly when every character is ASCII, code for code |
| Transforms.Base64 | mapper/__init__.py:38-39 | bytes decode exactly when the library decodes them, to what it returns; text is first converted to ASCII and is malformed when it is not ASCII; other values are a type error |
| Transforms.DecodeRawValue | mapper/__init__.py:31-41 | a blank value is returned untouched whatever the encoding; a non-blank one is base64-decoded or, for any other encoding name, rejected naming that encoding |
| Transforms.DecodeAll | mapper/__init__.py:146-147 | a blank cell passes every decode unchanged; a non-blank cell whose first encoding is not base64 is rejected; a successful non-empty decode chain yields bytes |
| Transforms.DecodeAllAppend | mapper/__init__.py:146-147 | the encodings run left to right: decoding with one more encoding is decoding with the others and then that one on their output, an earlier error ending it |
| Transforms.ApplyReplaces | mapper/__init__.py:61-71 | a list succeeds exactly when every element does, keeps its length and transforms each element on its own; text gets every substitution in order; other values pass only an empty map |
| Transforms.ApplyReplacesEach | mapper/__init__.py:65-66 | the element-wise substitution succeeds exactly when every element does, and keeps length and positions |
| Transforms.SubstituteAll | mapper/__init__.py:68-69 | the entries of a substitution map are applied in order: the last entry is substituted last, on the result of all the others; an empty map leaves the text alone |
| Transforms.SubstituteAllAppend | mapper/__init__.py:68-69 | substituting with a map in two pieces is substituting with the whole map |
| Transforms.ApplyChain | mapper/__init__.py:53-55 | a list of maps on text substitutes every entry of every map in turn; on a value that is neither text nor list it passes only when every map is empty, leaving the value alone |
| Transforms.ChainKeepsListShape | mapper/__init__.py:53-55 | a list of maps over a list value succeeds exactly when it succeeds on every element, and yields a list of the same length holding each element's own result |
| Transforms.ApplyChainAppend | mapper/__init__.py:53-55 | running a list of substitution maps in two pieces is running the whole list, an error in the first piece ending it |
| Transforms.ReplaceBeforeMapping | mapper/__init__.py:43-59 | no `replace` key or a falsy value leaves the value unchanged; a single map is applied once, a list of maps in turn |
| Transforms.ChainOfOneIsSingle | mapper/__init__.py:53-57 | a list holding one substitution map behaves as that map given alone |
| Transforms.ReplaceKeepsListShape | mapper/__init__.py:48-66 | substituting over a list value, with one map or a list of maps, returns a list of the same length whose truthy elements are each substituted as they would be alone |
| Transforms.MappedValue | mapper/__init__.py:73-108 | the transform applied is the one of the first key present in the order format, clean, map, match, daysafter, default; a date format gives None for blank input and for unparsable text; daysafter always aborts |
| Transforms.DefaultPath | mapper/__init__.py:102-108 | without transform keys the result is None exactly for blank input; a non-blank string comes back trimmed on both sides and non-empty; other values are unchanged |
| Transforms.TransformPrecedence | mapper/__init__.py:77-100 | removing every key of lower precedence than the first present one does not change the result |
| Transforms.LookupMissPassesThrough | mapper/__init__.py:91-92 | a string the `map` table does not list is returned as it is |
| Transforms.FormatNeverFailsOnText | mapper/__init__.py:77-84 | a date format never fails on text: it yields a date or None, and None for blank or unparsable text |
| Transforms.PresenceValidation | mapper/__init__.py:118-123 | the check fails exactly for blank values, naming the field |
| Transforms.ApplyValidations | mapper/__init__.py:110-116 | validation fails exactly when presence is required and the value is blank, naming the field |
| Registry.Merge | mapper/__init__.py:256-265 | the merged mapping has exactly the keys of template and caller; the caller's field mappings are appended to the template's, or the template's kept when the caller gives none |
| Registry.RegistryEntriesNonEmpty | mapper/__init__.py:204-245 | no registry entry is an empty mapping, so the `not mapping` test only catches unknown names |
| Registry.StandardMapping | mapper/__init__.py:247-265 | the result is None exactly for names the registry lacks; otherwise it is the caller's mapping merged over the registry's template, so the caller's keys win and its field mappings follow the template's |
| Registry.CallerKeysOverride | mapper/__init__.py:258-263 | every key the caller gives, other than `mappings`, replaces the template's value; every key it omits keeps the template's |
| Registry.MergedMappingsOrder | mapper/__init__.py:260-261 | the merged field mappings are the template's, in order, followed by the caller's |
| Registry.BareReferenceIsTemplate | mapper/__init__.py:247-265 | a column mapping that only names a template resolves to that template tagged with its name |
| Accumulator.Slot | mapper/__init__.py:170-180 | an ordered contribution writes slot `order - 1`; otherwise a truthy priority names the slot, and slot 0 is used when there is neither |
| Accumulator.SlotPrecedence | mapper/__init__.py:170-180 | a truthy order overrides any priority, and a zero order or priority counts as absent |
| Accumulator.Contribute | mapper/__init__.py:163-180 | a contribution writes its value to its slot and nothing else; a separator already set is kept; an unordered contribution leaves separator and compact flag alone |
| Accumulator.ContributeSeqAppend | mapper/__init__.py:151-180 | contributions applied in two batches give the accumulator they give applied in one |
| Accumulator.ContributeSeqSnoc | mapper/__init__.py:151-180 | applying contributions one more at a time is applying them all in order |
| Accumulator.JoinIsFirstOrdered | mapper/__init__.py:170-171 | a separator already recorded is never changed; otherwise it becomes the `join` of the first ordered contribution, even when that one gives none, and stays unset when none is ordered |
| Accumulator.CompactIsLastDeclared | mapper/__init__.py:167-174 | the compact flag is the last value declared by an ordered contribution, or the starting value (true for a new field) when none declared one |
| Accumulator.SlotIsLastWriter | mapper/__init__.py:176-180 | each slot holds the value of the last contribution to it; a slot nobody wrote is empty |
| Accumulator.DistinctSlotsCommute | mapper/__init__.py:176-180 | two unordered contributions to different slots give the same accumulator in either order |
| Accumulator.OrderOneSharesSlotZero | mapper/__init__.py:170-180 | `order: 1` writes slot 0, the slot of a mapping with neither order nor priority |
| Accumulator.MinExists | mapper/__init__.py:187 | every non-empty set of slots has a least element |
| Accumulator.SetMin | mapper/__init__.py:187 | the chosen slot is in the set and no slot in it is smaller |
| Accumulator.SortedKeys | mapper/__init__.py:187 | the slots are listed once each, all of them, in strictly ascending order |
| Accumulator.SortedKeysHead | mapper/__init__.py:187 | the first listed slot is the least one |
| Accumulator.SlotValues | mapper/__init__.py:186-187 | the values are read once per slot in ascending slot order |
| Accumulator.TwoSlotsInOrder | mapper/__init__.py:186-187 | of two slots the lower is read first |
| Accumulator.TruthyOnly | mapper/__init__.py:189-194 | a value is kept exactly when it is a truthy part, and nothing else is kept |
| Accumulator.TruthyOnlyAppend | mapper/__init__.py:189-194 | filtering a concatenation filters each piece and keeps their order |
| Accumulator.TruthyOnlySingle | mapper/__init__.py:189-194 | a single part is kept exactly when it is truthy |
| Accumulator.RenderPart | mapper/__init__.py:196 | `v or ''` succeeds exactly for falsy values and text; text renders as itself, a falsy non-text as empty text, and a truthy non-text is a type error |
| Accumulator.Join | mapper/__init__.py:196 | `sep.join` of no parts is empty text, of one part is that part, and of more parts starts with the first part |
| Accumulator.JoinSnoc | mapper/__init__.py:196 | joining one more part appends the separator and that part, so the parts appear in order with one separator between neighbours |
| Accumulator.Rendered | mapper/__init__.py:196 | rendering succeeds exactly when every truthy part is text; text renders as itself and falsy parts as empty text |
| Accumulator.JoinParts | mapper/__init__.py:189-196 | joining succeeds exactly when every truthy part is text, compacted or not, and then gives text; any other truthy part is a type error |
| Accumulator.Extract | mapper/__init__.py:184-198 | without a separator the value in the least slot, or None when there is none; with an unset separator from an ordered writer, an error naming the field; with a separator, a string |
| Accumulator.JoinReadsSlotsInOrder | mapper/__init__.py:186-196 | the definition of a joined field's value, unfolded: the parts are the slot values read in ascending slot order, joined by `JoinParts`; `Accumulator.CompactJoinsTruthyText` says what that join yields |
| Accumulator.CompactJoinsTruthyText | mapper/__init__.py:189-196 | with compaction the pieces joined are the texts of the truthy parts, in order, none of them empty; without it every part is a piece, falsy parts as empty text |
| Accumulator.LowerSlotWins | mapper/__init__.py:177-198 | of two unordered writers to different slots the lower slot is extracted, whichever came first |
| Accumulator.PostcodeJoinExample | mapper/__init__.py:189-196 | a falsy first part and "CB3 0DS" joined by "," give "CB3 0DS" compacted and ",CB3 0DS" uncompacted |
| Accumulator.WhitespacePartSurvivesCompaction | mapper/__init__.py:191-194 | a whitespace-only part is blank yet truthy, so compaction keeps it |
| Mapper.Record | mapper/__init__.py:163-180 | recording a value adds its field to the accumulated fields and leaves the other fields and the raw text alone |
| Mapper.ContributeField | mapper/__init__.py:151-180 | one field mapping adds its field exactly when its value survives replace, transform and the blank-without-join rule; other fields and the raw text are untouched |
| Mapper.ContributionOutcome | mapper/__init__.py:154-180 | a blank value under presence aborts naming the field; a blank value without separator changes nothing; any other value is written to its slot |
| Mapper.ContributeAll | mapper/__init__.py:151-180 | a column's field mappings add exactly the fields some mapping writes a surviving value to, and leave untargeted fields alone |
| Mapper.SurvivorSplit | mapper/__init__.py:151-180 | a field has a surviving writer in a list exactly when the first mapping writes it or one of the rest does |
| Mapper.FieldFailureAbortsColumn | mapper/__init__.py:151-158 | a field mapping that fails, after the earlier ones succeeded, aborts the column with its error |
| Mapper.Resolve | mapper/__init__.py:140-141 | a column without a template reference is used as it is; a reference fails exactly for unknown names, naming them, and otherwise yields the merge |
| Mapper.RawtextKey | mapper/__init__.py:143-144 | the key is the lower-cased `rawtext_name` when non-empty, else the lower-cased `column`; it fails exactly when neither is available |
| Mapper.Prepare | mapper/__init__.py:133-147 | a falsy mapping aborts; `do_not_capture` skips before anything else is read; otherwise the key, decoded value and field mappings come from the resolved mapping |
| Mapper.PrepareOutcome | mapper/__init__.py:137-147 | a captured column's preparation succeeds exactly when the template resolves, the raw-text key is found and every decoding succeeds; otherwise it fails with the error of the first of those steps that fails |
| Mapper.ProcessColumn | mapper/__init__.py:132-180 | a column captures its decoded value under its key and adds exactly the fields some of its mappings write surviving values to |
| Mapper.ColumnOutcome | mapper/__init__.py:133-180 | a cell ends with its preparation error, or leaves the state alone when the column captures nothing, or records the decoded cell under its key and runs the column's field mappings over it in order |
| Mapper.DoNotCaptureSkipsColumn | mapper/__init__.py:137-138 | an ignored column changes nothing and cannot fail |
| Mapper.RowFieldsListedOnce | mapper/__init__.py:163-165 | after any prefix of the row the field order lists every accumulated field, each exactly once |
| Mapper.NoRepeatsDistinct | mapper/__init__.py:163-165 | a list in which no name repeats an earlier one holds distinct names at distinct positions |
| Mapper.ProcessColumns | mapper/__init__.py:132-133 | processing succeeds only when the row is no longer than the mapping list, and keeps the field order free of repeats |
| Mapper.RawtextIsCaptures | mapper/__init__.py:149 | the raw text is exactly the decoded cells of the captured columns, later columns overwriting earlier keys |
| Mapper.FieldPresentIffSurvivingWriter | mapper/__init__.py:160-180 | a field is accumulated exactly when some column writes a surviving value to it |
| Mapper.FailureIsFinal | mapper/__init__.py:132-180 | once a column fails with an error, the row fails with that same error whatever the later columns hold |
| Mapper.FieldStepAcc | mapper/__init__.py:151-180 | one field mapping applies its contribution to a field, if it targets it and survives, and leaves every other field's accumulator alone |
| Mapper.ColumnFieldsAcc | mapper/__init__.py:151-180 | a column's field mappings apply their contributions to each field in declared order |
| Mapper.ColumnAcc | mapper/__init__.py:132-180 | one cell applies its column's contributions to each field; capturing raw text does not touch the accumulators |
| Mapper.RowAcc | mapper/__init__.py:132-180 | each field's accumulator is the row's contributions to it, column by column and mapping by mapping, applied in order to a fresh accumulator |
| Mapper.ExtractAll | mapper/__init__.py:184-198 | extraction succeeds exactly when every field extracts; it yields exactly those fields, each holding its extracted value |
| Mapper.MappedLine | mapper/__init__.py:125-202 | the result holds the raw-text snapshot under `rawtext`, assigned last; every other entry is a field value, present exactly when some column wrote a surviving value to it, and equal to what extraction makes of the row's contributions to that field applied in order |
| Mapper.RowOutcome | mapper/__init__.py:132-202 | a row fails with its columns' error, else with an extraction error, else maps to the extracted fields plus the raw text under `rawtext` |
| Mapper.RowFieldLaws | mapper/__init__.py:160-198 | in a row, a field's separator is its first ordered writer's `join`, its compact flag the last one declared, each slot holds the last value written to it, and without a separator the field is the value of its lowest slot, so priority 1 beats priority 2 whatever the column order |
| Mapper.ColumnFailureAbortsLine | mapper/__init__.py:132-180 | a failing column aborts the row with that column's error |
| Mapper.FalsyMappingAbortsLine | mapper/__init__.py:133-135 | a reached empty column mapping aborts the row as a wrong number of columns |
| Mapper.LongRowAbortsLine | mapper/__init__.py:132-133 | a row longer than the mapping list aborts |
| Mapper.ExtraMappingsIgnored | mapper/__init__.py:132-133 | mappings beyond the end of the row do not affect the result |
| Mapper.PrefixUnaffectedByExtra | mapper/__init__.py:132-133 | processing the first `n` cells reads only the first `n` column mappings, so any mapping list agreeing on them gives the same state |
| Mapper.SameStep | mapper/__init__.py:132-133 | two mapping lists that give the same state so far and hold the same next mapping give the same state one cell further |
| Mapper.UnknownTemplateAbortsLine | mapper/__init__.py:140-144 | a reached reference to an unknown template aborts the row, naming it |
| Mapper.UnsupportedEncodingAbortsLine | mapper/__init__.py:140-147 | a reached non-blank cell whose first encoding, after any template is merged, is not base64 aborts the row, naming the encoding |
| Mapper.BlankCellSkipsDecoding | mapper/__init__.py:146-149 | a blank cell is captured as it is whatever encodings its column lists |
| Mapper.PresenceViolationAbortsLine | mapper/__init__.py:156-158 | a blank value for a field requiring presence aborts the whole row, naming the field |
| Mapper.StepFailureAbortsField | mapper/__init__.py:155-156 | an error from the replacements, or from the transform after the replacements succeed, ends the field mapping with that error |
| Mapper.DaysAfterAbortsLine | mapper/__init__.py:98-100 | a reached field mapping whose transform is `daysafter` aborts the whole row, with "not implemented" once its replacements succeed |
| Mapper.SamePreparationSameLine | mapper/__init__.py:132-149 | mapping lists whose columns prepare every cell alike map every row alike |
| Mapper.SamePreparationSameColumns | mapper/__init__.py:132-149 | such lists process every prefix of the row alike |
| Scenarios.CrossPopulateBlankCode | test_mapper.py:58-67 | "Bob Fossil" with a blank code fills both consultantname and consultantcode with "Bob Fossil", whether the code column is unprioritised or at priority 1 |
| Scenarios.JoinedBlankStartScenario | test_mapper.py:205-228 | a blank first address part and "CB3 0DS" give "CB3 0DS" by default and ",CB3 0DS" with `compact: false`, both cells captured |
| Scenarios.BlankRequiredFieldAbortsRow | test_mapper.py:288-297 | a blank cell in the presence-validated column aborts the row naming field_one |
| Scenarios.UnknownTemplateRow | test_mapper.py:200-203 | the `surnames` reference aborts every row, naming it |
| Scenarios.UnknownEncodingRow | test_mapper.py:270-274 | an unknown encoding aborts a non-blank row and leaves a blank cell captured as it is |
| Scenarios.ColonSpelledBase64Rejected | test_mapper.py:263-268 | the fixture's `:base64` spelling is not `base64`, so a non-blank cell is rejected |
| Scenarios.IgnoredColumnRow | test_mapper.py:258-261 | an ignored column yields only an empty raw-text snapshot |
| Scenarios.StandardMappingWithMatchesWithout | test_mapper.py:144-174 | the four columns referenced by template map every row exactly as the spelled-out columns do |
| Scenarios.CallerColumnNamesRawtext | test_mapper.py:183-186 | the caller's `column` replaces the template's and names the raw-text entry |
| Scenarios.MergeAppendsCallerFields | test_mapper.py:176-181 | the caller's field mapping follows the template's |
| Scenarios.LookupFixture | test_mapper.py:301-305 | `A` maps to `1` and the unlisted `B` passes through |
| Scenarios.ReplaceFixture | test_mapper.py:317-321 | a one-entry substitution map on "2.0" is one substitution call, and an empty cell is left alone |

## Left out

- The value cleaners (`:name`, `:sex`, `:nhsnumber`, `:postcode`, code lists, upper-casing) are not implemented in the code: `clean` returns its input. The model does the same.
- The configuration validator (duplicate priorities, template names checked up front) does not exist in the code, so it is not modelled.
- `main.py`, YAML parsing, the `__main__` demo loop and the Python 2 guard are outside the engine.
- Regular expressions, `datetime.strptime` and `base64.b64decode` are library routines. They are `Library` parameters, so no property depends on how they behave. Invalid patterns, a `match` pattern without a group 1 and their exceptions are not modelled.
- `daysafter` raises "not implemented" in the code. The model reports `DaysAfterNotImplemented` and does no date arithmetic.
- `str.lower` is modelled on ASCII letters only. Other Unicode case mappings are not modelled.
- Keys given with a null value (`decode: ~`, `mappings: ~`) are not modelled: a key is either absent or holds a value of the expected shape.
- Key errors the code would raise are not modelled: `validates` without `presence`, or a field mapping without `field`. Configuration values of the wrong type (a non-string `map` key, a non-integer `order`) are also not modelled.
- Values are text, lists, bytes, dates or None. Numbers from YAML and objects with a `length` attribute (the third clause of `isblank`) are not modelled.
- Dict iteration order for substitution maps is the sequence order of `SubstitutionMap`.
- Accumulator.Extract: for a field with a separator its own contract promises only that a successful result is text. The joined contents are stated by `Accumulator.JoinReadsSlotsInOrder` together with `Accumulator.JoinParts` and `Accumulator.CompactJoinsTruthyText`.
