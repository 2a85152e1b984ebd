/**
 Whole-row behaviour on the fixtures of test_mapper.py, for every choice of the library
 routines: none of these rows reaches a regular expression, a date format or base64.
 */
module Scenarios {
  import opened Wrappers
  import opened Values
  import opened Config
  import opened Transforms
  import opened Registry
  import opened Accumulator
  import opened Mapper

  /**
   The `cross_populate_mapping` fixture: the clinician's name also fills the code at
   priority 2, and the code column writes the code unprioritised or, as a variant, at
   priority 1. The test file's `cross_populate_*_mapping` variants also put a replace or a
   map on the priority-2 mapping; this model leaves those out.
   */
  function CrossPopulate(codePriority: Option<int>): seq<ColumnMapping> {
    [ NoKeys.(column := Some("referringclinicianname"),
              mappings := Some([ToField("consultantname"), ToField("consultantcode").(priority := Some(2))])),
      NoKeys.(column := Some("referringcliniciancode"),
              mappings := Some([ToField("consultantcode").(priority := codePriority)])) ]
  }

  const BobFossil := "Bob Fossil"
  const NameMapping := ToField("consultantname")
  const CodeFromName := ToField("consultantcode").(priority := Some(2))
  const NameCaptured := map["referringclinicianname" := Str(BobFossil)]

  /** The state after the name column: the name in slot 0 of one field and slot 2 of the other. */
  const AfterName := LineState(NameCaptured,
    map["consultantname" := Acc(map[0 := Str(BobFossil)], None, true),
        "consultantcode" := Acc(map[2 := Str(BobFossil)], None, true)],
    ["consultantname", "consultantcode"])

  /** A trimmed, non-blank string passes an untransformed, unvalidated field mapping unchanged. */
  lemma KeptText(lib: Library, st: LineState, s: string, fm: FieldMapping)
    requires fm.replace.None? && NoTransform(fm) && fm.daysAfter.None? && !fm.validatesPresence
    requires s != [] && !IsSpaceChar(s[0]) && !IsSpaceChar(s[|s| - 1])
    ensures ContributeField(lib, st, Str(s), fm) == Success(Record(st, fm, Str(s)))
  {
    StripUnpadded(s);
    assert !IsBlank(Str(s));
  }

  lemma PrepareName(lib: Library, codePriority: Option<int>)
    ensures Prepare(lib, Str(BobFossil), CrossPopulate(codePriority)[0]) ==
              Success(Some(Prepared("referringclinicianname", Str(BobFossil), [NameMapping, CodeFromName])))
  {
    LowerKeepsLowercase("referringclinicianname");
  }

  /** The state after the name column's first field mapping. */
  const NameOnly := LineState(NameCaptured, map["consultantname" := Acc(map[0 := Str(BobFossil)], None, true)], ["consultantname"])

  lemma NameRecord1()
    ensures Record(LineState(NameCaptured, map[], []), NameMapping, Str(BobFossil)) == NameOnly
  {
    assert Slot(NameMapping) == 0;
    assert Contribute(Fresh, NameMapping, Str(BobFossil)) == Acc(map[0 := Str(BobFossil)], None, true);
    assert [] + ["consultantname"] == ["consultantname"];
  }

  lemma NameRecord2()
    ensures Record(NameOnly, CodeFromName, Str(BobFossil)) == AfterName
  {
    assert "consultantname" != "consultantcode" by { assert "consultantname"[10] != "consultantcode"[10]; }
    assert Slot(CodeFromName) == 2;
    assert Contribute(Fresh, CodeFromName, Str(BobFossil)) == Acc(map[2 := Str(BobFossil)], None, true);
    assert "consultantcode" !in NameOnly.data;
    assert ["consultantname"] + ["consultantcode"] == AfterName.fields;
  }

  lemma NameStep1(lib: Library)
    ensures ContributeField(lib, LineState(NameCaptured, map[], []), Str(BobFossil), NameMapping) == Success(NameOnly)
  {
    KeptText(lib, LineState(NameCaptured, map[], []), BobFossil, NameMapping);
    NameRecord1();
  }

  lemma NameStep2(lib: Library)
    ensures ContributeField(lib, NameOnly, Str(BobFossil), CodeFromName) == Success(AfterName)
  {
    KeptText(lib, NameOnly, BobFossil, CodeFromName);
    NameRecord2();
  }

  lemma NameColumn(lib: Library, codePriority: Option<int>)
    ensures ProcessColumn(lib, Start, Str(BobFossil), CrossPopulate(codePriority)[0]) == Success(AfterName)
  {
    PrepareName(lib, codePriority);
    NameStep1(lib);
    NameStep2(lib);
    var c0 := LineState(NameCaptured, map[], []);
    assert [NameMapping, CodeFromName][1..] == [CodeFromName];
    assert [CodeFromName][1..] == [];
    assert ContributeAll(lib, NameOnly, Str(BobFossil), [CodeFromName]) == Success(AfterName);
    assert Start.(rawtext := Start.rawtext["referringclinicianname" := Str(BobFossil)]) == c0;
  }

  lemma PrepareCode(lib: Library, codePriority: Option<int>)
    ensures Prepare(lib, Str(""), CrossPopulate(codePriority)[1]) ==
              Success(Some(Prepared("referringcliniciancode", Str(""), [ToField("consultantcode").(priority := codePriority)])))
  {
    LowerKeepsLowercase("referringcliniciancode");
  }

  /** The blank code maps to None and, with no separator, contributes nothing. */
  lemma BlankCodeStep(lib: Library, codePriority: Option<int>)
    ensures ContributeField(lib, CrossPopulated, Str(""), ToField("consultantcode").(priority := codePriority)) ==
              Success(CrossPopulated)
  {
    assert MappedValue(lib, Str(""), ToField("consultantcode").(priority := codePriority)) == Success(Null);
  }

  lemma BlankCodeColumn(lib: Library, codePriority: Option<int>)
    ensures ProcessColumn(lib, AfterName, Str(""), CrossPopulate(codePriority)[1]) == Success(CrossPopulated)
  {
    PrepareCode(lib, codePriority);
    var fm := ToField("consultantcode").(priority := codePriority);
    BlankCodeStep(lib, codePriority);
    assert [fm][1..] == [];
    assert ContributeAll(lib, CrossPopulated, Str(""), [fm]) == Success(CrossPopulated);
    assert AfterName.(rawtext := AfterName.rawtext["referringcliniciancode" := Str("")]) == CrossPopulated;
  }

  /** Extraction from a field with a single unjoined writer yields that writer's value. */
  lemma SingleWriterExtracts(field: string, slot: int, v: Value)
    ensures Extract(field, Acc(map[slot := v], None, true)) == Success(v)
  {
    assert map[slot := v].Keys == {slot};
  }

  const CrossPopulated := AfterName.(rawtext := NameCaptured["referringcliniciancode" := Str("")])

  lemma CrossPopulateColumns(lib: Library, codePriority: Option<int>)
    ensures ProcessColumns(lib, [Str(BobFossil), Str("")], CrossPopulate(codePriority), 2) == Success(CrossPopulated)
  {
    var line := [Str(BobFossil), Str("")];
    NameColumn(lib, codePriority);
    BlankCodeColumn(lib, codePriority);
    assert ProcessColumns(lib, line, CrossPopulate(codePriority), 1) == Success(AfterName);
  }

  /** The fields the cross-populated row extracts. */
  const CrossFields: map<string, Attribute> :=
    map["consultantcode" := FieldValue(Str(BobFossil))]["consultantname" := FieldValue(Str(BobFossil))]

  /** The attribute map the cross-populated row produces. */
  const CrossOutcome: map<string, Attribute> := CrossFields["rawtext" := RawText(CrossPopulated.rawtext)]

  lemma CrossPopulateExtracts()
    ensures ExtractAll(CrossPopulated, CrossPopulated.fields) == Success(CrossFields)
  {
    SingleWriterExtracts("consultantname", 0, Str(BobFossil));
    SingleWriterExtracts("consultantcode", 2, Str(BobFossil));
    OneFieldExtracts(CrossPopulated, "consultantcode", Str(BobFossil));
    assert CrossPopulated.fields[1..] == ["consultantcode"];
  }

  lemma CrossOutcomeEntries()
    ensures && CrossOutcome.Keys == {"consultantname", "consultantcode", "rawtext"}
            && CrossOutcome["consultantname"] == FieldValue(Str("Bob Fossil"))
            && CrossOutcome["consultantcode"] == FieldValue(Str("Bob Fossil"))
            && CrossOutcome["rawtext"] == RawText(map["referringclinicianname" := Str("Bob Fossil"),
                                                      "referringcliniciancode" := Str("")])
  {
    assert "consultantname" != "consultantcode" by { assert "consultantname"[10] != "consultantcode"[10]; }
    assert "rawtext" != "consultantname" && "rawtext" != "consultantcode";
  }

  lemma CrossPopulateRow(lib: Library, codePriority: Option<int>)
    ensures MappedLine(lib, [Str(BobFossil), Str("")], CrossPopulate(codePriority)) == Success(CrossOutcome)
  {
    CrossPopulateColumns(lib, codePriority);
    CrossPopulateExtracts();
    RowOutcome(lib, [Str(BobFossil), Str("")], CrossPopulate(codePriority));
  }

  /**
   With the code column blank, the name fills both fields: the blank code is dropped
   rather than recorded, so the priority-2 copy of the name is the only writer, even
   where the code column holds the better priority 1.
   */
  lemma CrossPopulateBlankCode(lib: Library, codePriority: Option<int>)
    requires codePriority == None || codePriority == Some(1)
    ensures var r := MappedLine(lib, [Str("Bob Fossil"), Str("")], CrossPopulate(codePriority));
            && r.Success?
            && r.value.Keys == {"consultantname", "consultantcode", "rawtext"}
            && r.value["consultantname"] == FieldValue(Str("Bob Fossil"))
            && r.value["consultantcode"] == FieldValue(Str("Bob Fossil"))
            && r.value["rawtext"] == RawText(map["referringclinicianname" := Str("Bob Fossil"),
                                                 "referringcliniciancode" := Str("")])
  {
    CrossPopulateRow(lib, codePriority);
    CrossOutcomeEntries();
  }

  // ------------------------------------------- joined_mapping_blank_start

  const Postcode := "CB3 0DS"

  /** The first address part: order 1, joined with ",", with the fixture's `compact` key. */
  function AddressLine(compact: Option<bool>): FieldMapping {
    ToField("address").(join := Some(","), order := Some(1), compact := compact)
  }

  const PostcodePart := ToField("address").(order := Some(2))

  /**
   The `joined_mapping_blank_start` fixture (`compact` absent) and its
   `_uncompacted` variant (`compact: false`).
   */
  function JoinedBlankStart(compact: Option<bool>): seq<ColumnMapping> {
    [ NoKeys.(column := Some("addressoneraw"), mappings := Some([AddressLine(compact)])),
      NoKeys.(column := Some("postcode"), mappings := Some([PostcodePart])) ]
  }

  function AfterBlankAddress(compact: Option<bool>): LineState {
    LineState(map["addressoneraw" := Str("")],
              map["address" := Acc(map[0 := Null], Some(Some(",")), compact.GetOr(true))],
              ["address"])
  }

  lemma PrepareAddress(lib: Library, compact: Option<bool>)
    ensures Prepare(lib, Str(""), JoinedBlankStart(compact)[0]) ==
              Success(Some(Prepared("addressoneraw", Str(""), [AddressLine(compact)])))
  {
    LowerKeepsLowercase("addressoneraw");
  }

  lemma BlankAddressRecorded(compact: Option<bool>)
    ensures Record(LineState(map["addressoneraw" := Str("")], map[], []), AddressLine(compact), Null) == AfterBlankAddress(compact)
  {
    var fm := AddressLine(compact);
    assert Slot(fm) == 0;
    assert Contribute(Fresh, fm, Null) == Acc(map[0 := Null], Some(Some(",")), compact.GetOr(true));
    assert [] + ["address"] == ["address"];
  }

  lemma BlankAddressStep(lib: Library, compact: Option<bool>)
    ensures ContributeField(lib, LineState(map["addressoneraw" := Str("")], map[], []), Str(""), AddressLine(compact)) ==
              Success(AfterBlankAddress(compact))
  {
    assert MappedValue(lib, Str(""), AddressLine(compact)) == Success(Null);
    BlankAddressRecorded(compact);
  }

  /** The blank first part is kept, as None, because its mapping has a separator. */
  lemma BlankAddressColumn(lib: Library, compact: Option<bool>)
    ensures ProcessColumn(lib, Start, Str(""), JoinedBlankStart(compact)[0]) == Success(AfterBlankAddress(compact))
  {
    PrepareAddress(lib, compact);
    BlankAddressStep(lib, compact);
    var c0 := LineState(map["addressoneraw" := Str("")], map[], []);
    assert [AddressLine(compact)][1..] == [];
    assert ContributeAll(lib, c0, Str(""), [AddressLine(compact)]) == Success(AfterBlankAddress(compact));
  }

  function Joined(compact: Option<bool>): LineState {
    LineState(map["addressoneraw" := Str(""), "postcode" := Str(Postcode)],
              map["address" := Acc(map[0 := Null, 1 := Str(Postcode)], Some(Some(",")), compact.GetOr(true))],
              ["address"])
  }

  lemma PreparePostcode(lib: Library, compact: Option<bool>)
    ensures Prepare(lib, Str(Postcode), JoinedBlankStart(compact)[1]) ==
              Success(Some(Prepared("postcode", Str(Postcode), [PostcodePart])))
  {
    LowerKeepsLowercase("postcode");
  }

  function PostcodeCaptured(compact: Option<bool>): LineState {
    AfterBlankAddress(compact).(rawtext := AfterBlankAddress(compact).rawtext["postcode" := Str(Postcode)])
  }

  lemma PostcodeRecorded(compact: Option<bool>)
    ensures Record(PostcodeCaptured(compact), PostcodePart, Str(Postcode)) == Joined(compact)
  {
    assert Contribute(AfterBlankAddress(compact).data["address"], PostcodePart, Str(Postcode)) == Joined(compact).data["address"];
  }

  lemma PostcodeStep(lib: Library, compact: Option<bool>)
    ensures ContributeField(lib, PostcodeCaptured(compact), Str(Postcode), PostcodePart) == Success(Joined(compact))
  {
    KeptText(lib, PostcodeCaptured(compact), Postcode, PostcodePart);
    PostcodeRecorded(compact);
  }

  /** The postcode goes to slot 1, behind the blank first part; the separator stays ",". */
  lemma PostcodeColumn(lib: Library, compact: Option<bool>)
    ensures ProcessColumn(lib, AfterBlankAddress(compact), Str(Postcode), JoinedBlankStart(compact)[1]) == Success(Joined(compact))
  {
    PreparePostcode(lib, compact);
    var before := AfterBlankAddress(compact);
    var c1 := PostcodeCaptured(compact);
    PostcodeStep(lib, compact);
    assert [PostcodePart][1..] == [];
    assert ContributeAll(lib, c1, Str(Postcode), [PostcodePart]) == Success(Joined(compact));
  }

  lemma JoinedColumns(lib: Library, compact: Option<bool>)
    ensures ProcessColumns(lib, [Str(""), Str(Postcode)], JoinedBlankStart(compact), 2) == Success(Joined(compact))
  {
    BlankAddressColumn(lib, compact);
    PostcodeColumn(lib, compact);
    assert ProcessColumns(lib, [Str(""), Str(Postcode)], JoinedBlankStart(compact), 1) == Success(AfterBlankAddress(compact));
  }

  lemma JoinedSlots(compact: Option<bool>)
    ensures SlotValues(Joined(compact).data["address"]) == [Null, Str(Postcode)]
  {
    TwoSlotsInOrder(Joined(compact).data["address"], 0, 1);
  }

  /** The address accumulator: a blank first part and the postcode, joined with ",". */
  lemma JoinedAddress(compact: Option<bool>)
    ensures Extract("address", Joined(compact).data["address"]) ==
              Success(Str(if compact == Some(false) then ",CB3 0DS" else Postcode))
  {
    var acc := Joined(compact).data["address"];
    assert acc.join == Some(Some(",")) && acc.compact == compact.GetOr(true);
    JoinReadsSlotsInOrder("address", acc, ",");
    JoinedSlots(compact);
    PostcodeJoinExample(Null);
  }

  /** Extracting a single field that extracts to `v`. */
  lemma OneFieldExtracts(st: LineState, f: string, v: Value)
    requires f in st.data && Extract(f, st.data[f]) == Success(v)
    ensures ExtractAll(st, [f]) == Success(map[f := FieldValue(v)])
  {
    assert [f][1..] == [];
    assert ExtractAll(st, []) == Success(map[]);
  }

  /**
   A blank first address part and a postcode: compacting (the default) leaves the
   postcode alone; with `compact: false` the blank part leaves a leading separator.
   */
  lemma JoinedBlankStartScenario(lib: Library, compact: Option<bool>)
    requires compact == None || compact == Some(false)
    ensures var r := MappedLine(lib, [Str(""), Str("CB3 0DS")], JoinedBlankStart(compact));
            && r.Success?
            && r.value.Keys == {"address", "rawtext"}
            && r.value["address"] == FieldValue(Str(if compact == Some(false) then ",CB3 0DS" else "CB3 0DS"))
            && r.value["rawtext"] == RawText(map["addressoneraw" := Str(""), "postcode" := Str("CB3 0DS")])
  {
    JoinedRow(lib, compact);
    JoinedOutcomeEntries(compact);
  }

  /** The attribute map the joined row produces. */
  function JoinedOutcome(compact: Option<bool>): map<string, Attribute> {
    map["address" := FieldValue(Str(if compact == Some(false) then ",CB3 0DS" else Postcode))]
       ["rawtext" := RawText(Joined(compact).rawtext)]
  }

  lemma JoinedOutcomeEntries(compact: Option<bool>)
    ensures var out := JoinedOutcome(compact);
            && out.Keys == {"address", "rawtext"}
            && out["address"] == FieldValue(Str(if compact == Some(false) then ",CB3 0DS" else "CB3 0DS"))
            && out["rawtext"] == RawText(map["addressoneraw" := Str(""), "postcode" := Str("CB3 0DS")])
  {
    assert "address" != "rawtext";
  }

  lemma JoinedRow(lib: Library, compact: Option<bool>)
    ensures MappedLine(lib, [Str(""), Str(Postcode)], JoinedBlankStart(compact)) == Success(JoinedOutcome(compact))
  {
    var st := Joined(compact);
    JoinedColumns(lib, compact);
    JoinedAddress(compact);
    var address := FieldValue(Str(if compact == Some(false) then ",CB3 0DS" else Postcode));
    OneFieldExtracts(st, "address", address.value);
    RowOutcome(lib, [Str(""), Str(Postcode)], JoinedBlankStart(compact));
  }

  // ------------------------------------------------------------ error rows

  /** The `validates_presence_mapping` fixture. */
  const ValidatesPresence: seq<ColumnMapping> := [
    NoKeys.(column := Some("column_one"), mappings := Some([ToField("field_one").(validatesPresence := true)])),
    NoKeys.(column := Some("column_two"), mappings := Some([ToField("field_two")]))
  ]

  /** A blank first cell aborts the row, naming the field that must be present, whatever follows. */
  lemma BlankRequiredFieldAbortsRow(lib: Library, blank: Value, other: Value)
    requires IsBlank(blank)
    ensures MappedLine(lib, [blank, other], ValidatesPresence) == Failure(PresenceViolation("field_one"))
  {
    var line := [blank, other];
    var fm := ToField("field_one").(validatesPresence := true);
    var p := Prepare(lib, blank, ValidatesPresence[0]);
    assert p == Success(Some(Prepared(Lower("column_one"), blank, [fm])));
    var st := ProcessColumns(lib, line, ValidatesPresence, 0).value;
    var captured := st.(rawtext := st.rawtext[Lower("column_one") := blank]);
    assert [fm][..0] == [];
    assert ContributeAll(lib, captured, blank, []) == Success(captured);
    PresenceViolationAbortsLine(lib, line, ValidatesPresence, 0, 0, blank, Null);
  }

  /** The `invalid_standard_mapping` fixture: it names a template the registry lacks. */
  const InvalidStandardMapping: seq<ColumnMapping> := [
    NoKeys.(column := Some("surname"), standardMapping := Some("surnames"))
  ]

  lemma UnknownTemplateRow(lib: Library, cell: Value)
    ensures MappedLine(lib, [cell], InvalidStandardMapping) == Failure(UnknownStandardMapping("surnames"))
  {
    UnknownTemplateAbortsLine(lib, [cell], InvalidStandardMapping, 0);
  }

  /** The `invalid_decode_mapping` fixture. */
  const InvalidDecode: seq<ColumnMapping> := [
    NoKeys.(column := Some("column_name"), decode := Some([":invalid_encoding"]))
  ]

  /** A non-blank cell in a column with an unknown encoding aborts the row; a blank one is captured as it is. */
  lemma UnknownEncodingRow(lib: Library, cell: Value)
    ensures !IsBlank(cell) ==>
              MappedLine(lib, [cell], InvalidDecode) == Failure(UnsupportedEncoding(":invalid_encoding"))
    ensures IsBlank(cell) ==>
              MappedLine(lib, [cell], InvalidDecode) == Success(map["rawtext" := RawText(map["column_name" := cell])])
  {
    if !IsBlank(cell) {
      UnsupportedEncodingAbortsLine(lib, [cell], InvalidDecode, 0);
    } else {
      LowerKeepsLowercase("column_name");
      assert Prepare(lib, cell, InvalidDecode[0]) == Success(Some(Prepared("column_name", cell, [])));
      var st := LineState(map["column_name" := cell], map[], []);
      assert ProcessColumns(lib, [cell], InvalidDecode, 1) == Success(st);
      RowOutcome(lib, [cell], InvalidDecode);
    }
  }

  /**
   The `base64_mapping` fixture spells its encodings `:base64` and `:word_doc`, and the
   mapper compares against `base64` exactly, so a non-blank cell is rejected.
   */
  const Base64Fixture: seq<ColumnMapping> := [
    NoKeys.(column := Some("base64"), decode := Some([":base64", ":word_doc"]))
  ]

  lemma ColonSpelledBase64Rejected(lib: Library, cell: Value)
    requires !IsBlank(cell)
    ensures MappedLine(lib, [cell], Base64Fixture) == Failure(UnsupportedEncoding(":base64"))
  {
    assert ":base64" != "base64";
    UnsupportedEncodingAbortsLine(lib, [cell], Base64Fixture, 0);
  }

  // ---------------------------------------------------------- skipped rows

  /** The `do_not_capture_column` fixture. */
  const DoNotCapture: seq<ColumnMapping> := [
    NoKeys.(column := Some("ignore_me"), doNotCapture := Some(true))
  ]

  /** An ignored column leaves nothing behind but an empty raw-text snapshot. */
  lemma IgnoredColumnRow(lib: Library, cell: Value)
    ensures MappedLine(lib, [cell], DoNotCapture) == Success(map["rawtext" := RawText(map[])])
  {
    DoNotCaptureSkipsColumn(lib, Start, cell, DoNotCapture[0]);
    assert ProcessColumns(lib, [cell], DoNotCapture, 1) == Success(Start);
    RowOutcome(lib, [cell], DoNotCapture);
  }

  // ------------------------------------------------------------- templates

  /** The `standard_mapping_without` fixture: four columns spelled out in full. */
  const StandardMappingWithout: seq<ColumnMapping> := [
    NoKeys.(column := Some("surname"), rawtextName := Some("surname"),
            mappings := Some([ToField("surname").(clean := Some([":name"]))])),
    NoKeys.(column := Some("forename"), rawtextName := Some("forenames"),
            mappings := Some([ToField("forenames").(clean := Some([":name"]))])),
    NoKeys.(column := Some("sex"), rawtextName := Some("sex"),
            mappings := Some([ToField("sex").(clean := Some([":sex"]))])),
    NoKeys.(column := Some("nhs_no"), rawtextName := Some("nhsnumber"),
            mappings := Some([ToField("nhsnumber").(clean := Some([":nhsnumber"]))]))
  ]

  /** The `standard_mapping_with` fixture: the same four columns by template reference. */
  const StandardMappingWith: seq<ColumnMapping> := [
    NoKeys.(standardMapping := Some("surname")),
    NoKeys.(column := Some("forename"), standardMapping := Some("forenames")),
    NoKeys.(standardMapping := Some("sex")),
    NoKeys.(column := Some("nhs_no"), standardMapping := Some("nhsnumber"))
  ]

  /** A column that resolves to a spelled-out column, up to the template tag, prepares cells as it does. */
  lemma ResolvesLike(lib: Library, tagged: ColumnMapping, plain: ColumnMapping)
    requires tagged != NoKeys && tagged.doNotCapture.None? && plain.doNotCapture.None?
    requires plain.standardMapping.None? && tagged.standardMapping.Some?
    requires Resolve(tagged) == Success(plain.(standardMapping := tagged.standardMapping))
    ensures SamePreparation(lib, tagged, plain)
  {
  }

  /** Referencing the templates maps every row exactly as spelling the columns out does. */
  lemma StandardMappingWithMatchesWithout(lib: Library, line: seq<Value>)
    ensures MappedLine(lib, line, StandardMappingWith) == MappedLine(lib, line, StandardMappingWithout)
  {
    forall i | 0 <= i < 4
      ensures SamePreparation(lib, StandardMappingWith[i], StandardMappingWithout[i])
    {
      ResolvesLike(lib, StandardMappingWith[i], StandardMappingWithout[i]);
    }
    SamePreparationSameLine(lib, line, StandardMappingWith, StandardMappingWithout);
  }

  /** The `standard_mapping_column` fixture: the caller's column name replaces the template's. */
  const StandardMappingColumn: seq<ColumnMapping> := [
    NoKeys.(column := Some("overriding_column_name"), standardMapping := Some("test"))
  ]

  lemma CallerColumnNamesRawtext(lib: Library, cell: Value)
    ensures MappedLine(lib, [cell], StandardMappingColumn) ==
              Success(map["rawtext" := RawText(map["overriding_column_name" := cell])])
  {
    LowerKeepsLowercase("overriding_column_name");
    assert Prepare(lib, cell, StandardMappingColumn[0]) == Success(Some(Prepared("overriding_column_name", cell, [])));
    var st := LineState(map["overriding_column_name" := cell], map[], []);
    assert ProcessColumns(lib, [cell], StandardMappingColumn, 1) == Success(st);
    RowOutcome(lib, [cell], StandardMappingColumn);
  }

  /** The `standard_mapping_merge` fixture: the caller's field mapping is added after the template's. */
  const StandardMappingMerge: seq<ColumnMapping> := [
    NoKeys.(column := Some("surname"), standardMapping := Some("surname"), mappings := Some([ToField("surname2")]))
  ]

  lemma MergeAppendsCallerFields(lib: Library, cell: Value)
    ensures Prepare(lib, cell, StandardMappingMerge[0]).Success?
    ensures Prepare(lib, cell, StandardMappingMerge[0]).value ==
              Some(Prepared("surname", cell, [ToField("surname").(clean := Some([":name"])), ToField("surname2")]))
  {
    LowerKeepsLowercase("surname");
    var template := [ToField("surname").(clean := Some([":name"]))];
    assert Resolve(StandardMappingMerge[0]).value.mappings == Some(template + [ToField("surname2")]);
    assert template + [ToField("surname2")] == [ToField("surname").(clean := Some([":name"])), ToField("surname2")];
  }

  // ------------------------------------------------------- single values

  /** The `map_mapping` fixture: `A` maps to `1`. */
  const MapA := ToField("value").(lookup := Some(map["A" := Str("1")]))

  /** A listed value is translated and an unlisted one passes through as it is. */
  lemma LookupFixture(lib: Library)
    ensures MappedValue(lib, Str("A"), MapA) == Success(Str("1"))
    ensures MappedValue(lib, Str("B"), MapA) == Success(Str("B"))
  {
    assert "B" !in MapA.lookup.value;
  }

  /** The `replace_mapping` fixture: one substitution, `.0` to nothing. */
  const ReplaceDotZero := ToField("value").(replace := Some(Single([Substitution(".0", "")])))

  /** A single substitution map on text is one `re.sub` call per entry; an empty cell is left alone. */
  lemma ReplaceFixture(lib: Library)
    ensures ReplaceBeforeMapping(lib, Str("2.0"), ReplaceDotZero) == Success(Str(lib.substitute(".0", "", "2.0")))
    ensures ReplaceBeforeMapping(lib, Str(""), ReplaceDotZero) == Success(Str(""))
  {
  }
}
