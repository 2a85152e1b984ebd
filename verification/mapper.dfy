/**
 The line resolver `mapped_line` (mapper/__init__.py lines 125-202): it walks a row's
 cells against the column mappings, captures each decoded cell as raw text, runs every
 field mapping of the column, accumulates the surviving values per field and finally
 extracts one value per field, with the raw text assigned last.
 */
module Mapper {
  import opened Wrappers
  import opened Values
  import opened Config
  import opened Transforms
  import opened Registry
  import opened Accumulator

  /** An entry of the attribute map: a field's value, or the reserved raw-text snapshot. */
  datatype Attribute = FieldValue(value: Value) | RawText(columns: map<string, Value>)

  /**
   The state of one `mapped_line` call: the raw-text snapshot, the accumulator of each
   field, and the fields in the order they were first written (the `data` dict's order).
   */
  datatype LineState = LineState(rawtext: map<string, Value>, data: map<string, Acc>, fields: seq<string>)

  const Start := LineState(map[], map[], [])

  /** `fields` lists each accumulated field exactly once. */
  ghost predicate Valid(st: LineState) {
    && (forall f :: f in st.data <==> f in st.fields)
    && NoRepeats(st.fields)
  }

  /** No name occurs twice: each one is absent from the names before it. */
  predicate NoRepeats(names: seq<string>) {
    |names| == 0 || (names[|names| - 1] !in names[..|names| - 1] && NoRepeats(names[..|names| - 1]))
  }

  /** A list without repeats holds distinct names at distinct positions. */
  lemma {:induction false} NoRepeatsDistinct(names: seq<string>)
    requires NoRepeats(names)
    ensures forall i, j :: 0 <= i < j < |names| ==> names[i] != names[j]
  {
    if |names| > 0 {
      var init := names[..|names| - 1];
      NoRepeatsDistinct(init);
      forall i, j | 0 <= i < j < |names|
        ensures names[i] != names[j]
      {
        assert names[i] == init[i];
        if j < |names| - 1 {
          assert names[j] == init[j];
        } else {
          assert init[i] in init;
        }
      }
    }
  }

  // ------------------------------------------------------- one field mapping

  /** Whether a field mapping's value reaches the accumulator: replace and transform succeed and the value is kept. */
  ghost predicate Survives(lib: Library, raw: Value, fm: FieldMapping) {
    var replaced := ReplaceBeforeMapping(lib, raw, fm);
    && replaced.Success?
    && var value := MappedValue(lib, replaced.value, fm);
    && value.Success?
    && (!IsBlank(value.value) || JoinTruthy(fm))
  }

  /** Lines 163-180: write an accepted value into its field's accumulator, creating it if needed. */
  function Record(st: LineState, fm: FieldMapping, value: Value): (r: LineState)
    ensures r.rawtext == st.rawtext
    ensures r.data.Keys == st.data.Keys + {fm.field}
    ensures forall f :: f in st.data && f != fm.field ==> r.data[f] == st.data[f]
    ensures Valid(st) ==> Valid(r)
  {
    if fm.field in st.data then
      LineState(st.rawtext, st.data[fm.field := Contribute(st.data[fm.field], fm, value)], st.fields)
    else
      LineState(st.rawtext, st.data[fm.field := Contribute(Fresh, fm, value)], st.fields + [fm.field])
  }

  /**
   Lines 152-180 for one field mapping: replace, transform, validate, then either drop a
   blank value that has no join or record it.
   */
  function ContributeField(lib: Library, st: LineState, raw: Value, fm: FieldMapping): (r: Result<LineState, Error>)
    ensures r.Success? ==> r.value.rawtext == st.rawtext
    ensures r.Success? ==> forall f :: f in r.value.data <==> f in st.data || (f == fm.field && Survives(lib, raw, fm))
    ensures r.Success? ==> forall f :: f in st.data && f != fm.field ==> r.value.data[f] == st.data[f]
    ensures Valid(st) && r.Success? ==> Valid(r.value)
  {
    var replaced :- ReplaceBeforeMapping(lib, raw, fm);
    var value :- MappedValue(lib, replaced, fm);
    var validated :- ApplyValidations(fm, value);
    if IsBlank(value) && !JoinTruthy(fm) then Success(st)
    else Success(Record(st, fm, value))
  }

  /**
   What one field mapping does once its value is known: a presence violation aborts
   naming the field; a blank value without a join leaves the state untouched; any other
   value is written to the mapping's slot of the field's accumulator.
   */
  lemma ContributionOutcome(lib: Library, st: LineState, raw: Value, fm: FieldMapping, replaced: Value, value: Value)
    requires ReplaceBeforeMapping(lib, raw, fm) == Success(replaced)
    requires MappedValue(lib, replaced, fm) == Success(value)
    ensures fm.validatesPresence && IsBlank(value) ==>
              ContributeField(lib, st, raw, fm) == Failure(PresenceViolation(fm.field))
    ensures !fm.validatesPresence && IsBlank(value) && !JoinTruthy(fm) ==>
              ContributeField(lib, st, raw, fm) == Success(st)
    ensures !IsBlank(value) || (JoinTruthy(fm) && !fm.validatesPresence) ==>
              var r := ContributeField(lib, st, raw, fm);
              && r.Success?
              && fm.field in r.value.data
              && var before := if fm.field in st.data then st.data[fm.field] else Fresh;
              && r.value.data[fm.field].values == before.values[Slot(fm) := value]
  {
    var r := ContributeField(lib, st, raw, fm);
    if !IsBlank(value) || (JoinTruthy(fm) && !fm.validatesPresence) {
      assert ApplyValidations(fm, value).Success?;
      assert r == Success(Record(st, fm, value));
      RecordWritesSlot(st, fm, value);
    }
  }

  /** Recording writes the value to the mapping's slot of the field's accumulator. */
  lemma RecordWritesSlot(st: LineState, fm: FieldMapping, value: Value)
    ensures var before := if fm.field in st.data then st.data[fm.field] else Fresh;
            Record(st, fm, value).data[fm.field].values == before.values[Slot(fm) := value]
  {
  }

  /** The field mappings of one column, in declared order, stopping at the first error. */
  function ContributeAll(lib: Library, st: LineState, raw: Value, fms: seq<FieldMapping>): (r: Result<LineState, Error>)
    ensures r.Success? ==> r.value.rawtext == st.rawtext
    ensures r.Success? ==> forall f :: f in r.value.data <==> f in st.data || AnySurvivor(lib, raw, fms, f)
    ensures r.Success? ==> forall f :: f in st.data && !Targets(fms, f) ==> r.value.data[f] == st.data[f]
    ensures Valid(st) && r.Success? ==> Valid(r.value)
    decreases |fms|
  {
    if fms == [] then Success(st)
    else
      var next :- ContributeField(lib, st, raw, fms[0]);
      SurvivorSplit(lib, raw, fms);
      ContributeAll(lib, next, raw, fms[1..])
  }

  /** Some field mapping in the list writes to `f`. */
  ghost predicate Targets(fms: seq<FieldMapping>, f: string) {
    exists i :: 0 <= i < |fms| && fms[i].field == f
  }

  /** Some field mapping in the list writes a surviving value to `f`. */
  ghost predicate AnySurvivor(lib: Library, raw: Value, fms: seq<FieldMapping>, f: string) {
    exists i :: 0 <= i < |fms| && fms[i].field == f && Survives(lib, raw, fms[i])
  }

  lemma SurvivorSplit(lib: Library, raw: Value, fms: seq<FieldMapping>)
    requires fms != []
    ensures forall f :: AnySurvivor(lib, raw, fms, f) <==>
              (fms[0].field == f && Survives(lib, raw, fms[0])) || AnySurvivor(lib, raw, fms[1..], f)
    ensures forall f :: Targets(fms, f) <==> fms[0].field == f || Targets(fms[1..], f)
  {
    forall f | AnySurvivor(lib, raw, fms[1..], f)
      ensures AnySurvivor(lib, raw, fms, f)
    {
      var i :| 0 <= i < |fms[1..]| && fms[1..][i].field == f && Survives(lib, raw, fms[1..][i]);
      assert fms[i + 1] == fms[1..][i];
    }
    forall f | AnySurvivor(lib, raw, fms, f) && !(fms[0].field == f && Survives(lib, raw, fms[0]))
      ensures AnySurvivor(lib, raw, fms[1..], f)
    {
      var i :| 0 <= i < |fms| && fms[i].field == f && Survives(lib, raw, fms[i]);
      assert fms[1..][i - 1] == fms[i];
    }
    forall f | Targets(fms[1..], f)
      ensures Targets(fms, f)
    {
      var i :| 0 <= i < |fms[1..]| && fms[1..][i].field == f;
      assert fms[i + 1] == fms[1..][i];
    }
    forall f | Targets(fms, f) && fms[0].field != f
      ensures Targets(fms[1..], f)
    {
      var i :| 0 <= i < |fms| && fms[i].field == f;
      assert fms[1..][i - 1] == fms[i];
    }
  }

  /**
   Lines 155-156: an error raised by the replacements or by the transform ends the field
   mapping with that error, before validation looks at anything.
   */
  lemma StepFailureAbortsField(lib: Library, st: LineState, raw: Value, fm: FieldMapping)
    ensures ReplaceBeforeMapping(lib, raw, fm).Failure? ==>
              ContributeField(lib, st, raw, fm) == Failure(ReplaceBeforeMapping(lib, raw, fm).error)
    ensures ReplaceBeforeMapping(lib, raw, fm).Success? && MappedValue(lib, ReplaceBeforeMapping(lib, raw, fm).value, fm).Failure? ==>
              ContributeField(lib, st, raw, fm) == Failure(MappedValue(lib, ReplaceBeforeMapping(lib, raw, fm).value, fm).error)
  {
  }

  /** A failing field mapping aborts its column, whatever follows it. */
  lemma {:induction false} FieldFailureAbortsColumn(lib: Library, st: LineState, raw: Value, fms: seq<FieldMapping>, j: nat, e: Error)
    requires j < |fms|
    requires ContributeAll(lib, st, raw, fms[..j]).Success?
    requires ContributeField(lib, ContributeAll(lib, st, raw, fms[..j]).value, raw, fms[j]) == Failure(e)
    ensures ContributeAll(lib, st, raw, fms) == Failure(e)
    decreases j
  {
    ContributeAllStep(lib, st, raw, fms);
    var prefix := fms[..j];
    if j == 0 {
      assert prefix == [];
      assert ContributeAll(lib, st, raw, prefix) == Success(st);
    } else {
      ContributeAllStep(lib, st, raw, prefix);
      assert prefix[0] == fms[0];
      var next := ContributeField(lib, st, raw, fms[0]).value;
      assert prefix[1..] == fms[1..][..j - 1];
      assert ContributeAll(lib, next, raw, fms[1..][..j - 1]) == ContributeAll(lib, st, raw, prefix);
      FieldFailureAbortsColumn(lib, next, raw, fms[1..], j - 1, e);
    }
  }

  /** The first field mapping of a column runs first; its error ends the column. */
  lemma ContributeAllStep(lib: Library, st: LineState, raw: Value, fms: seq<FieldMapping>)
    requires fms != []
    ensures ContributeAll(lib, st, raw, fms) ==
              match ContributeField(lib, st, raw, fms[0])
              case Failure(e) => Failure(e)
              case Success(next) => ContributeAll(lib, next, raw, fms[1..])
  {
  }

  // ------------------------------------------------------------- one column

  /** Line 141 and its aftermath: a referenced template is merged in; an unknown one aborts the row. */
  function Resolve(cm: ColumnMapping): (r: Result<ColumnMapping, Error>)
    ensures cm.standardMapping.None? ==> r == Success(cm)
    ensures cm.standardMapping.Some? ==>
              (r.Failure? <==> cm.standardMapping.value !in StandardMappings)
    ensures r.Failure? ==> r.error == UnknownStandardMapping(cm.standardMapping.value)
    ensures cm.standardMapping.Some? && r.Success? ==>
              r.value == Merge(StandardMappings[cm.standardMapping.value], cm)
  {
    if cm.standardMapping.None? then Success(cm)
    else
      match StandardMapping(cm.standardMapping.value, cm)
      case None => Failure(UnknownStandardMapping(cm.standardMapping.value))
      case Some(merged) => Success(merged)
  }

  /** Lines 143-144: the lower-cased `rawtext_name`, or `column` when that is absent or empty. */
  function RawtextKey(cm: ColumnMapping): (r: Result<string, Error>)
    ensures cm.rawtextName.Some? && cm.rawtextName.value != "" ==> r == Success(Lower(cm.rawtextName.value))
    ensures (cm.rawtextName.None? || cm.rawtextName.value == "") && cm.column.Some? ==>
              r == Success(Lower(cm.column.value))
    ensures r.Failure? <==> (cm.rawtextName.None? || cm.rawtextName.value == "") && cm.column.None?
  {
    if cm.rawtextName.Some? && cm.rawtextName.value != "" then Success(Lower(cm.rawtextName.value))
    else if cm.column.Some? then Success(Lower(cm.column.value))
    else Failure(MissingColumnName)
  }

  /** A captured column: its raw-text key, its decoded value, and its field mappings. */
  datatype Prepared = Prepared(key: string, decoded: Value, mappings: seq<FieldMapping>)

  /**
   Lines 133-147: a falsy mapping aborts; a `do_not_capture` column is skipped before any
   other key is looked at; otherwise the template is merged, the key computed and the
   value decoded.
   */
  function Prepare(lib: Library, raw: Value, cm: ColumnMapping): (r: Result<Option<Prepared>, Error>)
    ensures cm == NoKeys ==> r == Failure(WrongNumberOfColumns)
    ensures cm != NoKeys && cm.doNotCapture == Some(true) ==> r == Success(None)
    ensures cm != NoKeys && cm.doNotCapture != Some(true) && r.Success? ==>
              && r.value.Some?
              && Resolve(cm).Success?
              && var resolved := Resolve(cm).value;
              && RawtextKey(resolved) == Success(r.value.value.key)
              && DecodeAll(lib, raw, resolved.decode.GetOr([])) == Success(r.value.value.decoded)
              && r.value.value.mappings == resolved.mappings.GetOr([])
  {
    if cm == NoKeys then Failure(WrongNumberOfColumns)
    else if cm.doNotCapture == Some(true) then Success(None)
    else
      var resolved :- Resolve(cm);
      var key :- RawtextKey(resolved);
      var decoded :- DecodeAll(lib, raw, resolved.decode.GetOr([]));
      Success(Some(Prepared(key, decoded, resolved.mappings.GetOr([]))))
  }

  /**
   When a captured column's preparation succeeds: exactly when the template resolves, the
   raw-text key is found and every decoding goes through; otherwise it fails with the
   error of the first of those steps that fails.
   */
  lemma PrepareOutcome(lib: Library, raw: Value, cm: ColumnMapping)
    ensures cm != NoKeys && cm.doNotCapture != Some(true) ==>
              (Prepare(lib, raw, cm).Success? <==>
                 && Resolve(cm).Success?
                 && RawtextKey(Resolve(cm).value).Success?
                 && DecodeAll(lib, raw, Resolve(cm).value.decode.GetOr([])).Success?)
    ensures cm != NoKeys && cm.doNotCapture != Some(true) && Prepare(lib, raw, cm).Failure? ==>
              Prepare(lib, raw, cm).error ==
                if Resolve(cm).Failure? then Resolve(cm).error
                else if RawtextKey(Resolve(cm).value).Failure? then RawtextKey(Resolve(cm).value).error
                else DecodeAll(lib, raw, Resolve(cm).value.decode.GetOr([])).error
  {
  }

  /** Lines 133-180 for one cell: capture the decoded value, then run the column's field mappings. */
  function ProcessColumn(lib: Library, st: LineState, raw: Value, cm: ColumnMapping): (r: Result<LineState, Error>)
    ensures Valid(st) && r.Success? ==> Valid(r.value)
    ensures r.Success? ==>
              && Prepare(lib, raw, cm).Success?
              && r.value.rawtext == match Prepare(lib, raw, cm).value
                                 case None => st.rawtext
                                 case Some(p) => st.rawtext[p.key := p.decoded]
    ensures r.Success? ==> forall f :: f in r.value.data <==> f in st.data || ColumnHasSurvivor(lib, raw, cm, f)
  {
    var prepared :- Prepare(lib, raw, cm);
    match prepared
    case None => Success(st)
    case Some(p) => ContributeAll(lib, st.(rawtext := st.rawtext[p.key := p.decoded]), p.decoded, p.mappings)
  }

  /**
   How one cell ends: a preparation error is the column's error; a column that captures
   nothing leaves the state alone; otherwise the raw text records the decoded cell and
   the column's field mappings run over it in order.
   */
  lemma ColumnOutcome(lib: Library, st: LineState, raw: Value, cm: ColumnMapping)
    ensures Prepare(lib, raw, cm).Failure? ==>
              ProcessColumn(lib, st, raw, cm) == Failure(Prepare(lib, raw, cm).error)
    ensures Prepare(lib, raw, cm) == Success(None) ==> ProcessColumn(lib, st, raw, cm) == Success(st)
    ensures Prepare(lib, raw, cm).Success? && Prepare(lib, raw, cm).value.Some? ==>
              var p := Prepare(lib, raw, cm).value.value;
              ProcessColumn(lib, st, raw, cm)
              == ContributeAll(lib, st.(rawtext := st.rawtext[p.key := p.decoded]), p.decoded, p.mappings)
  {
  }

  /** The column captures a value and one of its field mappings writes a surviving value to `f`. */
  ghost predicate ColumnHasSurvivor(lib: Library, raw: Value, cm: ColumnMapping, f: string) {
    var prepared := Prepare(lib, raw, cm);
    prepared.Success? && prepared.value.Some? &&
    AnySurvivor(lib, prepared.value.value.decoded, prepared.value.value.mappings, f)
  }

  /** A `do_not_capture` column contributes nothing: no raw text, no field, no error. */
  lemma DoNotCaptureSkipsColumn(lib: Library, st: LineState, raw: Value, cm: ColumnMapping)
    requires cm != NoKeys && cm.doNotCapture == Some(true)
    ensures ProcessColumn(lib, st, raw, cm) == Success(st)
  {
  }

  // ------------------------------------------------------------------ a row

  /** The loop of line 132 over the first `n` cells of the row. */
  function ProcessColumns(lib: Library, line: seq<Value>, mappings: seq<ColumnMapping>, n: nat): (r: Result<LineState, Error>)
    requires n <= |line|
    ensures r.Success? ==> Valid(r.value)
    ensures r.Success? ==> n <= |mappings|
  {
    if n == 0 then Success(Start)
    else
      var st :- ProcessColumns(lib, line, mappings, n - 1);
      if n - 1 >= |mappings| then Failure(MissingColumnMapping)
      else ProcessColumn(lib, st, line[n - 1], mappings[n - 1])
  }

  /** The raw text after one cell: a captured column sets its key to the decoded value. */
  function CaptureInto(lib: Library, rawtext: map<string, Value>, raw: Value, cm: ColumnMapping): map<string, Value> {
    match Prepare(lib, raw, cm)
    case Success(Some(p)) => rawtext[p.key := p.decoded]
    case _ => rawtext
  }

  /** A column that goes through updates the raw text exactly as `CaptureInto` says. */
  lemma ColumnRawtext(lib: Library, st: LineState, raw: Value, cm: ColumnMapping)
    requires ProcessColumn(lib, st, raw, cm).Success?
    ensures ProcessColumn(lib, st, raw, cm).value.rawtext == CaptureInto(lib, st.rawtext, raw, cm)
  {
  }

  /**
   The raw-text snapshot a row produces, computed from the column mappings alone: each
   captured column, in order, sets its key to its decoded value.
   */
  function Captures(lib: Library, line: seq<Value>, mappings: seq<ColumnMapping>, n: nat): map<string, Value>
    requires n <= |line|
  {
    if n == 0 then map[]
    else if n - 1 < |mappings| then CaptureInto(lib, Captures(lib, line, mappings, n - 1), line[n - 1], mappings[n - 1])
    else Captures(lib, line, mappings, n - 1)
  }

  /** Some column among the first `n` writes a surviving value to `f`. */
  ghost predicate SurvivingWriter(lib: Library, line: seq<Value>, mappings: seq<ColumnMapping>, n: nat, f: string)
    requires n <= |line|
  {
    exists i :: 0 <= i < n && i < |mappings| && ColumnHasSurvivor(lib, line[i], mappings[i], f)
  }

  /** After any prefix of the row, the field order lists each accumulated field exactly once. */
  lemma RowFieldsListedOnce(lib: Library, line: seq<Value>, mappings: seq<ColumnMapping>, n: nat)
    requires n <= |line|
    requires ProcessColumns(lib, line, mappings, n).Success?
    ensures forall f :: f in ProcessColumns(lib, line, mappings, n).value.data <==> f in ProcessColumns(lib, line, mappings, n).value.fields
    ensures var fields := ProcessColumns(lib, line, mappings, n).value.fields;
            forall i, j :: 0 <= i < j < |fields| ==> fields[i] != fields[j]
  {
    NoRepeatsDistinct(ProcessColumns(lib, line, mappings, n).value.fields);
  }

  /** Field mappings never touch the raw text: it is exactly the captured, decoded cells. */
  lemma {:induction false} RawtextIsCaptures(lib: Library, line: seq<Value>, mappings: seq<ColumnMapping>, n: nat)
    requires n <= |line|
    requires ProcessColumns(lib, line, mappings, n).Success?
    ensures ProcessColumns(lib, line, mappings, n).value.rawtext == Captures(lib, line, mappings, n)
  {
    if n > 0 {
      RawtextIsCaptures(lib, line, mappings, n - 1);
      ColumnRawtext(lib, ProcessColumns(lib, line, mappings, n - 1).value, line[n - 1], mappings[n - 1]);
    }
  }

  /** A field is accumulated exactly when some column wrote a surviving value to it. */
  lemma {:induction false} FieldPresentIffSurvivingWriter(lib: Library, line: seq<Value>, mappings: seq<ColumnMapping>, n: nat, f: string)
    requires n <= |line|
    requires ProcessColumns(lib, line, mappings, n).Success?
    ensures f in ProcessColumns(lib, line, mappings, n).value.data <==> SurvivingWriter(lib, line, mappings, n, f)
  {
    if n > 0 {
      FieldPresentIffSurvivingWriter(lib, line, mappings, n - 1, f);
      if SurvivingWriter(lib, line, mappings, n, f) && !ColumnHasSurvivor(lib, line[n - 1], mappings[n - 1], f) {
        var i :| 0 <= i < n && i < |mappings| && ColumnHasSurvivor(lib, line[i], mappings[i], f);
        assert i < n - 1;
      }
    }
  }

  /** An error in any column aborts the whole row with that error. */
  lemma {:induction false} FailureIsFinal(lib: Library, line: seq<Value>, mappings: seq<ColumnMapping>, k: nat, n: nat, e: Error)
    requires k <= n <= |line|
    requires ProcessColumns(lib, line, mappings, k) == Failure(e)
    ensures ProcessColumns(lib, line, mappings, n) == Failure(e)
    decreases n - k
  {
    if k < n {
      FailurePropagates(lib, line, mappings, k + 1, e);
      FailureIsFinal(lib, line, mappings, k + 1, n, e);
    }
  }

  /** A failed prefix makes the next prefix fail the same way. */
  lemma FailurePropagates(lib: Library, line: seq<Value>, mappings: seq<ColumnMapping>, n: nat, e: Error)
    requires 0 < n <= |line|
    requires ProcessColumns(lib, line, mappings, n - 1) == Failure(e)
    ensures ProcessColumns(lib, line, mappings, n) == Failure(e)
  {
  }

  /** A successful prefix makes the next prefix process the next cell from its state. */
  lemma SuccessContinues(lib: Library, line: seq<Value>, mappings: seq<ColumnMapping>, n: nat)
    requires 0 < n <= |line| && n <= |mappings|
    requires ProcessColumns(lib, line, mappings, n - 1).Success?
    ensures ProcessColumns(lib, line, mappings, n)
            == ProcessColumn(lib, ProcessColumns(lib, line, mappings, n - 1).value, line[n - 1], mappings[n - 1])
  {
  }

  /** Two mapping lists that agree so far and on the next column agree one cell further. */
  lemma SameStep(lib: Library, line: seq<Value>, mappings: seq<ColumnMapping>, other: seq<ColumnMapping>, n: nat)
    requires 0 < n <= |line| && n <= |mappings| && n <= |other|
    requires ProcessColumns(lib, line, mappings, n - 1) == ProcessColumns(lib, line, other, n - 1)
    requires mappings[n - 1] == other[n - 1]
    ensures ProcessColumns(lib, line, mappings, n) == ProcessColumns(lib, line, other, n)
  {
    var prior := ProcessColumns(lib, line, mappings, n - 1);
    if prior.Success? {
      SuccessContinues(lib, line, mappings, n);
      SuccessContinues(lib, line, other, n);
    } else {
      FailurePropagates(lib, line, mappings, n, prior.error);
      FailurePropagates(lib, line, other, n, prior.error);
    }
  }

  // ---------------------------------------------------- contributions to a field

  /** The accumulator of `f` in the state, or the fresh one its first contribution starts from. */
  function AccOf(st: LineState, f: string): Acc {
    if f in st.data then st.data[f] else Fresh
  }

  /** The transformed value a surviving field mapping hands to the accumulator. */
  ghost function SurvivingValue(lib: Library, raw: Value, fm: FieldMapping): Value
    requires Survives(lib, raw, fm)
  {
    MappedValue(lib, ReplaceBeforeMapping(lib, raw, fm).value, fm).value
  }

  /** What one field mapping contributes to `f`: its value if it targets `f` and survives. */
  ghost function Contributed(lib: Library, raw: Value, fm: FieldMapping, f: string): seq<Contribution> {
    if fm.field == f && Survives(lib, raw, fm) then [Contribution(fm, SurvivingValue(lib, raw, fm))] else []
  }

  /** The contributions to `f` of a column's field mappings, in declared order. */
  ghost function FieldContributions(lib: Library, raw: Value, fms: seq<FieldMapping>, f: string): seq<Contribution>
    decreases |fms|
  {
    if fms == [] then [] else Contributed(lib, raw, fms[0], f) + FieldContributions(lib, raw, fms[1..], f)
  }

  /** The contributions to `f` of one cell: none unless the column captures it. */
  ghost function ColumnContributions(lib: Library, raw: Value, cm: ColumnMapping, f: string): seq<Contribution> {
    match Prepare(lib, raw, cm)
    case Success(Some(p)) => FieldContributions(lib, p.decoded, p.mappings, f)
    case _ => []
  }

  /** The contributions to `f` of the first `n` cells: column by column, then mapping by mapping. */
  ghost function RowContributions(lib: Library, line: seq<Value>, mappings: seq<ColumnMapping>, n: nat, f: string): seq<Contribution>
    requires n <= |line|
  {
    if n == 0 then []
    else
      RowContributions(lib, line, mappings, n - 1, f) +
      (if n - 1 < |mappings| then ColumnContributions(lib, line[n - 1], mappings[n - 1], f) else [])
  }

  /** One field mapping applies its contribution to `f`, if any, and leaves `f` alone otherwise. */
  lemma FieldStepAcc(lib: Library, st: LineState, raw: Value, fm: FieldMapping, f: string)
    ensures ContributeField(lib, st, raw, fm).Success? ==>
              AccOf(ContributeField(lib, st, raw, fm).value, f) == ContributeSeq(AccOf(st, f), Contributed(lib, raw, fm, f))
  {
    var cs := Contributed(lib, raw, fm, f);
    if ContributeField(lib, st, raw, fm).Success? && cs != [] {
      assert cs[1..] == [];
      var value := SurvivingValue(lib, raw, fm);
      assert ContributeField(lib, st, raw, fm) == Success(Record(st, fm, value));
    }
  }

  /** A column's field mappings apply their contributions to `f` in declared order. */
  lemma {:induction false} ColumnFieldsAcc(lib: Library, st: LineState, raw: Value, fms: seq<FieldMapping>, f: string)
    requires ContributeAll(lib, st, raw, fms).Success?
    ensures AccOf(ContributeAll(lib, st, raw, fms).value, f) == ContributeSeq(AccOf(st, f), FieldContributions(lib, raw, fms, f))
    decreases |fms|
  {
    if fms != [] {
      var next := ContributeField(lib, st, raw, fms[0]).value;
      FieldStepAcc(lib, st, raw, fms[0], f);
      ColumnFieldsAcc(lib, next, raw, fms[1..], f);
      ContributeSeqAppend(AccOf(st, f), Contributed(lib, raw, fms[0], f), FieldContributions(lib, raw, fms[1..], f));
    }
  }

  /** One cell applies its column's contributions to `f`; capturing the raw text does not touch them. */
  lemma ColumnAcc(lib: Library, st: LineState, raw: Value, cm: ColumnMapping, f: string)
    requires ProcessColumn(lib, st, raw, cm).Success?
    ensures AccOf(ProcessColumn(lib, st, raw, cm).value, f) == ContributeSeq(AccOf(st, f), ColumnContributions(lib, raw, cm, f))
  {
    match Prepare(lib, raw, cm).value
    case None =>
    case Some(p) =>
      var captured := st.(rawtext := st.rawtext[p.key := p.decoded]);
      ColumnFieldsAcc(lib, captured, p.decoded, p.mappings, f);
      assert AccOf(captured, f) == AccOf(st, f);
  }

  /** Each field's accumulator is the row's contributions to it applied in order to a fresh one. */
  lemma {:induction false} RowAcc(lib: Library, line: seq<Value>, mappings: seq<ColumnMapping>, n: nat, f: string)
    requires n <= |line|
    requires ProcessColumns(lib, line, mappings, n).Success?
    ensures AccOf(ProcessColumns(lib, line, mappings, n).value, f) == ContributeSeq(Fresh, RowContributions(lib, line, mappings, n, f))
  {
    if n > 0 {
      var prior := ProcessColumns(lib, line, mappings, n - 1);
      assert prior.Success? && n - 1 < |mappings|;
      RowAcc(lib, line, mappings, n - 1, f);
      ColumnAcc(lib, prior.value, line[n - 1], mappings[n - 1], f);
      ContributeSeqAppend(Fresh, RowContributions(lib, line, mappings, n - 1, f),
                          ColumnContributions(lib, line[n - 1], mappings[n - 1], f));
    }
  }

  // ------------------------------------------------------------- extraction

  /** Lines 184-198: each field's final value, in the order the fields were first written. */
  function ExtractAll(st: LineState, fields: seq<string>): (r: Result<map<string, Attribute>, Error>)
    requires forall f :: f in fields ==> f in st.data
    ensures r.Success? <==> forall f :: f in fields ==> Extract(f, st.data[f]).Success?
    ensures r.Success? ==> forall f :: f in r.value <==> f in fields
    ensures r.Success? ==> forall f :: f in fields ==> r.value[f] == FieldValue(Extract(f, st.data[f]).value)
    decreases |fields|
  {
    if fields == [] then Success(map[])
    else
      HeadAndTail(fields);
      var first :- Extract(fields[0], st.data[fields[0]]);
      var rest :- ExtractAll(st, fields[1..]);
      Success(rest[fields[0] := FieldValue(first)])
  }

  /** A non-empty sequence holds its head and the elements of its tail, and nothing else. */
  lemma HeadAndTail(fields: seq<string>)
    requires fields != []
    ensures forall f :: f in fields <==> f == fields[0] || f in fields[1..]
  {
    assert fields == [fields[0]] + fields[1..];
  }

  /**
   `mapped_line`: the attribute map of a row, or the error that aborts it. Its `rawtext`
   entry is the snapshot of captured cells, assigned last so it replaces any field of
   that name; every other entry is a field some column wrote a surviving value to, and
   its value is what extraction makes of the row's contributions to that field applied
   in order to a fresh accumulator.
   */
  function MappedLine(lib: Library, line: seq<Value>, mappings: seq<ColumnMapping>): (r: Result<map<string, Attribute>, Error>)
    ensures r.Success? ==> "rawtext" in r.value && r.value["rawtext"] == RawText(Captures(lib, line, mappings, |line|))
    ensures r.Success? ==> forall f :: f != "rawtext" ==>
              (f in r.value <==> SurvivingWriter(lib, line, mappings, |line|, f))
    ensures r.Success? ==> forall f :: f in r.value && f != "rawtext" ==>
              && r.value[f].FieldValue?
              && Extract(f, ContributeSeq(Fresh, RowContributions(lib, line, mappings, |line|, f))) == Success(r.value[f].value)
  {
    var st :- ProcessColumns(lib, line, mappings, |line|);
    var attributes :- ExtractAll(st, st.fields);
    RawtextIsCaptures(lib, line, mappings, |line|);
    forall f | f != "rawtext"
      ensures f in attributes <==> SurvivingWriter(lib, line, mappings, |line|, f)
    {
      FieldPresentIffSurvivingWriter(lib, line, mappings, |line|, f);
    }
    forall f | f in attributes
      ensures Extract(f, ContributeSeq(Fresh, RowContributions(lib, line, mappings, |line|, f))) == Success(attributes[f].value)
    {
      RowAcc(lib, line, mappings, |line|, f);
    }
    Success(attributes["rawtext" := RawText(st.rawtext)])
  }

  /**
   How a row ends: an error in its columns is the row's error; otherwise an error in
   extracting a field is; otherwise the row maps to the extracted fields plus the raw
   text under `rawtext`.
   */
  lemma RowOutcome(lib: Library, line: seq<Value>, mappings: seq<ColumnMapping>)
    ensures var cols := ProcessColumns(lib, line, mappings, |line|);
            cols.Failure? ==> MappedLine(lib, line, mappings) == Failure(cols.error)
    ensures var cols := ProcessColumns(lib, line, mappings, |line|);
            cols.Success? && ExtractAll(cols.value, cols.value.fields).Failure? ==>
              MappedLine(lib, line, mappings) == Failure(ExtractAll(cols.value, cols.value.fields).error)
    ensures var cols := ProcessColumns(lib, line, mappings, |line|);
            cols.Success? && ExtractAll(cols.value, cols.value.fields).Success? ==>
              MappedLine(lib, line, mappings)
              == Success(ExtractAll(cols.value, cols.value.fields).value["rawtext" := RawText(cols.value.rawtext)])
  {
  }

  /**
   The accumulator laws for a field of a row: its separator is the first ordered
   writer's `join`, its compact flag the last one declared, each slot holds the last
   value written to it, and without a separator the field is the value in the lowest
   slot, so priority 1 beats priority 2 whatever the column order.
   */
  lemma RowFieldLaws(lib: Library, line: seq<Value>, mappings: seq<ColumnMapping>, f: string)
    ensures var cs := RowContributions(lib, line, mappings, |line|, f);
            var acc := ContributeSeq(Fresh, cs);
            && acc.join == FirstOrderedJoin(cs)
            && acc.compact == LastCompact(cs).GetOr(true)
            && (forall k :: k in acc.values <==> LastWriter(cs, k).Some?)
            && (forall k :: k in acc.values ==> acc.values[k] == LastWriter(cs, k).value)
            && (var r := MappedLine(lib, line, mappings);
                r.Success? && f in r.value && f != "rawtext" && FirstOrderedJoin(cs).None? && acc.values != map[] ==>
                  r.value[f] == FieldValue(LastWriter(cs, SetMin(acc.values.Keys)).value))
  {
    var cs := RowContributions(lib, line, mappings, |line|, f);
    JoinIsFirstOrdered(Fresh, cs);
    CompactIsLastDeclared(Fresh, cs);
    forall k
      ensures var acc := ContributeSeq(Fresh, cs);
              && (k in acc.values <==> LastWriter(cs, k).Some?)
              && (k in acc.values ==> acc.values[k] == LastWriter(cs, k).value)
    {
      SlotIsLastWriter(Fresh, cs, k);
    }
  }

  // ----------------------------------------------------------- abort rules

  /** A column that fails aborts the row with that column's error. */
  lemma ColumnFailureAbortsLine(lib: Library, line: seq<Value>, mappings: seq<ColumnMapping>, i: nat, e: Error)
    requires i < |line| && i < |mappings|
    requires ProcessColumns(lib, line, mappings, i).Success?
    requires ProcessColumn(lib, ProcessColumns(lib, line, mappings, i).value, line[i], mappings[i]) == Failure(e)
    ensures MappedLine(lib, line, mappings) == Failure(e)
  {
    FailureIsFinal(lib, line, mappings, i + 1, |line|, e);
  }

  /** A falsy column mapping reached by the loop aborts the row with "Wrong number of columns". */
  lemma FalsyMappingAbortsLine(lib: Library, line: seq<Value>, mappings: seq<ColumnMapping>, i: nat)
    requires i < |line| && i < |mappings| && mappings[i] == NoKeys
    requires ProcessColumns(lib, line, mappings, i).Success?
    ensures MappedLine(lib, line, mappings) == Failure(WrongNumberOfColumns)
  {
    ColumnFailureAbortsLine(lib, line, mappings, i, WrongNumberOfColumns);
  }

  /** A row with more cells than column mappings aborts once the loop runs past the mappings. */
  lemma LongRowAbortsLine(lib: Library, line: seq<Value>, mappings: seq<ColumnMapping>)
    requires |mappings| < |line|
    requires ProcessColumns(lib, line, mappings, |mappings|).Success?
    ensures MappedLine(lib, line, mappings) == Failure(MissingColumnMapping)
  {
    FailureIsFinal(lib, line, mappings, |mappings| + 1, |line|, MissingColumnMapping);
  }

  /** Column mappings beyond the end of the row are never consulted. */
  lemma ExtraMappingsIgnored(lib: Library, line: seq<Value>, mappings: seq<ColumnMapping>, extra: seq<ColumnMapping>)
    requires |line| <= |mappings|
    ensures MappedLine(lib, line, mappings + extra) == MappedLine(lib, line, mappings)
  {
    PrefixUnaffectedByExtra(lib, line, mappings, mappings + extra, |line|);
  }

  /** Processing the first `n` cells reads only the first `n` column mappings. */
  lemma {:induction false} PrefixUnaffectedByExtra(lib: Library, line: seq<Value>, mappings: seq<ColumnMapping>, longer: seq<ColumnMapping>, n: nat)
    requires n <= |line| && n <= |mappings| && n <= |longer|
    requires forall i :: 0 <= i < n ==> longer[i] == mappings[i]
    ensures ProcessColumns(lib, line, longer, n) == ProcessColumns(lib, line, mappings, n)
  {
    if n > 0 {
      PrefixUnaffectedByExtra(lib, line, mappings, longer, n - 1);
      assert longer[n - 1] == mappings[n - 1];
      SameStep(lib, line, longer, mappings, n);
    }
  }

  /** A reference to a template the registry lacks aborts the row, naming the template. */
  lemma UnknownTemplateAbortsLine(lib: Library, line: seq<Value>, mappings: seq<ColumnMapping>, i: nat)
    requires i < |line| && i < |mappings|
    requires mappings[i] != NoKeys && mappings[i].doNotCapture != Some(true)
    requires mappings[i].standardMapping.Some? && mappings[i].standardMapping.value !in StandardMappings
    requires ProcessColumns(lib, line, mappings, i).Success?
    ensures MappedLine(lib, line, mappings) == Failure(UnknownStandardMapping(mappings[i].standardMapping.value))
  {
    ColumnFailureAbortsLine(lib, line, mappings, i, UnknownStandardMapping(mappings[i].standardMapping.value));
  }

  /**
   A reached non-blank cell whose first decoding, after any template is merged, is not
   base64 aborts the row, naming the encoding.
   */
  lemma UnsupportedEncodingAbortsLine(lib: Library, line: seq<Value>, mappings: seq<ColumnMapping>, i: nat)
    requires i < |line| && i < |mappings|
    requires mappings[i] != NoKeys && mappings[i].doNotCapture != Some(true)
    requires Resolve(mappings[i]).Success? && RawtextKey(Resolve(mappings[i]).value).Success?
    requires var decode := Resolve(mappings[i]).value.decode;
             decode.Some? && decode.value != [] && decode.value[0] != "base64"
    requires !IsBlank(line[i])
    requires ProcessColumns(lib, line, mappings, i).Success?
    ensures MappedLine(lib, line, mappings) == Failure(UnsupportedEncoding(Resolve(mappings[i]).value.decode.value[0]))
  {
    ColumnFailureAbortsLine(lib, line, mappings, i, UnsupportedEncoding(Resolve(mappings[i]).value.decode.value[0]));
  }

  /** A blank cell is captured as it is, whatever encodings its column lists. */
  lemma BlankCellSkipsDecoding(lib: Library, raw: Value, cm: ColumnMapping)
    requires IsBlank(raw)
    requires Prepare(lib, raw, cm).Success? && Prepare(lib, raw, cm).value.Some?
    ensures Prepare(lib, raw, cm).value.value.decoded == raw
  {
  }

  /**
   A blank value for a field marked `validates: presence` aborts the row, naming the
   field, once the earlier columns and field mappings have gone through.
   */
  lemma PresenceViolationAbortsLine(lib: Library, line: seq<Value>, mappings: seq<ColumnMapping>, i: nat, j: nat, replaced: Value, value: Value)
    requires i < |line| && i < |mappings|
    requires ProcessColumns(lib, line, mappings, i).Success?
    requires Prepare(lib, line[i], mappings[i]).Success? && Prepare(lib, line[i], mappings[i]).value.Some?
    requires var p := Prepare(lib, line[i], mappings[i]).value.value;
             var st := ProcessColumns(lib, line, mappings, i).value;
             && j < |p.mappings|
             && p.mappings[j].validatesPresence
             && ContributeAll(lib, st.(rawtext := st.rawtext[p.key := p.decoded]), p.decoded, p.mappings[..j]).Success?
             && ReplaceBeforeMapping(lib, p.decoded, p.mappings[j]) == Success(replaced)
             && MappedValue(lib, replaced, p.mappings[j]) == Success(value)
             && IsBlank(value)
    ensures MappedLine(lib, line, mappings) ==
              Failure(PresenceViolation(Prepare(lib, line[i], mappings[i]).value.value.mappings[j].field))
  {
    var p := Prepare(lib, line[i], mappings[i]).value.value;
    var st := ProcessColumns(lib, line, mappings, i).value;
    var captured := st.(rawtext := st.rawtext[p.key := p.decoded]);
    var e := PresenceViolation(p.mappings[j].field);
    var before := ContributeAll(lib, captured, p.decoded, p.mappings[..j]).value;
    ContributionOutcome(lib, before, p.decoded, p.mappings[j], replaced, value);
    FieldFailureAbortsColumn(lib, captured, p.decoded, p.mappings, j, e);
    ColumnFailureAbortsLine(lib, line, mappings, i, e);
  }

  /**
   A reached field mapping whose only transform key is `daysafter` aborts the row: with
   "not implemented" once its replacements go through, and with the replacement error
   otherwise.
   */
  lemma DaysAfterAbortsLine(lib: Library, line: seq<Value>, mappings: seq<ColumnMapping>, i: nat, j: nat)
    requires i < |line| && i < |mappings|
    requires ProcessColumns(lib, line, mappings, i).Success?
    requires Prepare(lib, line[i], mappings[i]).Success? && Prepare(lib, line[i], mappings[i]).value.Some?
    requires var p := Prepare(lib, line[i], mappings[i]).value.value;
             var st := ProcessColumns(lib, line, mappings, i).value;
             && j < |p.mappings|
             && NoTransform(p.mappings[j]) && p.mappings[j].daysAfter.Some?
             && ContributeAll(lib, st.(rawtext := st.rawtext[p.key := p.decoded]), p.decoded, p.mappings[..j]).Success?
    ensures MappedLine(lib, line, mappings).Failure?
    ensures var p := Prepare(lib, line[i], mappings[i]).value.value;
            ReplaceBeforeMapping(lib, p.decoded, p.mappings[j]).Success? ==>
              MappedLine(lib, line, mappings) == Failure(DaysAfterNotImplemented)
  {
    var p := Prepare(lib, line[i], mappings[i]).value.value;
    var st := ProcessColumns(lib, line, mappings, i).value;
    var captured := st.(rawtext := st.rawtext[p.key := p.decoded]);
    var before := ContributeAll(lib, captured, p.decoded, p.mappings[..j]).value;
    var replaced := ReplaceBeforeMapping(lib, p.decoded, p.mappings[j]);
    StepFailureAbortsField(lib, before, p.decoded, p.mappings[j]);
    var e := if replaced.Failure? then replaced.error else DaysAfterNotImplemented;
    FieldFailureAbortsColumn(lib, captured, p.decoded, p.mappings, j, e);
    ColumnFailureAbortsLine(lib, line, mappings, i, e);
  }

  // ----------------------------------------------------------- equivalence

  /** Two column mappings are interchangeable when they prepare every cell identically. */
  ghost predicate SamePreparation(lib: Library, a: ColumnMapping, b: ColumnMapping) {
    forall raw :: Prepare(lib, raw, a) == Prepare(lib, raw, b)
  }

  /** Mapping lists whose columns prepare identically map every row identically. */
  lemma SamePreparationSameLine(lib: Library, line: seq<Value>, a: seq<ColumnMapping>, b: seq<ColumnMapping>)
    requires |a| == |b|
    requires forall i :: 0 <= i < |a| ==> SamePreparation(lib, a[i], b[i])
    ensures MappedLine(lib, line, a) == MappedLine(lib, line, b)
  {
    SamePreparationSameColumns(lib, line, a, b, |line|);
  }

  lemma {:induction false} SamePreparationSameColumns(lib: Library, line: seq<Value>, a: seq<ColumnMapping>, b: seq<ColumnMapping>, n: nat)
    requires n <= |line| && |a| == |b|
    requires forall i :: 0 <= i < |a| ==> SamePreparation(lib, a[i], b[i])
    ensures ProcessColumns(lib, line, a, n) == ProcessColumns(lib, line, b, n)
  {
    if n > 0 {
      SamePreparationSameColumns(lib, line, a, b, n - 1);
      var prior := ProcessColumns(lib, line, a, n - 1);
      if prior.Success? && n - 1 < |a| {
        assert SamePreparation(lib, a[n - 1], b[n - 1]);
        SameColumnOutcome(lib, prior.value, line[n - 1], a[n - 1], b[n - 1]);
        assert ProcessColumns(lib, line, a, n) == ProcessColumn(lib, prior.value, line[n - 1], a[n - 1]);
        assert ProcessColumns(lib, line, b, n) == ProcessColumn(lib, prior.value, line[n - 1], b[n - 1]);
      }
    }
  }

  /** One column: mappings that prepare the cell identically process it identically. */
  lemma SameColumnOutcome(lib: Library, st: LineState, raw: Value, a: ColumnMapping, b: ColumnMapping)
    requires Prepare(lib, raw, a) == Prepare(lib, raw, b)
    ensures ProcessColumn(lib, st, raw, a) == ProcessColumn(lib, st, raw, b)
  {
  }
}
