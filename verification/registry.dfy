/**
 The standard-mapping registry (mapper/__init__.py lines 204-265): named column-mapping
 templates, and the merge that lets a column mapping reference one and override it.
 The registry is a constant value, so no merge can alter it.
 */
module Registry {
  import opened Wrappers
  import opened Values
  import opened Config

  /** A template column whose single field mapping cleans it with the named rule. */
  function Template(name: string, cleaner: string): ColumnMapping {
    ColumnMapping(Some(name), Some(name), None, None, None, Some([ToField(name).(clean := Some([cleaner]))]))
  }

  /** The registry as the embedded YAML document defines it. */
  const StandardMappings: map<string, ColumnMapping> := map[
    "surname" := Template("surname", ":name"),
    "previoussurname" := Template("previoussurname", ":name"),
    "forenames" := Template("forenames", ":name"),
    "sex" := Template("sex", ":sex"),
    "nhsnumber" := Template("nhsnumber", ":nhsnumber"),
    "postcode" := Template("postcode", ":postcode"),
    "test" := ColumnMapping(Some("standard_mapping_column_name"), None, None, None, None, None)
  ]

  /** The keys a column mapping may carry. */
  datatype Key = ColumnKey | RawtextNameKey | DoNotCaptureKey | DecodeKey | StandardMappingKey | MappingsKey

  /** Whether the key is present in the column mapping. */
  predicate Has(cm: ColumnMapping, k: Key) {
    match k
    case ColumnKey => cm.column.Some?
    case RawtextNameKey => cm.rawtextName.Some?
    case DoNotCaptureKey => cm.doNotCapture.Some?
    case DecodeKey => cm.decode.Some?
    case StandardMappingKey => cm.standardMapping.Some?
    case MappingsKey => cm.mappings.Some?
  }

  /** A key the caller gives replaces the template's. */
  function Override<T>(template: Option<T>, caller: Option<T>): Option<T> {
    if caller.Some? then caller else template
  }

  /**
   The merge loop of `standard_mapping` on a copy of `template`: every caller key replaces
   the template's, except `mappings`, whose caller list is appended to the template's.
   */
  function Merge(template: ColumnMapping, caller: ColumnMapping): (r: ColumnMapping)
    ensures forall k :: Has(r, k) <==> Has(template, k) || Has(caller, k)
    ensures caller.mappings.Some? ==> r.mappings == Some(template.mappings.GetOr([]) + caller.mappings.value)
    ensures caller.mappings.None? ==> r.mappings == template.mappings
  {
    ColumnMapping(
      Override(template.column, caller.column),
      Override(template.rawtextName, caller.rawtextName),
      Override(template.doNotCapture, caller.doNotCapture),
      Override(template.decode, caller.decode),
      Override(template.standardMapping, caller.standardMapping),
      if caller.mappings.Some? then Some(template.mappings.GetOr([]) + caller.mappings.value)
      else template.mappings)
  }

  /** Every registry entry is a non-empty mapping, so Python's `not mapping` test is a name test. */
  lemma RegistryEntriesNonEmpty()
    ensures forall name :: name in StandardMappings ==> StandardMappings[name] != NoKeys
  {
  }

  /**
   `standard_mapping`: None for a name the registry lacks, otherwise the registry's
   template with the caller's mapping merged over it, so `CallerKeysOverride` and
   `MergedMappingsOrder` describe its result.
   */
  function StandardMapping(name: string, caller: ColumnMapping): (r: Option<ColumnMapping>)
    ensures r.None? <==> name !in StandardMappings
    ensures r.Some? ==> r.value == Merge(StandardMappings[name], caller)
    ensures r.Some? ==> forall k :: Has(r.value, k) <==> Has(StandardMappings[name], k) || Has(caller, k)
  {
    RegistryEntriesNonEmpty();
    if name !in StandardMappings || StandardMappings[name] == NoKeys then None
    else Some(Merge(StandardMappings[name], caller))
  }

  /**
   Caller keys win: each key the caller gives (other than `mappings`) has the caller's
   value in the result, and each key it omits keeps the template's value.
   */
  lemma {:induction false} CallerKeysOverride(template: ColumnMapping, caller: ColumnMapping)
    ensures var r := Merge(template, caller);
            && (caller.column.Some? ==> r.column == caller.column)
            && (caller.column.None? ==> r.column == template.column)
            && (caller.rawtextName.Some? ==> r.rawtextName == caller.rawtextName)
            && (caller.rawtextName.None? ==> r.rawtextName == template.rawtextName)
            && (caller.doNotCapture.Some? ==> r.doNotCapture == caller.doNotCapture)
            && (caller.doNotCapture.None? ==> r.doNotCapture == template.doNotCapture)
            && (caller.decode.Some? ==> r.decode == caller.decode)
            && (caller.decode.None? ==> r.decode == template.decode)
            && (caller.standardMapping.Some? ==> r.standardMapping == caller.standardMapping)
            && (caller.standardMapping.None? ==> r.standardMapping == template.standardMapping)
  {
  }

  /** The merged field mappings are the template's, in order, followed by the caller's. */
  lemma MergedMappingsOrder(template: ColumnMapping, caller: ColumnMapping)
    requires caller.mappings.Some?
    ensures var ms := Merge(template, caller).mappings.value;
            var t := template.mappings.GetOr([]);
            && |ms| == |t| + |caller.mappings.value|
            && ms[..|t|] == t
            && ms[|t|..] == caller.mappings.value
  {
  }

  /** Referencing a template and giving nothing else yields the template itself, tagged by name. */
  lemma BareReferenceIsTemplate(name: string)
    requires name in StandardMappings
    ensures StandardMapping(name, NoKeys.(standardMapping := Some(name))) ==
              Some(StandardMappings[name].(standardMapping := Some(name)))
  {
  }
}
