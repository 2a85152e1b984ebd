/**
 Value-level transforms of the mapper (mapper/__init__.py lines 31-123): decoding a raw
 cell, running substitution maps over it, applying the one transform a field mapping
 selects, and the presence validation.
 */
module Transforms {
  import opened Wrappers
  import opened Values
  import opened Config

  // ---------------------------------------------------------------- decoding

  /** `str.encode('ascii')`: the character codes, or `None` when a character is not ASCII. */
  function AsciiBytes(s: string): (r: Option<seq<byte>>)
    ensures r.Some? <==> forall i :: 0 <= i < |s| ==> s[i] as int < 128
    ensures r.Some? ==> |r.value| == |s| && forall i :: 0 <= i < |s| ==> r.value[i] as int == s[i] as int
  {
    if forall i :: 0 <= i < |s| ==> s[i] as int < 128 then
      Some(seq(|s|, i requires 0 <= i < |s| && s[i] as int < 128 => s[i] as int as byte))
    else
      None
  }

  /**
   `base64.b64decode` on text or bytes: it succeeds exactly when the library decodes the
   bytes (text first converted to ASCII), and yields what the library returns; text that
   is not ASCII or bytes the library rejects are malformed; other values are a type error.
   */
  function Base64(lib: Library, v: Value): (r: Result<Value, Error>)
    ensures v.Bytes? ==> (r.Success? <==> lib.base64Decode(v.data).Some?)
    ensures v.Bytes? && r.Success? ==> r.value == Bytes(lib.base64Decode(v.data).value)
    ensures v.Str? ==> (r.Success? <==> AsciiBytes(v.s).Some? && lib.base64Decode(AsciiBytes(v.s).value).Some?)
    ensures v.Str? && r.Success? ==> r.value == Bytes(lib.base64Decode(AsciiBytes(v.s).value).value)
    ensures (v.Str? || v.Bytes?) && r.Failure? ==> r.error == MalformedBase64
    ensures !v.Str? && !v.Bytes? ==> r == Failure(TypeMismatch)
  {
    match v
    case Str(s) =>
      (match AsciiBytes(s)
       case None => Failure(MalformedBase64)
       case Some(bs) =>
         (match lib.base64Decode(bs)
          case None => Failure(MalformedBase64)
          case Some(out) => Success(Bytes(out))))
    case Bytes(bs) =>
      (match lib.base64Decode(bs)
       case None => Failure(MalformedBase64)
       case Some(out) => Success(Bytes(out)))
    case _ => Failure(TypeMismatch)
  }

  /** `decode_raw_value`: blank values are left alone; only base64 is supported. */
  function DecodeRawValue(lib: Library, v: Value, encoding: string): (r: Result<Value, Error>)
    ensures IsBlank(v) ==> r == Success(v)
    ensures !IsBlank(v) && encoding != "base64" ==> r == Failure(UnsupportedEncoding(encoding))
    ensures !IsBlank(v) && encoding == "base64" ==> r == Base64(lib, v)
  {
    if IsBlank(v) then Success(v)
    else if encoding == "base64" then Base64(lib, v)
    else Failure(UnsupportedEncoding(encoding))
  }

  /** The `decode` loop: every encoding, left to right, each on the previous one's output. */
  function DecodeAll(lib: Library, v: Value, encodings: seq<string>): (r: Result<Value, Error>)
    ensures IsBlank(v) ==> r == Success(v)
    ensures !IsBlank(v) && encodings != [] && r.Success? ==> r.value.Bytes?
    ensures !IsBlank(v) && encodings != [] && encodings[0] != "base64" ==>
              r == Failure(UnsupportedEncoding(encodings[0]))
    decreases |encodings|
  {
    if encodings == [] then Success(v)
    else
      var once :- DecodeRawValue(lib, v, encodings[0]);
      DecodeAll(lib, once, encodings[1..])
  }

  /** Decoding with one more encoding is decoding with the others, then with that one. */
  lemma {:induction false} DecodeAllAppend(lib: Library, v: Value, encodings: seq<string>, e: string)
    ensures DecodeAll(lib, v, encodings + [e]) ==
              match DecodeAll(lib, v, encodings)
              case Success(mid) => DecodeRawValue(lib, mid, e)
              case Failure(err) => Failure(err)
    decreases |encodings|
  {
    if encodings == [] {
      assert encodings + [e] == [e];
      assert [e][1..] == [];
      match DecodeRawValue(lib, v, e)
      case Success(once) => assert DecodeAll(lib, once, []) == Success(once);
      case Failure(_) =>
    } else {
      assert (encodings + [e])[0] == encodings[0];
      assert (encodings + [e])[1..] == encodings[1..] + [e];
      match DecodeRawValue(lib, v, encodings[0])
      case Success(once) => DecodeAllAppend(lib, once, encodings[1..], e);
      case Failure(_) =>
    }
  }

  // ------------------------------------------------------------ substitution

  /**
   Each `re.sub` of a substitution map, in order, on a string: the last entry is
   substituted last, on the result of all the entries before it.
   */
  function SubstituteAll(lib: Library, s: string, subs: SubstitutionMap): (r: string)
    ensures subs == [] ==> r == s
    ensures subs != [] ==>
              var last := subs[|subs| - 1];
              r == lib.substitute(last.pattern, last.replacement, SubstituteAll(lib, s, subs[..|subs| - 1]))
    decreases |subs|
  {
    if subs == [] then s
    else
      var once := lib.substitute(subs[0].pattern, subs[0].replacement, s);
      assert |subs| > 1 ==> subs[..|subs| - 1][1..] == subs[1..][..|subs| - 2];
      assert subs[..|subs| - 1] != [] ==> subs[..|subs| - 1][0] == subs[0];
      assert |subs| == 1 ==> subs[1..] == [] && subs[..0] == [];
      SubstituteAll(lib, once, subs[1..])
  }

  /** Running a substitution map in two pieces is running it whole. */
  lemma {:induction false} SubstituteAllAppend(lib: Library, s: string, first: SubstitutionMap, second: SubstitutionMap)
    ensures SubstituteAll(lib, s, first + second) == SubstituteAll(lib, SubstituteAll(lib, s, first), second)
    decreases |first|
  {
    if first == [] {
      assert first + second == second;
    } else {
      assert (first + second)[0] == first[0];
      assert (first + second)[1..] == first[1..] + second;
      SubstituteAllAppend(lib, lib.substitute(first[0].pattern, first[0].replacement, s), first[1..], second);
    }
  }

  /** The entries of a list of substitution maps, one map after another. */
  function Flatten(maps: seq<SubstitutionMap>): SubstitutionMap
    decreases |maps|
  {
    if maps == [] then [] else maps[0] + Flatten(maps[1..])
  }

  /**
   `apply_replaces`: a list is transformed element by element, keeping its length; a
   string gets every substitution; anything else is a type error unless the map is empty.
   */
  function ApplyReplaces(lib: Library, v: Value, subs: SubstitutionMap): (r: Result<Value, Error>)
    ensures v.List? ==>
              (r.Success? <==> forall i :: 0 <= i < |v.items| ==> ApplyReplaces(lib, v.items[i], subs).Success?)
    ensures v.List? && r.Success? ==>
              && r.value.List?
              && |r.value.items| == |v.items|
              && forall i :: 0 <= i < |v.items| ==> ApplyReplaces(lib, v.items[i], subs) == Success(r.value.items[i])
    ensures v.Str? ==> r == Success(Str(SubstituteAll(lib, v.s, subs)))
    ensures !v.List? && !v.Str? ==> r == if subs == [] then Success(v) else Failure(TypeMismatch)
    decreases v
  {
    match v
    case List(items) =>
      var out :- ApplyReplacesEach(lib, items, subs);
      Success(List(out))
    case Str(s) => Success(Str(SubstituteAll(lib, s, subs)))
    case _ => if subs == [] then Success(v) else Failure(TypeMismatch)
  }

  /** `apply_replaces` mapped over the elements of a list, stopping at the first error. */
  function ApplyReplacesEach(lib: Library, items: seq<Value>, subs: SubstitutionMap): (r: Result<seq<Value>, Error>)
    ensures r.Success? <==> forall i :: 0 <= i < |items| ==> ApplyReplaces(lib, items[i], subs).Success?
    ensures r.Success? ==>
              && |r.value| == |items|
              && forall i :: 0 <= i < |items| ==> ApplyReplaces(lib, items[i], subs) == Success(r.value[i])
    decreases items
  {
    if items == [] then Success([])
    else
      var first :- ApplyReplaces(lib, items[0], subs);
      var rest :- ApplyReplacesEach(lib, items[1..], subs);
      Success([first] + rest)
  }

  /**
   A list of substitution maps, applied one after another: on text it is every entry of
   every map in turn; any other non-list value passes only when every map is empty.
   */
  function ApplyChain(lib: Library, v: Value, maps: seq<SubstitutionMap>): (r: Result<Value, Error>)
    ensures v.Str? ==> r == Success(Str(SubstituteAll(lib, v.s, Flatten(maps))))
    ensures !v.List? && !v.Str? ==> (r.Success? <==> forall i :: 0 <= i < |maps| ==> maps[i] == [])
    ensures !v.List? && !v.Str? && r.Success? ==> r.value == v
    decreases |maps|
  {
    if maps == [] then Success(v)
    else
      var once :- ApplyReplaces(lib, v, maps[0]);
      if v.Str? then
        SubstituteAllAppend(lib, v.s, maps[0], Flatten(maps[1..]));
        ApplyChain(lib, once, maps[1..])
      else
        assert forall i :: 1 <= i < |maps| ==> maps[i] == maps[1..][i - 1];
        ApplyChain(lib, once, maps[1..])
  }

  /**
   A chain of maps over a list succeeds exactly when it succeeds on every element, and
   yields a list of the same length holding each element's own result.
   */
  lemma {:induction false} ChainKeepsListShape(lib: Library, items: seq<Value>, maps: seq<SubstitutionMap>)
    ensures var r := ApplyChain(lib, List(items), maps);
            && (r.Success? <==> forall i :: 0 <= i < |items| ==> ApplyChain(lib, items[i], maps).Success?)
            && (r.Success? ==>
                  && r.value.List? && |r.value.items| == |items|
                  && forall i :: 0 <= i < |items| ==> ApplyChain(lib, items[i], maps) == Success(r.value.items[i]))
    decreases |maps|
  {
    if maps != [] {
      var step := ApplyReplaces(lib, List(items), maps[0]);
      if step.Success? {
        var mid := step.value.items;
        ChainKeepsListShape(lib, mid, maps[1..]);
        forall i | 0 <= i < |items|
          ensures ApplyChain(lib, items[i], maps) == ApplyChain(lib, mid[i], maps[1..])
        {
          assert ApplyReplaces(lib, items[i], maps[0]) == Success(mid[i]);
        }
      } else {
        var i :| 0 <= i < |items| && ApplyReplaces(lib, items[i], maps[0]).Failure?;
        assert ApplyChain(lib, items[i], maps).Failure?;
      }
    }
  }

  /** Running a chain of maps in two pieces is running the whole chain. */
  lemma {:induction false} ApplyChainAppend(lib: Library, v: Value, first: seq<SubstitutionMap>, second: seq<SubstitutionMap>)
    ensures ApplyChain(lib, v, first + second) ==
              match ApplyChain(lib, v, first)
              case Success(mid) => ApplyChain(lib, mid, second)
              case Failure(e) => Failure(e)
    decreases |first|
  {
    if first != [] {
      assert (first + second)[0] == first[0];
      assert (first + second)[1..] == first[1..] + second;
      match ApplyReplaces(lib, v, first[0])
      case Success(once) => ApplyChainAppend(lib, once, first[1..], second);
      case Failure(_) =>
    } else {
      assert first + second == second;
    }
  }

  /**
   `replace_before_mapping`: no `replace` key or a falsy value leaves the value alone;
   the guard is falsiness, so a whitespace-only string is still substituted.
   */
  function ReplaceBeforeMapping(lib: Library, v: Value, fm: FieldMapping): (r: Result<Value, Error>)
    ensures fm.replace.None? || !Truthy(v) ==> r == Success(v)
    ensures Truthy(v) && fm.replace.Some? && fm.replace.value.Single? ==>
              r == ApplyReplaces(lib, v, fm.replace.value.subs)
    ensures Truthy(v) && fm.replace.Some? && fm.replace.value.Chain? ==>
              r == ApplyChain(lib, v, fm.replace.value.maps)
  {
    if fm.replace.None? || !Truthy(v) then Success(v)
    else
      match fm.replace.value
      case Single(subs) => ApplyReplaces(lib, v, subs)
      case Chain(maps) => ApplyChain(lib, v, maps)
  }

  /** A chain holding one map behaves as that map given alone. */
  lemma ChainOfOneIsSingle(lib: Library, v: Value, fm: FieldMapping, subs: SubstitutionMap)
    requires fm.replace == Some(Chain([subs]))
    ensures ReplaceBeforeMapping(lib, v, fm) == ReplaceBeforeMapping(lib, v, fm.(replace := Some(Single(subs))))
  {
    if Truthy(v) {
      assert [subs][1..] == [];
      match ApplyReplaces(lib, v, subs)
      case Success(once) => assert ApplyChain(lib, once, []) == Success(once);
      case Failure(_) =>
    }
  }

  /**
   Substitution preserves the shape of a list value, whether `replace` holds one map or
   a list of maps: same length, and each truthy element substituted as it would be alone.
   */
  lemma ReplaceKeepsListShape(lib: Library, items: seq<Value>, fm: FieldMapping)
    requires items != [] && fm.replace.Some?
    requires ReplaceBeforeMapping(lib, List(items), fm).Success?
    ensures var out := ReplaceBeforeMapping(lib, List(items), fm).value;
            && out.List? && |out.items| == |items|
            && forall i :: 0 <= i < |items| ==>
                 ReplaceBeforeMapping(lib, items[i], fm) == Success(out.items[i]) || !Truthy(items[i])
  {
    var out := ReplaceBeforeMapping(lib, List(items), fm).value;
    match fm.replace.value
    case Single(subs) =>
      forall i | 0 <= i < |items| && Truthy(items[i])
        ensures ReplaceBeforeMapping(lib, items[i], fm) == Success(out.items[i])
      {
        assert ApplyReplaces(lib, items[i], subs) == Success(out.items[i]);
      }
    case Chain(maps) =>
      ChainKeepsListShape(lib, items, maps);
  }

  // --------------------------------------------------------------- transforms

  /**
   `mapped_value`: exactly one transform applies, chosen by the first key present in the
   order format, clean, map, match, daysafter; without any of them the default trims
   strings and turns blank values into None.
   */
  function MappedValue(lib: Library, v: Value, fm: FieldMapping): (r: Result<Value, Error>)
    ensures fm.format.Some? ==>
              r == if IsBlank(v) then Success(Null)
                   else if v.Str? then Success(ParsedDate(lib.parseDate(v.s, fm.format.value)))
                   else Failure(TypeMismatch)
    ensures fm.format.None? && fm.clean.Some? ==> r == Success(v)
    ensures fm.format.None? && fm.clean.None? && fm.lookup.Some? ==>
              r == if v.List? then Failure(TypeMismatch)
                   else if v.Str? && v.s in fm.lookup.value then Success(fm.lookup.value[v.s])
                   else Success(v)
    ensures fm.format.None? && fm.clean.None? && fm.lookup.None? && fm.matchPattern.Some? ==>
              r == if v.Str? then Success(Captured(lib.firstGroup(fm.matchPattern.value, v.s)))
                   else Failure(TypeMismatch)
    ensures NoTransform(fm) && fm.daysAfter.Some? ==> r == Failure(DaysAfterNotImplemented)
    ensures NoTransform(fm) && fm.daysAfter.None? ==> r.Success?
  {
    if fm.format.Some? then
      if IsBlank(v) then Success(Null)
      else if v.Str? then Success(ParsedDate(lib.parseDate(v.s, fm.format.value)))
      else Failure(TypeMismatch)
    else if fm.clean.Some? then
      Success(v)
    else if fm.lookup.Some? then
      if v.List? then Failure(TypeMismatch)
      else if v.Str? && v.s in fm.lookup.value then Success(fm.lookup.value[v.s])
      else Success(v)
    else if fm.matchPattern.Some? then
      if v.Str? then Success(Captured(lib.firstGroup(fm.matchPattern.value, v.s)))
      else Failure(TypeMismatch)
    else if fm.daysAfter.Some? then
      Failure(DaysAfterNotImplemented)
    else if IsBlank(v) then
      Success(Null)
    else if v.Str? then
      Success(Str(Strip(v.s)))
    else
      Success(v)
  }

  /** None of the keys format, clean, map and match is present. */
  predicate NoTransform(fm: FieldMapping) {
    fm.format.None? && fm.clean.None? && fm.lookup.None? && fm.matchPattern.None?
  }

  function ParsedDate(d: Option<DateTime>): Value {
    match d
    case Some(t) => Date(t)
    case None => Null
  }

  function Captured(g: Option<string>): Value {
    match g
    case Some(s) => Str(s)
    case None => Null
  }

  /**
   The default path: None exactly for blank input; otherwise a string comes back
   without surrounding whitespace and as an infix of the input, and anything else is
   returned as it was.
   */
  lemma DefaultPath(lib: Library, v: Value, fm: FieldMapping)
    requires NoTransform(fm) && fm.daysAfter.None?
    ensures MappedValue(lib, v, fm).Success?
    ensures MappedValue(lib, v, fm).value == Null <==> IsBlank(v)
    ensures v.Str? && !IsBlank(v) ==>
              var out := MappedValue(lib, v, fm).value;
              && out.Str? && out.s != []
              && !IsSpaceChar(out.s[0]) && !IsSpaceChar(out.s[|out.s| - 1])
              && exists k :: SpaceMargins(v.s, out.s, k)
    ensures !v.Str? && !IsBlank(v) ==> MappedValue(lib, v, fm).value == v
  {
  }

  /** Keys of lower precedence never influence the transform a higher key selects. */
  lemma TransformPrecedence(lib: Library, v: Value, fm: FieldMapping)
    ensures fm.format.Some? ==>
              MappedValue(lib, v, fm) ==
              MappedValue(lib, v, fm.(clean := None, lookup := None, matchPattern := None, daysAfter := None))
    ensures fm.format.None? && fm.clean.Some? ==>
              MappedValue(lib, v, fm) ==
              MappedValue(lib, v, fm.(lookup := None, matchPattern := None, daysAfter := None))
    ensures fm.format.None? && fm.clean.None? && fm.lookup.Some? ==>
              MappedValue(lib, v, fm) == MappedValue(lib, v, fm.(matchPattern := None, daysAfter := None))
    ensures fm.format.None? && fm.clean.None? && fm.lookup.None? && fm.matchPattern.Some? ==>
              MappedValue(lib, v, fm) == MappedValue(lib, v, fm.(daysAfter := None))
  {
  }

  /** The `map` transform is an open lookup: a string it does not list passes through. */
  lemma LookupMissPassesThrough(lib: Library, s: string, fm: FieldMapping)
    requires fm.format.None? && fm.clean.None? && fm.lookup.Some?
    requires s !in fm.lookup.value
    ensures MappedValue(lib, Str(s), fm) == Success(Str(s))
  {
  }

  /** A date format never raises on a string: unparsable or blank input gives None. */
  lemma FormatNeverFailsOnText(lib: Library, s: string, fm: FieldMapping)
    requires fm.format.Some?
    ensures MappedValue(lib, Str(s), fm).Success?
    ensures var out := MappedValue(lib, Str(s), fm).value;
            out.Null? || out.Date?
    ensures IsBlank(Str(s)) || lib.parseDate(s, fm.format.value).None? ==>
              MappedValue(lib, Str(s), fm) == Success(Null)
  {
  }

  // --------------------------------------------------------------- validation

  /** `presence_validation_on`: a blank value is an error naming the field. */
  function PresenceValidation(field: string, v: Value): (r: Result<(), Error>)
    ensures r.Failure? <==> IsBlank(v)
    ensures r.Failure? ==> r.error == PresenceViolation(field)
  {
    if IsBlank(v) then Failure(PresenceViolation(field)) else Success(())
  }

  /** `apply_validations_on` together with its guard: the one validation is presence. */
  function ApplyValidations(fm: FieldMapping, v: Value): (r: Result<(), Error>)
    ensures r.Failure? <==> fm.validatesPresence && IsBlank(v)
    ensures r.Failure? ==> r.error == PresenceViolation(fm.field)
  {
    if fm.validatesPresence then PresenceValidation(fm.field, v) else Success(())
  }
}
