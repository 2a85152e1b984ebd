/**
 Values flowing through the mapper: what a row cell, a decoded cell, a transformed
 cell and a final field can hold, together with the Python notions of truthiness,
 Ruby-style blankness, whitespace stripping and lower-casing the mapper relies on.
 */
module Values {

  newtype byte = x: int | 0 <= x < 256

  /** A parsed calendar timestamp; the mapper never looks inside one. */
  datatype DateTime = DateTime(year: int, month: int, day: int, hour: int, minute: int, second: int)

  /** A cell value: text, a list-valued cell, decoded bytes, a parsed date, or Python's None. */
  datatype Value =
    | Str(s: string)
    | List(items: seq<Value>)
    | Bytes(data: seq<byte>)
    | Date(when: DateTime)
    | Null

  /** Python truthiness of a value: empty text, lists and bytes and None are falsy, dates never are. */
  function Truthy(v: Value): (b: bool)
    ensures !b <==> v == Null || v == Str([]) || v == List([]) || v == Bytes([])
  {
    match v
    case Str(s) => s != []
    case List(items) => items != []
    case Bytes(data) => data != []
    case Date(_) => true
    case Null => false
  }

  /** The characters Python's `str.isspace` and `str.strip` treat as whitespace. */
  predicate IsSpaceChar(c: char) {
    || c == ' '
    || '\t' <= c <= '\r'
    || '\U{1c}' <= c <= '\U{1f}'
    || c == '\U{85}'
    || c == '\U{a0}'
    || c == '\U{1680}'
    || '\U{2000}' <= c <= '\U{200a}'
    || c == '\U{2028}'
    || c == '\U{2029}'
    || c == '\U{202f}'
    || c == '\U{205f}'
    || c == '\U{3000}'
  }

  predicate AllSpace(s: string) {
    forall i :: 0 <= i < |s| ==> IsSpaceChar(s[i])
  }

  /**
   Ruby's `blank?` as the mapper ports it: falsy, or a string made only of whitespace,
   that is, a string `str.strip` empties. None of the modelled value kinds has a
   `length` attribute, so the third disjunct of the port never fires.
   */
  function IsBlank(v: Value): (b: bool)
    ensures !v.Str? ==> (b <==> !Truthy(v))
    ensures v.Str? ==> (b <==> Strip(v.s) == [])
  {
    !Truthy(v) || (v.Str? && AllSpace(v.s))
  }

  /** The first index at or after `i` that does not hold whitespace (or `|s|`). */
  function SkipSpace(s: string, i: nat): (j: nat)
    requires i <= |s|
    ensures i <= j <= |s|
    ensures forall k :: i <= k < j ==> IsSpaceChar(s[k])
    ensures j == |s| || !IsSpaceChar(s[j])
    decreases |s| - i
  {
    if i < |s| && IsSpaceChar(s[i]) then SkipSpace(s, i + 1) else i
  }

  /** The least index `k >= lo` such that `s[k..j]` is all whitespace. */
  function SkipSpaceBack(s: string, lo: nat, j: nat): (k: nat)
    requires lo <= j <= |s|
    ensures lo <= k <= j
    ensures forall m :: k <= m < j ==> IsSpaceChar(s[m])
    ensures k == lo || !IsSpaceChar(s[k - 1])
    decreases j
  {
    if j > lo && IsSpaceChar(s[j - 1]) then SkipSpaceBack(s, lo, j - 1) else j
  }

  /** `s` is whitespace, then `r` starting at offset `k`, then whitespace. */
  predicate SpaceMargins(s: string, r: string, k: int) {
    && 0 <= k <= k + |r| <= |s|
    && s[k..k + |r|] == r
    && (forall m :: 0 <= m < k ==> IsSpaceChar(s[m]))
    && (forall m :: k + |r| <= m < |s| ==> IsSpaceChar(s[m]))
  }

  /** Python's `str.strip()`: `s` without its leading and trailing whitespace. */
  function Strip(s: string): (r: string)
    ensures r == [] <==> AllSpace(s)
    ensures r != [] ==> !IsSpaceChar(r[0]) && !IsSpaceChar(r[|r| - 1])
    ensures exists k :: SpaceMargins(s, r, k)
  {
    var a := SkipSpace(s, 0);
    var b := SkipSpaceBack(s, a, |s|);
    assert SpaceMargins(s, s[a..b], a);
    s[a..b]
  }

  /** A string that neither starts nor ends with whitespace strips to itself. */
  lemma StripUnpadded(s: string)
    requires s != [] && !IsSpaceChar(s[0]) && !IsSpaceChar(s[|s| - 1])
    ensures Strip(s) == s
  {
    assert SkipSpace(s, 0) == 0;
    assert SkipSpaceBack(s, 0, |s|) == |s|;
    assert s[0..|s|] == s;
  }

  /** Stripping twice is stripping once. */
  lemma {:induction false} StripIdempotent(s: string)
    ensures Strip(Strip(s)) == Strip(s)
  {
    var r := Strip(s);
    if r != [] {
      StripUnpadded(r);
    }
  }

  function LowerChar(c: char): char {
    if 'A' <= c <= 'Z' then (c as int + 32) as char else c
  }

  /** Python's `str.lower()` restricted to the ASCII letters. */
  function Lower(s: string): (r: string)
    ensures |r| == |s|
    ensures forall i :: 0 <= i < |s| ==> r[i] == LowerChar(s[i])
  {
    seq(|s|, i requires 0 <= i < |s| => LowerChar(s[i]))
  }

  /** A string without upper-case ASCII letters is its own lower-case form. */
  lemma LowerKeepsLowercase(s: string)
    requires forall i :: 0 <= i < |s| ==> !('A' <= s[i] <= 'Z')
    ensures Lower(s) == s
  {
  }

  /** Lower-casing is idempotent, so a key that is already lower-case is its own key. */
  lemma LowerIdempotent(s: string)
    ensures Lower(Lower(s)) == Lower(s)
  {
  }
}
