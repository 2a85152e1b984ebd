/**
 The per-field accumulator of `mapped_line` (mapper/__init__.py lines 160-198): values
 kept in sparse integer slots, the join separator and the compact flag, and the final
 extraction that reads the slots in ascending order.
 */
module Accumulator {
  import opened Wrappers
  import opened Values
  import opened Config

  /**
   The state kept for one output field. `join` is `None` while the key is absent and
   `Some(sep)` once the first ordered contribution has set it, `sep` itself possibly `None`.
   */
  datatype Acc = Acc(values: map<int, Value>, join: Option<Option<string>>, compact: bool)

  /** The accumulator a field gets on its first contribution. */
  const Fresh := Acc(map[], None, true)

  /** `order` is given and truthy (a zero order counts as absent). */
  predicate IsOrdered(fm: FieldMapping) {
    fm.order.Some? && fm.order.value != 0
  }

  /** `priority` is given and truthy (a zero priority counts as absent). */
  predicate HasPriority(fm: FieldMapping) {
    fm.priority.Some? && fm.priority.value != 0
  }

  /** `join` is given and is a non-empty separator. */
  predicate JoinTruthy(fm: FieldMapping) {
    fm.join.Some? && fm.join.value != ""
  }

  /**
   The slot a contribution is written to: `order - 1`, else `priority`, else 0. A truthy
   order overrides any priority, a zero order or priority counts as absent, and a
   mapping with neither writes slot 0.
   */
  function Slot(fm: FieldMapping): (k: int)
    ensures IsOrdered(fm) ==> k == fm.order.value - 1
    ensures !IsOrdered(fm) ==> k == if HasPriority(fm) then fm.priority.value else 0
  {
    if IsOrdered(fm) then fm.order.value - 1
    else if HasPriority(fm) then fm.priority.value
    else 0
  }

  /** An order overrides any priority, and a zero order or priority is as good as none. */
  lemma SlotPrecedence(fm: FieldMapping)
    ensures IsOrdered(fm) ==> Slot(fm) == Slot(fm.(priority := None))
    ensures !IsOrdered(fm) ==> Slot(fm) == Slot(fm.(order := None))
    ensures !HasPriority(fm) ==> Slot(fm) == Slot(fm.(priority := None))
  {
  }

  /**
   One accepted contribution: it overwrites its slot; an ordered one sets the separator
   if none is recorded yet and replaces the compact flag when it declares one.
   */
  function Contribute(acc: Acc, fm: FieldMapping, v: Value): (r: Acc)
    ensures r.values.Keys == acc.values.Keys + {Slot(fm)}
    ensures r.values[Slot(fm)] == v
    ensures forall k :: k in acc.values && k != Slot(fm) ==> r.values[k] == acc.values[k]
    ensures acc.join.Some? ==> r.join == acc.join
    ensures !IsOrdered(fm) ==> r.join == acc.join && r.compact == acc.compact
  {
    var values := acc.values[Slot(fm) := v];
    if IsOrdered(fm) then
      Acc(values,
          if acc.join.Some? then acc.join else Some(fm.join),
          if fm.compact.Some? then fm.compact.value else acc.compact)
    else
      Acc(values, acc.join, acc.compact)
  }

  /** A contribution that reached the accumulator: the mapping and its transformed value. */
  datatype Contribution = Contribution(fm: FieldMapping, value: Value)

  /** Contributions applied in the order they are made. */
  function ContributeSeq(acc: Acc, cs: seq<Contribution>): Acc
    decreases |cs|
  {
    if cs == [] then acc else ContributeSeq(Contribute(acc, cs[0].fm, cs[0].value), cs[1..])
  }

  /** Contributions applied in two batches are the contributions applied in one. */
  lemma {:induction false} ContributeSeqAppend(acc: Acc, a: seq<Contribution>, b: seq<Contribution>)
    ensures ContributeSeq(acc, a + b) == ContributeSeq(ContributeSeq(acc, a), b)
    decreases |a|
  {
    if a == [] {
      assert a + b == b;
    } else {
      assert (a + b)[0] == a[0];
      assert (a + b)[1..] == a[1..] + b;
      ContributeSeqAppend(Contribute(acc, a[0].fm, a[0].value), a[1..], b);
    }
  }

  lemma {:induction false} ContributeSeqSnoc(acc: Acc, cs: seq<Contribution>, c: Contribution)
    ensures ContributeSeq(acc, cs + [c]) == Contribute(ContributeSeq(acc, cs), c.fm, c.value)
    decreases |cs|
  {
    if cs == [] {
      assert [c][1..] == [];
    } else {
      assert (cs + [c])[0] == cs[0];
      assert (cs + [c])[1..] == cs[1..] + [c];
      ContributeSeqSnoc(Contribute(acc, cs[0].fm, cs[0].value), cs[1..], c);
    }
  }

  /** The separator of the first ordered contribution, if there is one. */
  function FirstOrderedJoin(cs: seq<Contribution>): Option<Option<string>> {
    if cs == [] then None
    else if IsOrdered(cs[0].fm) then Some(cs[0].fm.join)
    else FirstOrderedJoin(cs[1..])
  }

  /** The compact flag of the last ordered contribution that declares one, if any. */
  function LastCompact(cs: seq<Contribution>): Option<bool> {
    if cs == [] then None
    else
      var c := cs[|cs| - 1];
      if IsOrdered(c.fm) && c.fm.compact.Some? then c.fm.compact
      else LastCompact(cs[..|cs| - 1])
  }

  /** The value of the last contribution written to slot `k`, if any. */
  function LastWriter(cs: seq<Contribution>, k: int): Option<Value> {
    if cs == [] then None
    else
      var c := cs[|cs| - 1];
      if Slot(c.fm) == k then Some(c.value)
      else LastWriter(cs[..|cs| - 1], k)
  }

  /**
   The separator is fixed by the first ordered contribution, even when that contribution
   gives none; later contributions never change it.
   */
  lemma {:induction false} JoinIsFirstOrdered(acc: Acc, cs: seq<Contribution>)
    ensures ContributeSeq(acc, cs).join == if acc.join.Some? then acc.join else FirstOrderedJoin(cs)
    decreases |cs|
  {
    if cs != [] {
      JoinIsFirstOrdered(Contribute(acc, cs[0].fm, cs[0].value), cs[1..]);
    }
  }

  /** Compact keeps its starting value unless an ordered contribution declares one; the last such wins. */
  lemma {:induction false} CompactIsLastDeclared(acc: Acc, cs: seq<Contribution>)
    ensures ContributeSeq(acc, cs).compact == LastCompact(cs).GetOr(acc.compact)
    decreases |cs|
  {
    if cs != [] {
      var init := cs[..|cs| - 1];
      var c := cs[|cs| - 1];
      assert cs == init + [c];
      ContributeSeqSnoc(acc, init, c);
      CompactIsLastDeclared(acc, init);
    }
  }

  /** Each slot holds the value of its last writer; a slot nobody wrote keeps what it had. */
  lemma {:induction false} SlotIsLastWriter(acc: Acc, cs: seq<Contribution>, k: int)
    ensures var r := ContributeSeq(acc, cs);
            && (k in r.values <==> k in acc.values || LastWriter(cs, k).Some?)
            && (LastWriter(cs, k).Some? ==> r.values[k] == LastWriter(cs, k).value)
            && (LastWriter(cs, k).None? && k in acc.values ==> r.values[k] == acc.values[k])
    decreases |cs|
  {
    if cs != [] {
      var init := cs[..|cs| - 1];
      var c := cs[|cs| - 1];
      assert cs == init + [c];
      ContributeSeqSnoc(acc, init, c);
      SlotIsLastWriter(acc, init, k);
    }
  }

  /** Unordered contributions to different slots may arrive in either order. */
  lemma DistinctSlotsCommute(acc: Acc, c1: Contribution, c2: Contribution)
    requires !IsOrdered(c1.fm) && !IsOrdered(c2.fm)
    requires Slot(c1.fm) != Slot(c2.fm)
    ensures ContributeSeq(acc, [c1, c2]) == ContributeSeq(acc, [c2, c1])
  {
    TwoContributions(acc, c1, c2);
    TwoContributions(acc, c2, c1);
  }

  lemma TwoContributions(acc: Acc, c1: Contribution, c2: Contribution)
    ensures ContributeSeq(acc, [c1, c2]) == Contribute(Contribute(acc, c1.fm, c1.value), c2.fm, c2.value)
  {
    var a1 := Contribute(acc, c1.fm, c1.value);
    assert [c1, c2][1..] == [c2];
    assert ContributeSeq(acc, [c1, c2]) == ContributeSeq(a1, [c2]);
    assert [c2][1..] == [];
    assert ContributeSeq(a1, [c2]) == ContributeSeq(Contribute(a1, c2.fm, c2.value), []);
  }

  /** An `order: 1` writer and a writer with neither order nor priority share slot 0. */
  lemma OrderOneSharesSlotZero(ordered: FieldMapping, plain: FieldMapping)
    requires ordered.order == Some(1)
    requires !IsOrdered(plain) && !HasPriority(plain)
    ensures Slot(ordered) == Slot(plain) == 0
  {
  }

  // ------------------------------------------------------------- slot order

  lemma {:induction false} MinExists(s: set<int>)
    requires s != {}
    ensures exists m :: m in s && forall y :: y in s ==> m <= y
    decreases |s|
  {
    assert exists x :: x in s by {
      if forall x :: x !in s {
        assert false;
      }
    }
    var x :| x in s;
    if s != {x} {
      MinExists(s - {x});
      var m :| m in s - {x} && forall y :: y in s - {x} ==> m <= y;
      var least := if x < m then x else m;
      forall y | y in s
        ensures least <= y
      {
        if y != x {
          assert y in s - {x};
        }
      }
    } else {
      assert forall y :: y in s ==> x <= y;
    }
  }

  /** The least element of a non-empty set of slots. */
  function SetMin(s: set<int>): (m: int)
    requires s != {}
    ensures m in s && forall y :: y in s ==> m <= y
  {
    MinExists(s);
    var m :| m in s && forall y :: y in s ==> m <= y;
    m
  }

  /** `sorted(value_dict)`: the slots in strictly ascending order. */
  function SortedKeys(s: set<int>): (r: seq<int>)
    ensures |r| == |s|
    ensures forall i :: 0 <= i < |r| ==> r[i] in s
    ensures forall k :: k in s ==> k in r
    ensures forall i, j :: 0 <= i < j < |r| ==> r[i] < r[j]
    decreases |s|
  {
    if s == {} then []
    else
      var m := SetMin(s);
      var rest := SortedKeys(s - {m});
      SortedCons(s, m, rest);
      [m] + rest
  }

  /** Putting the least slot in front of a sorted listing of the others lists them all, sorted. */
  lemma SortedCons(s: set<int>, m: int, rest: seq<int>)
    requires m in s && forall y :: y in s ==> m <= y
    requires |rest| == |s - {m}|
    requires forall i :: 0 <= i < |rest| ==> rest[i] in s - {m}
    requires forall k :: k in s - {m} ==> k in rest
    requires forall i, j :: 0 <= i < j < |rest| ==> rest[i] < rest[j]
    ensures var r := [m] + rest;
            && |r| == |s|
            && (forall i :: 0 <= i < |r| ==> r[i] in s)
            && (forall k :: k in s ==> k in r)
            && (forall i, j :: 0 <= i < j < |r| ==> r[i] < r[j])
  {
    var r := [m] + rest;
    assert |s - {m}| == |s| - 1;
    forall i, j | 0 <= i < j < |r|
      ensures r[i] < r[j]
    {
      assert r[j] == rest[j - 1] && rest[j - 1] in s - {m};
      if i > 0 {
        assert r[i] == rest[i - 1];
      }
    }
    forall k | k in s
      ensures k in r
    {
      if k != m {
        assert k in rest;
      }
    }
  }

  lemma SortedKeysHead(s: set<int>)
    requires s != {}
    ensures SortedKeys(s) != [] && SortedKeys(s)[0] == SetMin(s)
  {
  }

  /** The slot values in ascending slot order. */
  function SlotValues(acc: Acc): (parts: seq<Value>)
    ensures |parts| == |acc.values|
    ensures var keys := SortedKeys(acc.values.Keys);
            forall i :: 0 <= i < |parts| ==> parts[i] == acc.values[keys[i]]
  {
    var keys := SortedKeys(acc.values.Keys);
    seq(|keys|, i requires 0 <= i < |keys| => acc.values[keys[i]])
  }

  // ------------------------------------------------------------- extraction

  /** Python's `sep.join(parts)`: a single part is the text itself; more start with the first part. */
  function Join(sep: string, parts: seq<string>): (r: string)
    ensures parts == [] ==> r == ""
    ensures |parts| == 1 ==> r == parts[0]
    ensures parts != [] ==> parts[0] <= r
  {
    if parts == [] then ""
    else if |parts| == 1 then parts[0]
    else parts[0] + sep + Join(sep, parts[1..])
  }

  /** Joining one more part appends the separator and that part. */
  lemma {:induction false} JoinSnoc(sep: string, parts: seq<string>, last: string)
    requires parts != []
    ensures Join(sep, parts + [last]) == Join(sep, parts) + sep + last
  {
    if |parts| == 1 {
      assert parts + [last] == [parts[0], last];
      assert [parts[0], last][1..] == [last];
    } else {
      assert (parts + [last])[1..] == parts[1..] + [last];
      JoinSnoc(sep, parts[1..], last);
    }
  }

  /**
   The parts that are truthy, in order: the compaction `[v or None ...]` followed by
   `filter(None, ...)`. A value is kept exactly when it is a truthy part.
   */
  function TruthyOnly(parts: seq<Value>): (r: seq<Value>)
    ensures forall i :: 0 <= i < |r| ==> Truthy(r[i])
    ensures forall v :: v in r <==> v in parts && Truthy(v)
    ensures |r| <= |parts|
  {
    if parts == [] then []
    else if Truthy(parts[0]) then [parts[0]] + TruthyOnly(parts[1..])
    else TruthyOnly(parts[1..])
  }

  /** Filtering a concatenation filters each piece and keeps their order. */
  lemma {:induction false} TruthyOnlyAppend(a: seq<Value>, b: seq<Value>)
    ensures TruthyOnly(a + b) == TruthyOnly(a) + TruthyOnly(b)
    decreases |a|
  {
    if a == [] {
      assert a + b == b;
    } else {
      assert (a + b)[0] == a[0];
      assert (a + b)[1..] == a[1..] + b;
      TruthyOnlyAppend(a[1..], b);
    }
  }

  /** A single part is kept exactly when it is truthy. */
  lemma TruthyOnlySingle(v: Value)
    ensures TruthyOnly([v]) == if Truthy(v) then [v] else []
  {
    assert [v][1..] == [];
  }

  /** The text of each part: a string's own text, and empty text for anything else. */
  function Texts(parts: seq<Value>): (r: seq<string>)
    ensures |r| == |parts|
    ensures forall i :: 0 <= i < |parts| ==> r[i] == if parts[i].Str? then parts[i].s else ""
  {
    seq(|parts|, i requires 0 <= i < |parts| => if parts[i].Str? then parts[i].s else "")
  }

  /** `v or ''` for one part: text renders as itself, any other falsy value as empty text. */
  function RenderPart(v: Value): (r: Result<string, Error>)
    ensures r.Success? <==> !Truthy(v) || v.Str?
    ensures r.Success? ==> r.value == if v.Str? then v.s else ""
    ensures r.Failure? ==> r.error == TypeMismatch
  {
    if !Truthy(v) then Success("")
    else if v.Str? then Success(v.s)
    else Failure(TypeMismatch)
  }

  /** `v or ''` for each part: falsy parts render as empty text, other non-strings are a type error. */
  function Rendered(parts: seq<Value>): (r: Result<seq<string>, Error>)
    ensures r.Success? <==> forall i :: 0 <= i < |parts| ==> !Truthy(parts[i]) || parts[i].Str?
    ensures r.Success? ==> |r.value| == |parts|
    ensures r.Success? ==> forall i :: 0 <= i < |parts| ==>
              r.value[i] == if parts[i].Str? then parts[i].s else ""
    ensures r.Failure? ==> r.error == TypeMismatch
  {
    if parts == [] then Success([])
    else
      var first :- RenderPart(parts[0]);
      var rest :- Rendered(parts[1..]);
      Success([first] + rest)
  }

  /**
   The joined field: falsy parts dropped when compacting, the rest joined. Either way it
   succeeds exactly when every truthy part is text, and the result is text.
   */
  function JoinParts(sep: string, parts: seq<Value>, compact: bool): (r: Result<Value, Error>)
    ensures r.Success? <==> forall i :: 0 <= i < |parts| ==> !Truthy(parts[i]) || parts[i].Str?
    ensures r.Success? ==> r.value.Str?
    ensures r.Failure? ==> r.error == TypeMismatch
  {
    var kept := if compact then TruthyOnly(parts) else parts;
    RenderedIffTruthyText(parts);
    var strs :- Rendered(kept);
    Success(Str(Join(sep, strs)))
  }

  /** The truthy parts are all text exactly when every truthy part of the input is. */
  lemma RenderedIffTruthyText(parts: seq<Value>)
    ensures (forall i :: 0 <= i < |TruthyOnly(parts)| ==> TruthyOnly(parts)[i].Str?) <==>
            (forall i :: 0 <= i < |parts| ==> !Truthy(parts[i]) || parts[i].Str?)
  {
    var kept := TruthyOnly(parts);
    if forall i :: 0 <= i < |parts| ==> !Truthy(parts[i]) || parts[i].Str? {
      forall i | 0 <= i < |kept|
        ensures kept[i].Str?
      {
        assert kept[i] in parts && Truthy(kept[i]);
        var j :| 0 <= j < |parts| && parts[j] == kept[i];
      }
    }
    if forall i :: 0 <= i < |kept| ==> kept[i].Str? {
      forall i | 0 <= i < |parts| && Truthy(parts[i])
        ensures parts[i].Str?
      {
        assert parts[i] in kept;
        var j :| 0 <= j < |kept| && kept[j] == parts[i];
      }
    }
  }

  /**
   Final value of one field: without a separator, the value in the lowest slot; with one,
   the slot values joined in ascending slot order; a separator left unset by the first
   ordered writer is an error naming the field.
   */
  function Extract(field: string, acc: Acc): (r: Result<Value, Error>)
    ensures acc.join.None? && acc.values == map[] ==> r == Success(Null)
    ensures acc.join.None? && acc.values != map[] ==> r == Success(acc.values[SetMin(acc.values.Keys)])
    ensures acc.join == Some(None) ==> r == Failure(JoinSeparatorMissing(field))
    ensures acc.join.Some? && acc.join.value.Some? ==> r.Success? ==> r.value.Str?
  {
    var parts := SlotValues(acc);
    match acc.join
    case None =>
      if parts == [] then Success(Null)
      else
        SortedKeysHead(acc.values.Keys);
        Success(parts[0])
    case Some(None) => Failure(JoinSeparatorMissing(field))
    case Some(Some(sep)) => JoinParts(sep, parts, acc.compact)
  }

  /** With a separator set, extraction joins the slot values read in ascending slot order. */
  lemma JoinReadsSlotsInOrder(field: string, acc: Acc, sep: string)
    requires acc.join == Some(Some(sep))
    ensures Extract(field, acc) == JoinParts(sep, SlotValues(acc), acc.compact)
  {
  }

  /**
   Compacting joins the text of the truthy parts, in order, and none of those pieces is
   empty; without compaction every part is a piece, falsy ones as empty text.
   */
  lemma CompactJoinsTruthyText(sep: string, parts: seq<Value>)
    ensures JoinParts(sep, parts, true).Success? ==>
              && JoinParts(sep, parts, true) == Success(Str(Join(sep, Texts(TruthyOnly(parts)))))
              && forall i :: 0 <= i < |TruthyOnly(parts)| ==> Texts(TruthyOnly(parts))[i] != ""
    ensures JoinParts(sep, parts, false).Success? ==>
              JoinParts(sep, parts, false) == Success(Str(Join(sep, Texts(parts))))
  {
    RenderedIffTruthyText(parts);
    var kept := TruthyOnly(parts);
    if JoinParts(sep, parts, true).Success? {
      assert Rendered(kept).value == Texts(kept);
    }
    if JoinParts(sep, parts, false).Success? {
      assert Rendered(parts).value == Texts(parts);
    }
  }

  /**
   Of two unordered writers to different slots, the lower slot wins, whichever comes
   first: priority 1 beats priority 2 regardless of column order.
   */
  lemma LowerSlotWins(field: string, c1: Contribution, c2: Contribution)
    requires !IsOrdered(c1.fm) && !IsOrdered(c2.fm)
    requires Slot(c1.fm) < Slot(c2.fm)
    ensures Extract(field, ContributeSeq(Fresh, [c1, c2])) == Success(c1.value)
    ensures Extract(field, ContributeSeq(Fresh, [c2, c1])) == Success(c1.value)
  {
    DistinctSlotsCommute(Fresh, c1, c2);
    TwoContributions(Fresh, c1, c2);
    var a := ContributeSeq(Fresh, [c1, c2]);
    assert a.values.Keys == {Slot(c1.fm), Slot(c2.fm)};
    assert SetMin(a.values.Keys) == Slot(c1.fm);
  }

  /**
   Joining a falsy first part (the None a blank cell maps to, or empty text) and a
   postcode: compacting drops it, otherwise it leaves a leading separator.
   */
  lemma PostcodeJoinExample(blank: Value)
    requires !Truthy(blank)
    ensures JoinParts(",", [blank, Str("CB3 0DS")], true) == Success(Str("CB3 0DS"))
    ensures JoinParts(",", [blank, Str("CB3 0DS")], false) == Success(Str(",CB3 0DS"))
  {
    var parts := [blank, Str("CB3 0DS")];
    var kept := [Str("CB3 0DS")];
    assert Truthy(kept[0]);
    assert TruthyOnly(parts) == kept by {
      assert parts[1..] == kept;
      assert kept[1..] == [];
    }
    var rk := Rendered(kept);
    assert rk.Success? && rk.value == ["CB3 0DS"];
    var rp := Rendered(parts);
    assert rp.Success? && rp.value == ["", "CB3 0DS"];
    assert Join(",", ["", "CB3 0DS"]) == ",CB3 0DS" by {
      assert ["", "CB3 0DS"][1..] == ["CB3 0DS"];
    }
  }

  /** Two slots are read lower first. */
  lemma TwoSlotsInOrder(acc: Acc, lo: int, hi: int)
    requires lo < hi && acc.values.Keys == {lo, hi}
    ensures SlotValues(acc) == [acc.values[lo], acc.values[hi]]
  {
    var keys := SortedKeys(acc.values.Keys);
    assert |acc.values.Keys| == 2;
    assert keys[0] < keys[1];
    assert keys == [lo, hi];
  }

  /** Compaction tests truthiness, not blankness: a whitespace-only part survives it. */
  lemma WhitespacePartSurvivesCompaction()
    ensures IsBlank(Str(" "))
    ensures JoinParts(",", [Str(" "), Str("x")], true) == Success(Str(" ,x"))
  {
    var parts := [Str(" "), Str("x")];
    assert Truthy(parts[0]) && Truthy(parts[1]);
    assert TruthyOnly(parts) == parts by {
      assert parts[1..] == [Str("x")];
      assert [Str("x")][1..] == [];
    }
    var rp := Rendered(parts);
    assert rp.Success? && rp.value == [" ", "x"];
    assert Join(",", [" ", "x"]) == " ,x" by {
      assert [" ", "x"][1..] == ["x"];
    }
  }
}
