/**
 * How run.go picks skills and targets from the lists it shows: the skills
 * are sorted by name, the line-mode prompt turns a comma list of 1-based
 * numbers into 0-based indices, and the chosen entries are kept in the
 * order the indices give.
 */
module Selection {
  import opened Wrappers
  import opened Text
  import opened Discovery
  import Tui

  /** What one comma-separated part contributes: the 0-based index it names, or nothing. */
  function PartIndex(part: string): (r: seq<int>)
    ensures |r| <= 1
    ensures IsBlank(part) ==> r == []
  {
    var t := TrimSpace(part);
    if t == "" then []
    else match Atoi(t)
      case Some(v) => [v - 1]
      case None => []
  }

  /** The indices the parts give, in input order. */
  function PartsIndices(parts: seq<string>): (r: seq<int>)
    ensures |r| <= |parts|
  {
    if parts == [] then [] else PartsIndices(parts[..|parts| - 1]) + PartIndex(parts[|parts| - 1])
  }

  /** The indices a typed answer line names: none for a blank line. */
  function IndicesOf(line: string): seq<int> {
    var text := TrimSpace(line);
    if text == "" then [] else PartsIndices(Split(text, ','))
  }

  /** The parsing loop of `promptIndices`, on the line read from the terminal. */
  method ParseIndices(line: string) returns (indices: seq<int>)
    ensures indices == IndicesOf(line)
    ensures IsBlank(line) ==> indices == []
  {
    var text := TrimSpace(line);
    if text == "" {
      return [];
    }
    var raw := Split(text, ',');
    indices := [];
    var i := 0;
    while i < |raw|
      invariant 0 <= i <= |raw|
      invariant indices == PartsIndices(raw[..i])
    {
      var contribution := ParsePart(raw[i]);
      PartsIndicesSnoc(raw, i);
      indices := indices + contribution;
      i := i + 1;
    }
    assert raw[..i] == raw;
  }

  /** One pass of the loop body: a blank or non-numeric part is skipped, a number `n` gives `n - 1`. */
  method ParsePart(raw: string) returns (contribution: seq<int>)
    ensures contribution == PartIndex(raw)
  {
    var part := TrimSpace(raw);
    if part == "" {
      PartIndexNone(raw);
      return [];
    }
    match Atoi(part)
    case Some(value) =>
      PartIndexSome(raw, value);
      return [value - 1];
    case None =>
      PartIndexNone(raw);
      return [];
  }

  lemma PartIndexSome(p: string, value: int)
    requires TrimSpace(p) != "" && Atoi(TrimSpace(p)) == Some(value)
    ensures PartIndex(p) == [value - 1]
  {
  }

  lemma PartIndexNone(p: string)
    requires TrimSpace(p) == "" || Atoi(TrimSpace(p)).None?
    ensures PartIndex(p) == []
  {
  }

  lemma PartsIndicesSnoc(raw: seq<string>, i: nat)
    requires i < |raw|
    ensures PartsIndices(raw[..i + 1]) == PartsIndices(raw[..i]) + PartIndex(raw[i])
  {
    assert raw[..i + 1][..i] == raw[..i];
  }

  lemma {:induction false} PartsIndicesAppend(p: seq<string>, q: seq<string>)
    ensures PartsIndices(p + q) == PartsIndices(p) + PartsIndices(q)
    decreases |q|
  {
    if q == [] {
      assert p + q == p;
    } else {
      var init, last := q[..|q| - 1], q[|q| - 1];
      assert p + q == (p + init) + [last];
      assert q == init + [last];
      PartsIndicesAppendOne(p + init, last);
      PartsIndicesAppendOne(init, last);
      PartsIndicesAppend(p, init);
      var a, b, c := PartsIndices(p), PartsIndices(init), PartIndex(last);
      assert a + b + c == a + (b + c);
    }
  }

  /** Blank and non-numeric parts are skipped without disturbing the others. */
  lemma {:induction false} SkippedParts(p: seq<string>, bad: string, q: seq<string>)
    requires IsBlank(bad) || Atoi(TrimSpace(bad)).None?
    ensures PartsIndices(p + [bad] + q) == PartsIndices(p) + PartsIndices(q)
  {
    PartsIndicesAppend(p + [bad], q);
    assert PartsIndices(p + [bad]) == PartsIndices(p) by {
      assert (p + [bad])[..|p|] == p;
    }
  }

  /** The decimal numerals of some numbers. */
  function Numerals(ns: seq<nat>): (ds: seq<string>)
    ensures |ds| == |ns| && forall k :: 0 <= k < |ns| ==> ds[k] == NatToString(ns[k])
  {
    if ns == [] then [] else Numerals(ns[..|ns| - 1]) + [NatToString(ns[|ns| - 1])]
  }

  /** The 0-based indices of some 1-based numbers. */
  function MinusOne(ns: seq<nat>): (r: seq<int>)
    ensures |r| == |ns| && forall k :: 0 <= k < |ns| ==> r[k] == (ns[k] as int) - 1
  {
    if ns == [] then [] else MinusOne(ns[..|ns| - 1]) + [(ns[|ns| - 1] as int) - 1]
  }

  /** A typed numeral contributes its number minus one. */
  lemma PartIndexOfNumeral(n: nat)
    ensures PartIndex(NatToString(n)) == [(n as int) - 1]
  {
    var d := NatToString(n);
    DigitsAreTrimmed(d);
    TrimSpaceOfTrimmed(d);
    AtoiNatToString(n);
  }

  lemma {:induction false} PartsIndicesOfNumerals(ns: seq<nat>)
    ensures PartsIndices(Numerals(ns)) == MinusOne(ns)
    decreases |ns|
  {
    if ns != [] {
      var init, last := ns[..|ns| - 1], ns[|ns| - 1];
      assert Numerals(ns) == Numerals(init) + [NatToString(last)];
      assert MinusOne(ns) == MinusOne(init) + [(last as int) - 1];
      PartsIndicesOfNumerals(init);
      PartsIndicesAppendOne(Numerals(init), NatToString(last));
      PartIndexOfNumeral(last);
    }
  }

  lemma PartsIndicesAppendOne(parts: seq<string>, part: string)
    ensures PartsIndices(parts + [part]) == PartsIndices(parts) + PartIndex(part)
  {
    assert (parts + [part])[..|parts|] == parts;
  }

  lemma {:induction false} JoinedNumeralsTrimmed(ds: seq<string>)
    requires |ds| >= 1 && forall k :: 0 <= k < |ds| ==> |ds[k]| >= 1 && AllDigits(ds[k])
    ensures var j := Join(ds, ','); j != [] && IsDigit(j[0]) && IsDigit(j[|j| - 1])
  {
    if |ds| > 1 {
      JoinedNumeralsTrimmed(ds[1..]);
      assert Join(ds, ',') == ds[0] + [','] + Join(ds[1..], ',');
    }
  }

  /** Typing the 1-based numbers `ns` separated by commas selects the 0-based indices `ns[k] - 1`. */
  lemma {:induction false} TypedNumbers(ns: seq<nat>)
    requires |ns| >= 1
    ensures IndicesOf(Join(Numerals(ns), ',')) == MinusOne(ns)
  {
    var ds := Numerals(ns);
    var line := Join(ds, ',');
    JoinedNumeralsTrimmed(ds);
    TrimSpaceOfTrimmed(line);
    assert forall k :: 0 <= k < |ds| ==> ',' !in ds[k];
    SplitJoin(ds, ',');
    PartsIndicesOfNumerals(ns);
  }

  /** The entries the indices pick, in index order, duplicates kept and out-of-range indices dropped. */
  function Picked<T>(items: seq<T>, indices: seq<int>): (r: seq<T>)
    ensures |r| <= |indices|
    ensures forall x :: x in r ==> x in items
  {
    if indices == [] then []
    else
      var idx := indices[|indices| - 1];
      Picked(items, indices[..|indices| - 1]) + (if 0 <= idx < |items| then [items[idx]] else [])
  }

  /** One index picks its item when it is in range and nothing otherwise. */
  lemma PickedSingle<T>(items: seq<T>, i: int)
    ensures Picked(items, [i]) == if 0 <= i < |items| then [items[i]] else []
  {
    assert [i][..0] == [];
  }

  /** Indices pick independently, in the order they are given. */
  lemma {:induction false} PickedAppend<T>(items: seq<T>, a: seq<int>, b: seq<int>)
    ensures Picked(items, a + b) == Picked(items, a) + Picked(items, b)
    decreases |b|
  {
    if b == [] {
      assert a + b == a;
    } else {
      var init, last := b[..|b| - 1], b[|b| - 1];
      assert (a + b)[..|a + b| - 1] == a + init;
      assert (a + b)[|a + b| - 1] == last;
      PickedAppend(items, a, init);
      var tail := if 0 <= last < |items| then [items[last]] else [];
      assert Picked(items, a) + Picked(items, init) + tail == Picked(items, a) + (Picked(items, init) + tail);
    }
  }

  /** `filterTargets` and `filterSkills`: the same loop over targets and over skills. */
  method Filter<T>(items: seq<T>, indices: seq<int>) returns (out: seq<T>)
    ensures out == Picked(items, indices)
  {
    if |indices| == 0 {
      return [];
    }
    out := [];
    var i := 0;
    while i < |indices|
      invariant 0 <= i <= |indices|
      invariant out == Picked(items, indices[..i])
    {
      var idx := indices[i];
      assert indices[..i + 1][..i] == indices[..i];
      if idx >= 0 && idx < |items| {
        out := out + [items[idx]];
      }
      i := i + 1;
    }
    assert indices[..i] == indices;
  }

  /** With every index in range, entry `k` of the result is the item index `k` names. */
  lemma {:induction false} PickedInRange<T>(items: seq<T>, indices: seq<int>)
    requires forall k :: 0 <= k < |indices| ==> 0 <= indices[k] < |items|
    ensures |Picked(items, indices)| == |indices|
    ensures forall k :: 0 <= k < |indices| ==> Picked(items, indices)[k] == items[indices[k]]
    decreases |indices|
  {
    if indices != [] {
      var init, last := indices[..|indices| - 1], indices[|indices| - 1];
      PickedInRange(items, init);
      var front := Picked(items, init);
      assert Picked(items, indices) == front + [items[last]];
      forall k | 0 <= k < |indices|
        ensures Picked(items, indices)[k] == items[indices[k]]
      {
        if k < |init| {
          assert indices[k] == init[k];
        }
      }
    }
  }

  /** Numbers typed in the line-mode prompt pick the numbered entries, in the order typed. */
  lemma {:induction false} TypedNumbersPick<T>(items: seq<T>, ns: seq<nat>)
    requires |ns| >= 1 && forall k :: 0 <= k < |ns| ==> 1 <= ns[k] <= |items|
    ensures |Picked(items, IndicesOf(Join(Numerals(ns), ',')))| == |ns|
    ensures forall k :: 0 <= k < |ns| ==> Picked(items, IndicesOf(Join(Numerals(ns), ',')))[k] == items[(ns[k] as int) - 1]
  {
    var ix := MinusOne(ns);
    assert IndicesOf(Join(Numerals(ns), ',')) == ix by {
      TypedNumbers(ns);
    }
    PickedMinusOne(items, ns);
  }

  lemma PickedMinusOne<T>(items: seq<T>, ns: seq<nat>)
    requires forall k :: 0 <= k < |ns| ==> 1 <= ns[k] <= |items|
    ensures |Picked(items, MinusOne(ns))| == |ns|
    ensures forall k :: 0 <= k < |ns| ==> Picked(items, MinusOne(ns))[k] == items[(ns[k] as int) - 1]
  {
    var ix := MinusOne(ns);
    PickedInRange(items, ix);
  }

  /** `defaultSelectAll`: every index below `count` marked as selected. */
  method DefaultSelectAll(count: nat) returns (selected: map<int, bool>)
    ensures selected == Tui.AllTrue(count)
  {
    selected := map[];
    var i := 0;
    while i < count
      invariant 0 <= i <= count
      invariant selected == Tui.AllTrue(i)
    {
      selected := selected[i := true];
      i := i + 1;
    }
  }

  /** Confirming a selection that starts with everything selected returns every index. */
  lemma {:induction false} AllSelectedConfirmsAll(count: nat)
    ensures Tui.Chosen(Tui.AllTrue(count), count) == seq(count, i => i)
  {
    if count > 0 {
      AllSelectedConfirmsAll(count - 1);
      assert Tui.Chosen(Tui.AllTrue(count), count - 1) == Tui.Chosen(Tui.AllTrue(count - 1), count - 1) by {
        ChosenBelow(Tui.AllTrue(count), Tui.AllTrue(count - 1), count - 1);
      }
    }
  }

  lemma {:induction false} ChosenBelow(m1: map<int, bool>, m2: map<int, bool>, n: nat)
    requires forall i :: 0 <= i < n ==> Tui.Get(m1, i) == Tui.Get(m2, i)
    ensures Tui.Chosen(m1, n) == Tui.Chosen(m2, n)
  {
    if n > 0 {
      ChosenBelow(m1, m2, n - 1);
    }
  }

  /** Names never decrease along the list. */
  predicate NamesAscending(skills: seq<Skill>) {
    forall i, j :: 0 <= i < j < |skills| ==> Leq(skills[i].name, skills[j].name)
  }

  function InsertByName(x: Skill, sorted: seq<Skill>): (r: seq<Skill>)
    requires NamesAscending(sorted)
    ensures multiset(r) == multiset(sorted) + multiset{x}
    ensures NamesAscending(r)
    ensures |r| > 0 && (r[0] == x || (sorted != [] && r[0] == sorted[0]))
  {
    if sorted == [] then [x]
    else if Leq(x.name, sorted[0].name) then
      BelowHeadBelowAll(x, sorted);
      AscendingCons(x, sorted);
      [x] + sorted
    else
      LeqTotal(x.name, sorted[0].name);
      var rest := InsertByName(x, sorted[1..]);
      HeadBelowInserted(sorted, x, rest);
      AscendingCons(sorted[0], rest);
      [sorted[0]] + rest
  }

  lemma BelowHeadBelowAll(x: Skill, sorted: seq<Skill>)
    requires NamesAscending(sorted) && sorted != [] && Leq(x.name, sorted[0].name)
    ensures forall j :: 0 <= j < |sorted| ==> Leq(x.name, sorted[j].name)
  {
    forall j | 0 < j < |sorted|
      ensures Leq(x.name, sorted[j].name)
    {
      LeqTransitive(x.name, sorted[0].name, sorted[j].name);
    }
  }

  lemma AscendingCons(h: Skill, rest: seq<Skill>)
    requires NamesAscending(rest)
    requires forall j :: 0 <= j < |rest| ==> Leq(h.name, rest[j].name)
    ensures NamesAscending([h] + rest)
  {
    var all := [h] + rest;
    forall i, j | 0 <= i < j < |all|
      ensures Leq(all[i].name, all[j].name)
    {
      assert all[j] == rest[j - 1];
      if i > 0 {
        assert all[i] == rest[i - 1];
      }
    }
  }

  /** The head of a sorted list stays below everything after inserting a larger element into its tail. */
  lemma HeadBelowInserted(sorted: seq<Skill>, x: Skill, rest: seq<Skill>)
    requires NamesAscending(sorted) && sorted != [] && Leq(sorted[0].name, x.name)
    requires multiset(rest) == multiset(sorted[1..]) + multiset{x}
    ensures forall j :: 0 <= j < |rest| ==> Leq(sorted[0].name, rest[j].name)
    ensures multiset([sorted[0]] + rest) == multiset(sorted) + multiset{x}
  {
    assert sorted == [sorted[0]] + sorted[1..];
    forall j | 0 <= j < |rest|
      ensures Leq(sorted[0].name, rest[j].name)
    {
      assert rest[j] in multiset(rest);
      if rest[j] != x {
        assert rest[j] in multiset(sorted[1..]);
        var m :| 0 <= m < |sorted[1..]| && sorted[1..][m] == rest[j];
        assert sorted[m + 1] == rest[j];
      }
    }
  }

  /**
   * The skills ordered by name, as `sort.Slice` leaves them: a permutation
   * whose names never decrease. The order of skills with equal names is not
   * fixed by `sort.Slice`; this one keeps them in their input order.
   */
  function SortByName(skills: seq<Skill>): (r: seq<Skill>)
    ensures multiset(r) == multiset(skills)
    ensures NamesAscending(r)
  {
    if skills == [] then []
    else
      assert skills == [skills[0]] + skills[1..];
      InsertByName(skills[0], SortByName(skills[1..]))
  }
}
