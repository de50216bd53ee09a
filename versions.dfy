/**
 * The version comparison of run.go: dotted versions compared numerically
 * part by part, a leading `v` and white space ignored, missing or
 * non-numeric parts read as 0.
 */
module Versions {
  import opened Wrappers
  import opened Text

  /** `parseVersionPart`: the integer a part spells after trimming and dropping leading `v`s, else 0. */
  function VersionPart(part: string): (n: int)
    ensures part != [] && AllDigits(part) ==> n == DigitsValue(part)
    ensures Atoi(TrimLeftChar(TrimSpace(part), 'v')).None? ==> n == 0
  {
    var t := TrimLeftChar(TrimSpace(part), 'v');
    assert part != [] && AllDigits(part) ==> t == part by {
      if part != [] && AllDigits(part) {
        DigitsAreTrimmed(part);
        TrimSpaceOfTrimmed(part);
      }
    }
    match Atoi(t)
    case Some(v) => v
    case None => 0
  }

  /** The dot-separated parts of a version once white space and one leading `v` are dropped. */
  function Parts(version: string): (ps: seq<string>)
    ensures |ps| >= 1
  {
    Split(TrimPrefix(TrimSpace(version), "v"), '.')
  }

  /** The value of each part, as `parseVersionPart` reads it. */
  function Values(ps: seq<string>): (vs: seq<int>)
    ensures |vs| == |ps|
    ensures forall i :: 0 <= i < |ps| ==> vs[i] == VersionPart(ps[i])
  {
    seq(|ps|, i requires 0 <= i < |ps| => VersionPart(ps[i]))
  }

  /** The value of part `i`, 0 past the end. */
  function PartAt(vs: seq<int>, i: nat): int {
    if i < |vs| then vs[i] else 0
  }

  function Max(a: nat, b: nat): nat {
    if a < b then b else a
  }

  /** The comparison of the part values from index `i` on: the sign at the first index where they differ. */
  function CompareFrom(av: seq<int>, bv: seq<int>, i: nat): (c: int)
    ensures -1 <= c <= 1
    decreases Max(|av|, |bv|) - i
  {
    if i >= Max(|av|, |bv|) then 0
    else if PartAt(av, i) < PartAt(bv, i) then -1
    else if PartAt(av, i) > PartAt(bv, i) then 1
    else CompareFrom(av, bv, i + 1)
  }

  /** `compareVersions` as a function: -1, 0 or 1. */
  function Compare(a: string, b: string): int {
    CompareFrom(Values(Parts(a)), Values(Parts(b)), 0)
  }

  /** `compareVersions`: the loop over the parts with early returns. */
  method CompareVersions(a: string, b: string) returns (c: int)
    ensures c == Compare(a, b)
    ensures -1 <= c <= 1
  {
    var aParts := Parts(a);
    var bParts := Parts(b);
    c := CompareParts(aParts, bParts);
  }

  /** The loop of `compareVersions` over the two parts lists, with its early returns. */
  method CompareParts(aParts: seq<string>, bParts: seq<string>) returns (c: int)
    ensures c == CompareFrom(Values(aParts), Values(bParts), 0)
  {
    ghost var av, bv := Values(aParts), Values(bParts);
    var maxLen := |aParts|;
    if |bParts| > maxLen {
      maxLen := |bParts|;
    }
    var i := 0;
    while i < maxLen
      invariant 0 <= i <= maxLen
      invariant maxLen == Max(|av|, |bv|)
      invariant CompareFrom(av, bv, i) == CompareFrom(av, bv, 0)
    {
      var aVal, bVal := 0, 0;
      if i < |aParts| {
        aVal := VersionPart(aParts[i]);
      }
      if i < |bParts| {
        bVal := VersionPart(bParts[i]);
      }
      assert aVal == PartAt(av, i) && bVal == PartAt(bv, i);
      if aVal < bVal {
        return -1;
      }
      if aVal > bVal {
        return 1;
      }
      i := i + 1;
    }
    return 0;
  }

  /**
   * Leading white space and one leading `v` are ignored: `  v1.2` has the
   * parts of `1.2` and compares as it does.
   */
  lemma SpaceAndVIgnored(w: string, a: string, b: string)
    requires forall i :: 0 <= i < |w| ==> IsSpace(w[i])
    requires Trimmed(a) && a != [] && a[0] != 'v'
    ensures Parts(w + "v" + a) == Parts(a) && Parts(w + a) == Parts(a)
    ensures Compare(w + "v" + a, b) == Compare(a, b) && Compare(b, w + "v" + a) == Compare(b, a)
  {
    var va := "v" + a;
    assert Trimmed(va) by {
      assert va[0] == 'v' && va[|va| - 1] == a[|a| - 1];
    }
    assert w + "v" + a == w + va;
    TrimSpaceSkipsSpaces(w, va);
    TrimSpaceSkipsSpaces(w, a);
    TrimSpaceOfTrimmed(va);
    TrimSpaceOfTrimmed(a);
    assert TrimPrefix(va, "v") == a by {
      assert va[..1] == "v" && va[1..] == a;
    }
    assert !HasPrefix(a, "v") by {
      assert a[..1] != "v" by { assert a[..1][0] == a[0]; }
    }
  }

  lemma {:induction false} CompareFromReflexive(vs: seq<int>, i: nat)
    ensures CompareFrom(vs, vs, i) == 0
    decreases |vs| - i
  {
    if i < |vs| {
      CompareFromReflexive(vs, i + 1);
    }
  }

  /** Every version equals itself. */
  lemma CompareReflexive(a: string)
    ensures Compare(a, a) == 0
  {
    CompareFromReflexive(Values(Parts(a)), 0);
  }

  lemma {:induction false} CompareFromAntisymmetric(av: seq<int>, bv: seq<int>, i: nat)
    ensures CompareFrom(av, bv, i) == -CompareFrom(bv, av, i)
    decreases Max(|av|, |bv|) - i
  {
    if i < Max(|av|, |bv|) && PartAt(av, i) == PartAt(bv, i) {
      CompareFromAntisymmetric(av, bv, i + 1);
    }
  }

  /** Swapping the operands negates the comparison. */
  lemma CompareAntisymmetric(a: string, b: string)
    ensures Compare(a, b) == -Compare(b, a)
  {
    CompareFromAntisymmetric(Values(Parts(a)), Values(Parts(b)), 0);
  }

  /** Value lists that agree everywhere compare equal, whatever their lengths. */
  lemma {:induction false} SameValuesCompareEqual(av: seq<int>, bv: seq<int>, i: nat)
    requires forall k :: i <= k ==> PartAt(av, k) == PartAt(bv, k)
    ensures CompareFrom(av, bv, i) == 0
    decreases Max(|av|, |bv|) - i
  {
    if i < Max(|av|, |bv|) {
      SameValuesCompareEqual(av, bv, i + 1);
    }
  }

  /**
   * The comparison depends only on the values read past the end as 0:
   * replacing either side by a list that reads the same everywhere (such as
   * one with trailing zeros added) does not change it.
   */
  lemma {:induction false} CompareByValues(av: seq<int>, bv: seq<int>, cv: seq<int>, dv: seq<int>, i: nat)
    requires forall k :: i <= k ==> PartAt(av, k) == PartAt(cv, k)
    requires forall k :: i <= k ==> PartAt(bv, k) == PartAt(dv, k)
    ensures CompareFrom(av, bv, i) == CompareFrom(cv, dv, i)
    decreases Max(|av|, |bv|) + Max(|cv|, |dv|) - 2 * i
  {
    if i >= Max(|av|, |bv|) {
      SameValuesCompareEqual(cv, dv, i);
    } else if i >= Max(|cv|, |dv|) {
      SameValuesCompareEqual(av, bv, i);
    } else if PartAt(av, i) == PartAt(bv, i) {
      CompareByValues(av, bv, cv, dv, i + 1);
    }
  }

  /** Parts that read as 0 at the end of a version do not change how it compares. */
  lemma {:induction false} TrailingZerosIgnored(av: seq<int>, zeros: seq<int>, bv: seq<int>)
    requires forall k :: 0 <= k < |zeros| ==> zeros[k] == 0
    ensures CompareFrom(av + zeros, bv, 0) == CompareFrom(av, bv, 0)
  {
    forall k: nat
      ensures PartAt(av + zeros, k) == PartAt(av, k)
    {
      if |av| <= k < |av + zeros| {
        assert (av + zeros)[k] == zeros[k - |av|];
      }
    }
    CompareByValues(av + zeros, bv, av, bv, 0);
  }

  /** The parts of a version written with plain digit parts and no `v` are those parts. */
  lemma {:induction false} PartsOfDigits(version: string, ps: seq<string>)
    requires |ps| >= 1 && forall k :: 0 <= k < |ps| ==> ps[k] != [] && AllDigits(ps[k])
    requires version == Join(ps, '.')
    ensures Parts(version) == ps
  {
    assert version[0] == ps[0][0] by {
      if |ps| > 1 {
        assert version == ps[0] + ['.'] + Join(ps[1..], '.');
      }
    }
    assert TrimPrefix(TrimSpace(version), "v") == version by {
      JoinDigitsTrimmed(ps);
      TrimSpaceOfTrimmed(version);
    }
    SplitJoin(ps, '.');
  }

  lemma {:induction false} JoinDigitsTrimmed(ps: seq<string>)
    requires |ps| >= 1 && forall k :: 0 <= k < |ps| ==> ps[k] != [] && AllDigits(ps[k])
    ensures var j := Join(ps, '.'); j != [] && IsDigit(j[0]) && IsDigit(j[|j| - 1]) && Trimmed(j)
  {
    if |ps| > 1 {
      JoinDigitsTrimmed(ps[1..]);
      var j := Join(ps, '.');
      assert j == ps[0] + ['.'] + Join(ps[1..], '.');
      assert j[0] == ps[0][0];
    }
  }

  /** Adding the part "0" keeps every part a digit string and adds the value 0. */
  lemma {:induction false} ZeroPart(ps: seq<string>)
    requires forall k :: 0 <= k < |ps| ==> ps[k] != [] && AllDigits(ps[k])
    ensures Values(ps + ["0"]) == Values(ps) + [0]
    ensures forall k :: 0 <= k < |ps + ["0"]| ==> (ps + ["0"])[k] != [] && AllDigits((ps + ["0"])[k])
  {
    assert AllDigits("0");
    forall k | 0 <= k < |ps + ["0"]|
      ensures (ps + ["0"])[k] != [] && AllDigits((ps + ["0"])[k])
      ensures Values(ps + ["0"])[k] == (Values(ps) + [0])[k]
    {
      if k == |ps| {
        assert (ps + ["0"])[k] == "0";
      } else {
        assert (ps + ["0"])[k] == ps[k];
      }
    }
  }

  /** A version and the same version with a `.0` part added compare equal ("1.2" and "1.2.0"). */
  lemma {:induction false} MissingPartIsZero(ps: seq<string>)
    requires |ps| >= 1 && forall k :: 0 <= k < |ps| ==> ps[k] != [] && AllDigits(ps[k])
    ensures Compare(Join(ps, '.'), Join(ps + ["0"], '.')) == 0
  {
    var long := ps + ["0"];
    ZeroPart(ps);
    PartsOfDigits(Join(ps, '.'), ps);
    PartsOfDigits(Join(long, '.'), long);
    var vs := Values(ps);
    TrailingZerosIgnored(vs, [0], vs);
    CompareFromReflexive(vs, 0);
    CompareFromAntisymmetric(vs, vs + [0], 0);
  }

  /** Values that agree up to `k` leave the comparison to the values from `k` on. */
  lemma {:induction false} CompareFromEqualPrefix(av: seq<int>, bv: seq<int>, i: nat, k: nat)
    requires i <= k <= Max(|av|, |bv|)
    requires forall l :: i <= l < k ==> PartAt(av, l) == PartAt(bv, l)
    ensures CompareFrom(av, bv, i) == CompareFrom(av, bv, k)
    decreases k - i
  {
    if i < k {
      CompareFromEqualPrefix(av, bv, i + 1, k);
    }
  }

  /**
   * Parts compare as numbers, not as strings: of two versions written with
   * digit parts that agree up to part `k`, the one whose part `k` has the
   * larger value is newer, so "1.10" is newer than "1.9".
   */
  lemma PartsCompareNumerically(ps: seq<string>, qs: seq<string>, k: nat)
    requires |ps| >= 1 && forall l :: 0 <= l < |ps| ==> ps[l] != [] && AllDigits(ps[l])
    requires |qs| >= 1 && forall l :: 0 <= l < |qs| ==> qs[l] != [] && AllDigits(qs[l])
    requires k < |ps| && k < |qs| && forall l :: 0 <= l < k ==> ps[l] == qs[l]
    requires DigitsValue(ps[k]) > DigitsValue(qs[k])
    ensures Compare(Join(ps, '.'), Join(qs, '.')) == 1
    ensures Compare(Join(qs, '.'), Join(ps, '.')) == -1
  {
    PartsOfDigits(Join(ps, '.'), ps);
    PartsOfDigits(Join(qs, '.'), qs);
    DigitValues(ps, qs, k);
    ValuesDecide(Values(ps), Values(qs), k);
  }

  lemma DigitValues(ps: seq<string>, qs: seq<string>, k: nat)
    requires k < |ps| && k < |qs| && forall l :: 0 <= l < k ==> ps[l] == qs[l]
    requires ps[k] != [] && AllDigits(ps[k]) && qs[k] != [] && AllDigits(qs[k])
    requires DigitsValue(ps[k]) > DigitsValue(qs[k])
    ensures forall l :: 0 <= l < k ==> Values(ps)[l] == Values(qs)[l]
    ensures Values(ps)[k] > Values(qs)[k]
  {
  }

  /** The first differing value decides the comparison, in both directions. */
  lemma ValuesDecide(av: seq<int>, bv: seq<int>, k: nat)
    requires k < |av| && k < |bv| && forall l :: 0 <= l < k ==> av[l] == bv[l]
    requires av[k] > bv[k]
    ensures CompareFrom(av, bv, 0) == 1 && CompareFrom(bv, av, 0) == -1
  {
    CompareFromEqualPrefix(av, bv, 0, k);
    CompareFromAntisymmetric(av, bv, 0);
  }
}
