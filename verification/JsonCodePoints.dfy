/**
 The key order of the canonical form against the order of a serializer whose strings are
 sequences of code points, as in Python, and which therefore sorts keys by code point.
 */
module JsonCodePoints {
  import opened JsonValues

  predicate IsHigh(c: CodeUnit) {
    0xd800 <= c < 0xdc00
  }

  predicate IsLow(c: CodeUnit) {
    0xdc00 <= c < 0xe000
  }

  predicate StartsPair(s: Str) {
    |s| > 1 && IsHigh(s[0]) && IsLow(s[1])
  }

  /** The string as code points: a surrogate pair is one, a lone surrogate stands for itself. */
  function CodePoints(s: Str): seq<nat> {
    if s == [] then []
    else if StartsPair(s) then
      [0x1_0000 + 0x400 * (s[0] - 0xd800) + (s[1] - 0xdc00)] + CodePoints(s[2..])
    else [s[0]] + CodePoints(s[1..])
  }

  predicate Less(xs: seq<nat>, ys: seq<nat>) {
    ys != [] && (xs == [] || xs[0] < ys[0] || (xs[0] == ys[0] && Less(xs[1..], ys[1..])))
  }

  predicate CodePointLess(a: Str, b: Str) {
    Less(CodePoints(a), CodePoints(b))
  }

  /** The number of leading code units that two strings share. */
  function Shared(a: Str, b: Str): (n: nat)
    ensures n <= |a| && n <= |b|
  {
    if a == [] || b == [] || a[0] != b[0] then 0 else 1 + Shared(a[1..], b[1..])
  }

  /** The code unit belongs to a surrogate pair. */
  predicate InPair(s: Str, i: nat)
    requires i < |s|
  {
    (IsHigh(s[i]) && i + 1 < |s| && IsLow(s[i + 1])) || (IsLow(s[i]) && i > 0 && IsHigh(s[i - 1]))
  }

  predicate Below(a: Str, b: Str, i: nat)
    requires i < |a| && i < |b|
  {
    InPair(a, i) && !InPair(b, i) && a[i] < b[i]
  }

  /**
   Where the strings first differ, one of them is inside a surrogate pair and the other holds a
   greater code unit that is not.  In well-formed strings that is a unit from 0xe000 on.
   */
  predicate Crossed(a: Str, b: Str) {
    var i := Shared(a, b);
    i < |a| && i < |b| && (Below(a, b, i) || Below(b, a, i))
  }

  lemma SharedNext(a: Str, b: Str)
    requires a != [] && b != [] && a[0] == b[0]
    requires StartsPair(a) <==> StartsPair(b)
    ensures !StartsPair(a) ==> (Crossed(a, b) <==> Crossed(a[1..], b[1..]))
    ensures StartsPair(a) && a[1] == b[1] ==> (Crossed(a, b) <==> Crossed(a[2..], b[2..]))
  {
    var n := if StartsPair(a) then 2 else 1;
    if n == 2 && a[1] == b[1] {
      assert a[1..][1..] == a[2..] && b[1..][1..] == b[2..];
      assert Shared(a[1..], b[1..]) == 1 + Shared(a[2..], b[2..]);
    }
  }

  /** A pair is a code point beyond every lone code unit. */
  lemma PairAgainstUnit(a: Str, b: Str)
    requires StartsPair(a) && b != [] && !StartsPair(b)
    ensures CodePointLess(b, a) && !CodePointLess(a, b)
    ensures Crossed(a, b) <==> LexLess(a, b)
    ensures Crossed(a, b) <==> !LexLess(b, a)
  {
    LexTotal(a, b);
    if a[0] == b[0] && |b| > 1 {
      assert Shared(a[1..], b[1..]) == 0;
      assert LexLess(a, b) <==> a[1] < b[1];
    }
  }

  lemma CrossedSymmetric(a: Str, b: Str)
    ensures Crossed(a, b) <==> Crossed(b, a)
  {
    SharedSymmetric(a, b);
  }

  lemma {:induction false} SharedSymmetric(a: Str, b: Str)
    ensures Shared(a, b) == Shared(b, a)
  {
    if a != [] && b != [] && a[0] == b[0] {
      SharedSymmetric(a[1..], b[1..]);
    }
  }

  lemma PairsDiffer(a: Str, b: Str)
    requires StartsPair(a) && StartsPair(b) && (a[0] != b[0] || a[1] != b[1])
    ensures !Crossed(a, b)
    ensures CodePointLess(a, b) <==> LexLess(a, b)
  {
    if a[0] == b[0] {
      assert Shared(a[1..], b[1..]) == 0;
      assert LexLess(a, b) <==> a[1] < b[1];
    }
  }

  /** Code points and code units order two strings alike except when the strings cross. */
  lemma {:induction false} CodePointOrder(a: Str, b: Str)
    ensures CodePointLess(a, b) <==> if Crossed(a, b) then LexLess(b, a) else LexLess(a, b)
    decreases |a|
  {
    if a == [] || b == [] {
    } else if StartsPair(a) != StartsPair(b) {
      if StartsPair(a) { PairAgainstUnit(a, b); } else { PairAgainstUnit(b, a); }
      CrossedSymmetric(a, b);
    } else if StartsPair(a) {
      if a[..2] == b[..2] {
        assert a[0] == a[..2][0] == b[..2][0] == b[0] && a[1] == a[..2][1] == b[..2][1] == b[1];
        SharedNext(a, b);
        CodePointOrder(a[2..], b[2..]);
        SkipPair(a, b);
      } else {
        PairsDiffer(a, b);
      }
    } else if a[0] == b[0] {
      SharedNext(a, b);
      CodePointOrder(a[1..], b[1..]);
    }
  }

  lemma SkipPair(a: Str, b: Str)
    requires StartsPair(a) && StartsPair(b) && a[0] == b[0] && a[1] == b[1]
    ensures LexLess(a, b) <==> LexLess(a[2..], b[2..])
    ensures LexLess(b, a) <==> LexLess(b[2..], a[2..])
    ensures CodePointLess(a, b) <==> CodePointLess(a[2..], b[2..])
  {
    assert a[1..][1..] == a[2..] && b[1..][1..] == b[2..];
    assert LexLess(a, b) <==> LexLess(a[1..], b[1..]);
  }

  lemma IndexNeverCrosses(a: Str, b: Str)
    requires IsIndex(a)
    ensures !Crossed(a, b) && !Crossed(b, a)
  {
    CrossedSymmetric(a, b);
    var i := Shared(a, b);
    if i < |a| && i < |b| {
      assert IsDigit(a[i]);
    }
  }

  predicate CodePointOrdered(fs: seq<Field>) {
    forall i, j :: 0 <= i < j < |fs| ==> CodePointLess(fs[i].key, fs[j].key)
  }

  /** No two keys cross; keys that are array indices never do. */
  predicate NoneCrossed(fs: seq<Field>) {
    forall i, j :: 0 <= i < |fs| && 0 <= j < |fs| ==> !Crossed(fs[i].key, fs[j].key)
  }

  /**
   The keys of a canonical object come out in code-point order exactly when its array-index
   keys also sort as text and no two of its keys cross.
   */
  lemma CodePointOrderIff(fs: seq<Field>)
    requires DistinctKeys(fs)
    ensures CodePointOrdered(PropertyOrder(SortLex(fs))) <==> IndexKeysSortAsText(fs) && NoneCrossed(fs)
  {
    if CodePointOrdered(PropertyOrder(SortLex(fs))) {
      OrderedSortsAsText(fs);
      OrderedNeverCrosses(fs);
    }
    if IndexKeysSortAsText(fs) && NoneCrossed(fs) {
      UncrossedIsOrdered(fs);
    }
  }

  lemma BothOrdersAgree(ps: seq<Field>, p: nat, q: nat)
    requires Ordered(ps) && CodePointOrdered(ps) && p < |ps| && q < |ps| && KeyLess(ps[p].key, ps[q].key)
    ensures CodePointLess(ps[p].key, ps[q].key)
  {
    KeyTotal(ps[p].key, ps[q].key);
    KeyTotal(ps[p].key, ps[p].key);
  }

  /** In the object as built, the smaller key of two comes first. */
  lemma Precedes(fs: seq<Field>, i: nat, j: nat)
    requires DistinctKeys(fs) && i < |fs| && j < |fs| && KeyLess(fs[i].key, fs[j].key)
    requires CodePointOrdered(PropertyOrder(SortLex(fs)))
    ensures CodePointLess(fs[i].key, fs[j].key)
  {
    PropertyOrderSorts(fs);
    var ps := PropertyOrder(SortLex(fs));
    var p := Position(fs, ps, i);
    var q := Position(fs, ps, j);
    BothOrdersAgree(ps, p, q);
  }

  lemma OrderedSortsAsText(fs: seq<Field>)
    requires DistinctKeys(fs) && CodePointOrdered(PropertyOrder(SortLex(fs)))
    ensures IndexKeysSortAsText(fs)
  {
    forall i, j | 0 <= i < |fs| && 0 <= j < |fs| && IsIndex(fs[i].key) && KeyLess(fs[i].key, fs[j].key)
      ensures LexLess(fs[i].key, fs[j].key)
    {
      Precedes(fs, i, j);
      IndexNeverCrosses(fs[i].key, fs[j].key);
      CodePointOrder(fs[i].key, fs[j].key);
    }
  }

  lemma OrderedNeverCrosses(fs: seq<Field>)
    requires DistinctKeys(fs) && CodePointOrdered(PropertyOrder(SortLex(fs)))
    ensures NoneCrossed(fs)
  {
    forall i, j | 0 <= i < |fs| && 0 <= j < |fs| && Crossed(fs[i].key, fs[j].key) ensures false {
      var a, b := fs[i].key, fs[j].key;
      if IsIndex(a) { IndexNeverCrosses(a, b); }
      if IsIndex(b) { IndexNeverCrosses(b, a); }
      CrossedSymmetric(a, b);
      CodePointOrder(a, b);
      CodePointOrder(b, a);
      LexTotal(a, b);
      if KeyLess(a, b) { Precedes(fs, i, j); } else { Precedes(fs, j, i); }
    }
  }

  lemma UncrossedIsOrdered(fs: seq<Field>)
    requires DistinctKeys(fs) && IndexKeysSortAsText(fs) && NoneCrossed(fs)
    ensures CodePointOrdered(PropertyOrder(SortLex(fs)))
  {
    TextOrderIsKept(fs);
    SortLexSorts(fs);
    var s := SortLex(fs);
    forall p, q | 0 <= p < q < |s| ensures CodePointLess(s[p].key, s[q].key) {
      var i := Position(s, fs, p);
      var j := Position(s, fs, q);
      CodePointOrder(s[p].key, s[q].key);
    }
  }

  /** The keys U+E000 and U+10000: no index among them, and still not in code-point order. */
  lemma SurrogateCounterexample(e000: Field, u10000: Field)
    requires e000.key == [0xe000] && u10000.key == [0xd800, 0xdc00]
    ensures IndexKeysSortAsText([e000, u10000])
    ensures PropertyOrder(SortLex([e000, u10000])) == [u10000, e000]
    ensures CodePointLess(e000.key, u10000.key)
    ensures !CodePointOrdered(PropertyOrder(SortLex([e000, u10000])))
  {
    var fs := [e000, u10000];
    assert !IsIndex(e000.key) && !IsIndex(u10000.key);
    assert SortLex([u10000]) == [u10000];
    assert fs[1..] == [u10000] && [u10000][1..] == [];
    assert LexLess(u10000.key, e000.key);
    assert SortLex(fs) == InsertLex(e000, [u10000]) == [u10000] + InsertLex(e000, []);
    assert SortLex(fs) == [u10000, e000];
    TextOrderIsKept(fs);
    PairAgainstUnit(u10000.key, e000.key);
    assert Crossed(fs[0].key, fs[1].key) by { CrossedSymmetric(fs[0].key, fs[1].key); }
    CodePointOrderIff(fs);
  }
}
