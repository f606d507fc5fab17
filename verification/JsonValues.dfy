/**
 JSON values as JavaScript holds them, and the order in which JavaScript enumerates
 the keys of an object.  Strings are sequences of UTF-16 code units, so lone
 surrogates are ordinary strings.  A number is the text `Number::toString` gives it.
 */
module JsonValues {

  type CodeUnit = c: int | 0 <= c < 0x1_0000

  type Str = seq<CodeUnit>

  datatype Json =
    | Null
    | Bool(b: bool)
    | Number(lexeme: Str)
    | String(s: Str)
    | Array(items: seq<Json>)
    | Object(fields: seq<Field>)

  datatype Field = Field(key: Str, value: Json)

  /// Keys

  predicate IsDigit(c: CodeUnit) {
    0x30 <= c <= 0x39
  }

  predicate AllDigits(s: Str) {
    forall i :: 0 <= i < |s| ==> IsDigit(s[i])
  }

  /** The number a digit string denotes. */
  function DecimalValue(s: Str): nat
    requires AllDigits(s)
  {
    if s == [] then 0 else 10 * DecimalValue(s[..|s| - 1]) + (s[|s| - 1] - 0x30)
  }

  /** A decimal with no redundant leading zero. */
  predicate IsCanonicalDecimal(s: Str) {
    |s| > 0 && AllDigits(s) && (s[0] == 0x30 ==> |s| == 1)
  }

  /** An ECMAScript array index: these keys are enumerated before all others. */
  predicate IsIndex(s: Str) {
    IsCanonicalDecimal(s) && DecimalValue(s) <= 0xffff_fffe
  }

  /** String comparison by code unit, the default order of `Array.prototype.sort`. */
  predicate LexLess(a: Str, b: Str) {
    b != [] && (a == [] || a[0] < b[0] || (a[0] == b[0] && LexLess(a[1..], b[1..])))
  }

  /** The order of keys in an object built from entries sorted by code unit. */
  predicate KeyLess(a: Str, b: Str) {
    if IsIndex(a) then !IsIndex(b) || DecimalValue(a) < DecimalValue(b)
    else !IsIndex(b) && LexLess(a, b)
  }

  lemma {:induction false} DecimalPositive(s: Str)
    requires IsCanonicalDecimal(s) && s[0] != 0x30
    ensures DecimalValue(s) > 0
  {
    if |s| > 1 {
      DecimalPositive(s[..|s| - 1]);
    }
  }

  lemma SplitLastDigit(x: nat, d: nat, y: nat, e: nat)
    requires d < 10 && e < 10 && 10 * x + d == 10 * y + e
    ensures x == y && d == e
  {
  }

  lemma {:induction false} DecimalInjective(a: Str, b: Str)
    requires IsCanonicalDecimal(a) && IsCanonicalDecimal(b)
    requires DecimalValue(a) == DecimalValue(b)
    ensures a == b
  {
    var a', b' := a[..|a| - 1], b[..|b| - 1];
    assert a == a' + [a[|a| - 1]] && b == b' + [b[|b| - 1]];
    SplitLastDigit(DecimalValue(a'), a[|a| - 1] - 0x30, DecimalValue(b'), b[|b| - 1] - 0x30);
    if |a| > 1 {
      DecimalPositive(a');
    }
    if |b| > 1 {
      DecimalPositive(b');
      if |a| > 1 {
        DecimalInjective(a', b');
      }
    }
  }

  lemma {:induction false} LexTotal(a: Str, b: Str)
    ensures LexLess(a, b) || a == b || LexLess(b, a)
    ensures !(LexLess(a, b) && LexLess(b, a))
    decreases |a| + |b|
  {
    if a != [] && b != [] && a[0] == b[0] {
      LexTotal(a[1..], b[1..]);
      assert a == [a[0]] + a[1..] && b == [b[0]] + b[1..];
    }
  }

  lemma {:induction false} LexTransitive(a: Str, b: Str, c: Str)
    requires LexLess(a, b) && LexLess(b, c)
    ensures LexLess(a, c)
  {
    if a != [] && a[0] == b[0] == c[0] {
      LexTransitive(a[1..], b[1..], c[1..]);
    }
  }

  lemma KeyTotal(a: Str, b: Str)
    ensures KeyLess(a, b) || a == b || KeyLess(b, a)
    ensures !(KeyLess(a, b) && KeyLess(b, a))
  {
    LexTotal(a, b);
    if IsIndex(a) && IsIndex(b) && DecimalValue(a) == DecimalValue(b) {
      DecimalInjective(a, b);
    }
  }

  lemma KeyTransitive(a: Str, b: Str, c: Str)
    requires KeyLess(a, b) && KeyLess(b, c)
    ensures KeyLess(a, c)
  {
    if !IsIndex(a) {
      LexTransitive(a, b, c);
    }
  }

  /// Well-formed values

  predicate DistinctKeys(fs: seq<Field>) {
    forall i, j :: 0 <= i < j < |fs| ==> fs[i].key != fs[j].key
  }

  /** A value in which no object has two properties with one key. */
  predicate Unambiguous(v: Json) {
    match v
    case Array(items) => forall i :: 0 <= i < |items| ==> Unambiguous(items[i])
    case Object(fields) =>
      DistinctKeys(fields) && forall i :: 0 <= i < |fields| ==> Unambiguous(fields[i].value)
    case _ => true
  }

  function KeySet(fs: seq<Field>): set<Str> {
    set f | f in fs :: f.key
  }

  /** Equal up to the order of object keys, at every depth. */
  predicate Same(a: Json, b: Json) {
    match (a, b)
    case (Array(xs), Array(ys)) =>
      |xs| == |ys| && forall i :: 0 <= i < |xs| ==> Same(xs[i], ys[i])
    case (Object(fs), Object(gs)) =>
      && KeySet(fs) == KeySet(gs)
      && forall i, j :: 0 <= i < |fs| && 0 <= j < |gs| && fs[i].key == gs[j].key ==>
           Same(fs[i].value, gs[j].value)
    case _ => a == b
  }

  /// Sorting, and the key order of an object made by Object.fromEntries

  /** Insert by code-unit order; the keys of `fs` differ from the new one. */
  function InsertLex(f: Field, fs: seq<Field>): seq<Field> {
    if fs == [] then [f]
    else if LexLess(fs[0].key, f.key) then [fs[0]] + InsertLex(f, fs[1..])
    else [f] + fs
  }

  function SortLex(fs: seq<Field>): seq<Field> {
    if fs == [] then [] else InsertLex(fs[0], SortLex(fs[1..]))
  }

  function IndexFields(fs: seq<Field>): (r: seq<Field>)
    ensures forall i :: 0 <= i < |r| ==> IsIndex(r[i].key)
  {
    if fs == [] then []
    else (if IsIndex(fs[0].key) then [fs[0]] else []) + IndexFields(fs[1..])
  }

  function NamedFields(fs: seq<Field>): (r: seq<Field>)
    ensures forall i :: 0 <= i < |r| ==> !IsIndex(r[i].key)
  {
    if fs == [] then []
    else (if IsIndex(fs[0].key) then [] else [fs[0]]) + NamedFields(fs[1..])
  }

  function InsertNumeric(f: Field, fs: seq<Field>): (r: seq<Field>)
    requires IsIndex(f.key)
    requires forall i :: 0 <= i < |fs| ==> IsIndex(fs[i].key)
    ensures forall i :: 0 <= i < |r| ==> IsIndex(r[i].key)
  {
    if fs == [] then [f]
    else if IsIndex(fs[0].key) && DecimalValue(fs[0].key) < DecimalValue(f.key) then [fs[0]] + InsertNumeric(f, fs[1..])
    else [f] + fs
  }

  function SortNumeric(fs: seq<Field>): (r: seq<Field>)
    requires forall i :: 0 <= i < |fs| ==> IsIndex(fs[i].key)
    ensures forall i :: 0 <= i < |r| ==> IsIndex(r[i].key)
  {
    if fs == [] then [] else InsertNumeric(fs[0], SortNumeric(fs[1..]))
  }

  /** The own-property order of an object whose properties were created in the order `fs`. */
  function PropertyOrder(fs: seq<Field>): seq<Field> {
    SortNumeric(IndexFields(fs)) + NamedFields(fs)
  }

  /** `sort` of external-seller.ts: keys sorted by code unit, then rebuilt as an object. */
  function Canonical(v: Json): Json {
    match v
    case Array(items) => Array(seq(|items|, i requires 0 <= i < |items| => Canonical(items[i])))
    case Object(fields) => Object(PropertyOrder(SortLex(CanonicalFields(fields))))
    case _ => v
  }

  function CanonicalFields(fs: seq<Field>): (r: seq<Field>)
    ensures |r| == |fs|
    ensures forall i :: 0 <= i < |fs| ==> r[i] == Field(fs[i].key, Canonical(fs[i].value))
  {
    if fs == [] then []
    else [Field(fs[0].key, Canonical(fs[0].value))] + CanonicalFields(fs[1..])
  }

  function FieldSet(fs: seq<Field>): set<Field> {
    set f | f in fs
  }

  lemma FieldSetCons(f: Field, fs: seq<Field>)
    ensures FieldSet([f] + fs) == {f} + FieldSet(fs)
  {
  }

  lemma FieldSetEmpty(fs: seq<Field>)
    ensures FieldSet(fs) == {} <==> fs == []
  {
    if fs != [] { assert fs[0] in FieldSet(fs); }
  }

  /** Keys strictly increasing in enumeration order. */
  predicate Ordered(fs: seq<Field>) {
    forall i, j :: 0 <= i < j < |fs| ==> KeyLess(fs[i].key, fs[j].key)
  }

  predicate LexOrdered(fs: seq<Field>) {
    forall i, j :: 0 <= i < j < |fs| ==> LexLess(fs[i].key, fs[j].key)
  }

  lemma {:induction false} InsertLexSorts(f: Field, fs: seq<Field>)
    requires LexOrdered(fs)
    requires forall i :: 0 <= i < |fs| ==> fs[i].key != f.key
    ensures LexOrdered(InsertLex(f, fs))
    ensures FieldSet(InsertLex(f, fs)) == {f} + FieldSet(fs)
  {
    if fs != [] {
      var r := InsertLex(f, fs[1..]);
      assert fs == [fs[0]] + fs[1..];
      FieldSetCons(fs[0], fs[1..]);
      FieldSetCons(f, fs);
      FieldSetCons(fs[0], r);
      LexTotal(fs[0].key, f.key);
      if LexLess(fs[0].key, f.key) {
        InsertLexSorts(f, fs[1..]);
        forall i | 0 <= i < |r| ensures LexLess(fs[0].key, r[i].key) {
          assert r[i] in FieldSet(r);
          assert r[i] == f || r[i] in fs[1..];
        }
      } else {
        forall i | 0 <= i < |fs| ensures LexLess(f.key, fs[i].key) {
          if i > 0 { LexTransitive(f.key, fs[0].key, fs[i].key); }
        }
      }
    }
  }

  lemma {:induction false} SortLexSorts(fs: seq<Field>)
    requires DistinctKeys(fs)
    ensures LexOrdered(SortLex(fs))
    ensures FieldSet(SortLex(fs)) == FieldSet(fs)
  {
    if fs != [] {
      SortLexSorts(fs[1..]);
      assert fs == [fs[0]] + fs[1..];
      FieldSetCons(fs[0], fs[1..]);
      var s := SortLex(fs[1..]);
      forall i | 0 <= i < |s| ensures s[i].key != fs[0].key {
        assert s[i] in FieldSet(s);
        assert s[i] in fs[1..];
      }
      InsertLexSorts(fs[0], s);
    }
  }

  lemma {:induction false} InsertNumericSorts(f: Field, fs: seq<Field>)
    requires IsIndex(f.key) && forall i :: 0 <= i < |fs| ==> IsIndex(fs[i].key)
    requires Ordered(fs)
    requires forall i :: 0 <= i < |fs| ==> fs[i].key != f.key
    ensures Ordered(InsertNumeric(f, fs))
    ensures FieldSet(InsertNumeric(f, fs)) == {f} + FieldSet(fs)
  {
    if fs != [] {
      var r := InsertNumeric(f, fs[1..]);
      assert fs == [fs[0]] + fs[1..];
      FieldSetCons(fs[0], fs[1..]);
      FieldSetCons(f, fs);
      FieldSetCons(fs[0], r);
      KeyTotal(fs[0].key, f.key);
      if KeyLess(fs[0].key, f.key) {
        InsertNumericSorts(f, fs[1..]);
        forall i | 0 <= i < |r| ensures KeyLess(fs[0].key, r[i].key) {
          assert r[i] in FieldSet(r);
          assert r[i] == f || r[i] in fs[1..];
        }
      } else {
        forall i | 0 <= i < |fs| ensures KeyLess(f.key, fs[i].key) {
          if i > 0 { KeyTransitive(f.key, fs[0].key, fs[i].key); }
        }
      }
    }
  }

  lemma {:induction false} SortNumericSorts(fs: seq<Field>)
    requires forall i :: 0 <= i < |fs| ==> IsIndex(fs[i].key)
    requires DistinctKeys(fs)
    ensures Ordered(SortNumeric(fs))
    ensures FieldSet(SortNumeric(fs)) == FieldSet(fs)
  {
    if fs != [] {
      SortNumericSorts(fs[1..]);
      assert fs == [fs[0]] + fs[1..];
      FieldSetCons(fs[0], fs[1..]);
      var s := SortNumeric(fs[1..]);
      forall i | 0 <= i < |s| ensures s[i].key != fs[0].key {
        assert s[i] in FieldSet(s);
        assert s[i] in fs[1..];
      }
      InsertNumericSorts(fs[0], s);
    }
  }

  /** Splitting a code-unit-sorted list keeps every field and leaves both parts sorted. */
  lemma {:induction false} SplitFields(fs: seq<Field>)
    requires LexOrdered(fs)
    ensures LexOrdered(IndexFields(fs)) && LexOrdered(NamedFields(fs))
    ensures FieldSet(IndexFields(fs)) + FieldSet(NamedFields(fs)) == FieldSet(fs)
  {
    if fs != [] {
      SplitFields(fs[1..]);
      assert fs == [fs[0]] + fs[1..];
      FieldSetCons(fs[0], fs[1..]);
      var xs, ns := IndexFields(fs[1..]), NamedFields(fs[1..]);
      FieldSetCons(fs[0], xs);
      FieldSetCons(fs[0], ns);
      HeadStaysFirst(fs, xs);
      HeadStaysFirst(fs, ns);
    }
  }

  lemma HeadStaysFirst(fs: seq<Field>, xs: seq<Field>)
    requires LexOrdered(fs) && fs != [] && LexOrdered(xs) && FieldSet(xs) <= FieldSet(fs[1..])
    ensures LexOrdered([fs[0]] + xs)
  {
    forall i | 0 <= i < |xs| ensures LexLess(fs[0].key, xs[i].key) {
      assert xs[i] in FieldSet(xs);
      assert xs[i] in fs[1..];
    }
  }

  lemma LexOrderedDistinct(fs: seq<Field>)
    requires LexOrdered(fs)
    ensures DistinctKeys(fs)
  {
    forall i, j | 0 <= i < j < |fs| ensures fs[i].key != fs[j].key {
      LexTotal(fs[i].key, fs[j].key);
    }
  }

  lemma OrderedDistinct(fs: seq<Field>)
    requires Ordered(fs)
    ensures DistinctKeys(fs)
  {
    forall i, j | 0 <= i < j < |fs| ensures fs[i].key != fs[j].key {
      KeyTotal(fs[i].key, fs[j].key);
    }
  }

  /** Sorting by code unit and rebuilding the object puts every field in enumeration order. */
  lemma PropertyOrderSorts(fs: seq<Field>)
    requires DistinctKeys(fs)
    ensures Ordered(PropertyOrder(SortLex(fs)))
    ensures FieldSet(PropertyOrder(SortLex(fs))) == FieldSet(fs)
  {
    SortLexSorts(fs);
    var s := SortLex(fs);
    SplitFields(s);
    LexOrderedDistinct(IndexFields(s));
    SortNumericSorts(IndexFields(s));
    var xs, ns := SortNumeric(IndexFields(s)), NamedFields(s);
    assert FieldSet(xs + ns) == FieldSet(xs) + FieldSet(ns);
  }

  /** Two field lists in enumeration order with the same fields are the same list. */
  lemma {:induction false} OrderedUnique(xs: seq<Field>, ys: seq<Field>)
    requires Ordered(xs) && Ordered(ys) && FieldSet(xs) == FieldSet(ys)
    ensures xs == ys
  {
    FieldSetEmpty(xs);
    FieldSetEmpty(ys);
    if xs != [] {
      assert xs[0] in FieldSet(ys);
      var j :| 0 <= j < |ys| && ys[j] == xs[0];
      assert ys[0] in FieldSet(xs);
      var i :| 0 <= i < |xs| && xs[i] == ys[0];
      KeyTotal(xs[0].key, ys[0].key);
      assert i == 0 && j == 0;
      assert xs == [xs[0]] + xs[1..] && ys == [ys[0]] + ys[1..];
      HeadNotInTail(xs);
      HeadNotInTail(ys);
      FieldSetCons(xs[0], xs[1..]);
      FieldSetCons(ys[0], ys[1..]);
      assert FieldSet(xs[1..]) == FieldSet(xs) - {xs[0]};
      assert FieldSet(ys[1..]) == FieldSet(ys) - {ys[0]};
      OrderedUnique(xs[1..], ys[1..]);
    }
  }

  lemma HeadNotInTail(xs: seq<Field>)
    requires Ordered(xs) && xs != []
    ensures xs[0] !in FieldSet(xs[1..])
  {
    OrderedDistinct(xs);
  }

  lemma CanonicalFieldsDistinct(fs: seq<Field>)
    requires DistinctKeys(fs)
    ensures DistinctKeys(CanonicalFields(fs))
  {
  }

  /** On the members of two objects, equal canonical forms mean equality up to key order. */
  ghost predicate MembersAgree(fs: seq<Field>, gs: seq<Field>) {
    forall i, j :: 0 <= i < |fs| && 0 <= j < |gs| ==>
      (Canonical(fs[i].value) == Canonical(gs[j].value) <==> Same(fs[i].value, gs[j].value))
  }

  lemma MemberMatch(fs: seq<Field>, gs: seq<Field>, i: nat, j: nat)
    requires MembersAgree(fs, gs) && i < |fs| && j < |gs|
    ensures CanonicalFields(fs)[i] == CanonicalFields(gs)[j] <==>
            fs[i].key == gs[j].key && Same(fs[i].value, gs[j].value)
  {
  }

  lemma FieldsGiveKeys(fs: seq<Field>, gs: seq<Field>)
    requires FieldSet(CanonicalFields(fs)) <= FieldSet(CanonicalFields(gs))
    ensures KeySet(fs) <= KeySet(gs)
  {
    var cf, cg := CanonicalFields(fs), CanonicalFields(gs);
    forall k | k in KeySet(fs) ensures k in KeySet(gs) {
      var i :| 0 <= i < |fs| && fs[i].key == k;
      assert cf[i] in FieldSet(cg);
      var j :| 0 <= j < |cg| && cg[j] == cf[i];
      assert gs[j] in gs && gs[j].key == k;
    }
  }

  lemma FieldsGiveSame(fs: seq<Field>, gs: seq<Field>)
    requires DistinctKeys(gs) && MembersAgree(fs, gs)
    requires FieldSet(CanonicalFields(fs)) == FieldSet(CanonicalFields(gs))
    ensures Same(Object(fs), Object(gs))
  {
    var cf, cg := CanonicalFields(fs), CanonicalFields(gs);
    FieldsGiveKeys(fs, gs);
    FieldsGiveKeys(gs, fs);
    forall i, j | 0 <= i < |fs| && 0 <= j < |gs| && fs[i].key == gs[j].key
      ensures Same(fs[i].value, gs[j].value)
    {
      assert cf[i] in FieldSet(cg);
      var k :| 0 <= k < |cg| && cg[k] == cf[i];
      assert k == j;
      MemberMatch(fs, gs, i, j);
    }
  }

  lemma SameGivesFields(fs: seq<Field>, gs: seq<Field>)
    requires MembersAgree(fs, gs) && Same(Object(fs), Object(gs))
    ensures FieldSet(CanonicalFields(fs)) == FieldSet(CanonicalFields(gs))
  {
    var cf, cg := CanonicalFields(fs), CanonicalFields(gs);
    forall f | f in FieldSet(cf) ensures f in FieldSet(cg) {
      var i :| 0 <= i < |cf| && cf[i] == f;
      assert fs[i] in fs && fs[i].key in KeySet(gs);
      var j :| 0 <= j < |gs| && gs[j].key == fs[i].key;
      MemberMatch(fs, gs, i, j);
    }
    forall g | g in FieldSet(cg) ensures g in FieldSet(cf) {
      var j :| 0 <= j < |cg| && cg[j] == g;
      assert gs[j] in gs && gs[j].key in KeySet(fs);
      var i :| 0 <= i < |fs| && fs[i].key == gs[j].key;
      MemberMatch(fs, gs, i, j);
    }
  }

  /** Field lists with distinct keys are arranged alike exactly when they hold the same fields. */
  lemma ArrangedAlike(fs: seq<Field>, gs: seq<Field>)
    requires DistinctKeys(fs) && DistinctKeys(gs)
    ensures PropertyOrder(SortLex(fs)) == PropertyOrder(SortLex(gs)) <==> FieldSet(fs) == FieldSet(gs)
  {
    PropertyOrderSorts(fs);
    PropertyOrderSorts(gs);
    if FieldSet(fs) == FieldSet(gs) {
      OrderedUnique(PropertyOrder(SortLex(fs)), PropertyOrder(SortLex(gs)));
    }
  }

  /**
   `canonicalSellerJson` sorts to one representative per class: two values have the same
   canonical form exactly when they are equal up to key order.
   */
  lemma {:induction false} CanonicalIffSame(a: Json, b: Json)
    requires Unambiguous(a) && Unambiguous(b)
    ensures Canonical(a) == Canonical(b) <==> Same(a, b)
  {
    match (a, b)
    case (Array(xs), Array(ys)) =>
      var cx, cy := Canonical(a).items, Canonical(b).items;
      if |xs| == |ys| {
        forall i | 0 <= i < |xs| ensures cx[i] == cy[i] <==> Same(xs[i], ys[i]) {
          CanonicalIffSame(xs[i], ys[i]);
        }
        if Same(a, b) { assert cx == cy; }
      }
    case (Object(fs), Object(gs)) =>
      forall i, j | 0 <= i < |fs| && 0 <= j < |gs|
        ensures Canonical(fs[i].value) == Canonical(gs[j].value) <==> Same(fs[i].value, gs[j].value)
      {
        CanonicalIffSame(fs[i].value, gs[j].value);
      }
      if Same(a, b) { SameGivesFields(fs, gs); }
      ArrangedAlike(CanonicalFields(fs), CanonicalFields(gs));
      if Canonical(a) == Canonical(b) { FieldsGiveSame(fs, gs); }
    case _ =>
  }

  /** The canonical form of a value is that value up to key order, so sorting twice changes nothing. */
  lemma {:induction false} CanonicalUnambiguous(v: Json)
    requires Unambiguous(v)
    ensures Unambiguous(Canonical(v)) && Canonical(Canonical(v)) == Canonical(v)
  {
    match v
    case Array(items) =>
      forall i | 0 <= i < |items|
        ensures Unambiguous(Canonical(items[i])) && Canonical(Canonical(items[i])) == Canonical(items[i])
      {
        CanonicalUnambiguous(items[i]);
      }
      assert Canonical(Canonical(v)).items == Canonical(v).items;
    case Object(fields) =>
      var cf := CanonicalFields(fields);
      PropertyOrderSorts(cf);
      var ps := PropertyOrder(SortLex(cf));
      OrderedDistinct(ps);
      forall k | 0 <= k < |ps|
        ensures Unambiguous(ps[k].value) && Canonical(ps[k].value) == ps[k].value
      {
        assert ps[k] in FieldSet(cf);
        var i :| 0 <= i < |cf| && cf[i] == ps[k];
        CanonicalUnambiguous(fields[i].value);
      }
      OrderedIsCanonical(ps);
    case _ =>
  }

  /** An object already in enumeration order with canonical members is its own canonical form. */
  lemma OrderedIsCanonical(ps: seq<Field>)
    requires Ordered(ps)
    requires forall k :: 0 <= k < |ps| ==> Canonical(ps[k].value) == ps[k].value
    ensures Canonical(Object(ps)) == Object(ps)
  {
    assert CanonicalFields(ps) == ps;
    OrderedDistinct(ps);
    PropertyOrderSorts(ps);
    OrderedUnique(PropertyOrder(SortLex(ps)), ps);
  }

  /** Every array-index key precedes by code unit each key that it precedes in enumeration order. */
  predicate IndexKeysSortAsText(fs: seq<Field>) {
    forall i, j :: 0 <= i < |fs| && 0 <= j < |fs| && IsIndex(fs[i].key) && KeyLess(fs[i].key, fs[j].key) ==>
      LexLess(fs[i].key, fs[j].key)
  }

  /**
   Rebuilding the object keeps the code-unit order of its keys, as a serializer that sorts
   keys as text would print them, exactly when its array-index keys also sort as text.
   */
  lemma CodeUnitOrderIff(fs: seq<Field>)
    requires DistinctKeys(fs)
    ensures PropertyOrder(SortLex(fs)) == SortLex(fs) <==> IndexKeysSortAsText(fs)
  {
    if PropertyOrder(SortLex(fs)) == SortLex(fs) { KeptOrderIsText(fs); }
    if IndexKeysSortAsText(fs) { TextOrderIsKept(fs); }
  }

  lemma Position(fs: seq<Field>, s: seq<Field>, i: nat) returns (p: nat)
    requires FieldSet(fs) == FieldSet(s) && i < |fs|
    ensures p < |s| && s[p] == fs[i]
  {
    assert fs[i] in FieldSet(s);
    p :| p < |s| && s[p] == fs[i];
  }

  lemma KeptOrderIsText(fs: seq<Field>)
    requires DistinctKeys(fs) && PropertyOrder(SortLex(fs)) == SortLex(fs)
    ensures IndexKeysSortAsText(fs)
  {
    var s := SortLex(fs);
    SortLexSorts(fs);
    PropertyOrderSorts(fs);
    forall i, j | 0 <= i < |fs| && 0 <= j < |fs| && IsIndex(fs[i].key) && KeyLess(fs[i].key, fs[j].key)
      ensures LexLess(fs[i].key, fs[j].key)
    {
      var p := Position(fs, s, i);
      var q := Position(fs, s, j);
      KeyTotal(s[p].key, s[q].key);
      KeyTotal(s[p].key, s[p].key);
      assert p < q;
    }
  }

  lemma TextOrderIsKept(fs: seq<Field>)
    requires DistinctKeys(fs) && IndexKeysSortAsText(fs)
    ensures PropertyOrder(SortLex(fs)) == SortLex(fs)
  {
    var s := SortLex(fs);
    SortLexSorts(fs);
    PropertyOrderSorts(fs);
    forall p, q | 0 <= p < q < |s| ensures KeyLess(s[p].key, s[q].key) {
      var i := Position(s, fs, p);
      var j := Position(s, fs, q);
      LexTotal(s[p].key, s[q].key);
      KeyTotal(s[p].key, s[q].key);
    }
    OrderedUnique(PropertyOrder(s), s);
  }

  /** The keys "2" and "10": as text "10" sorts first, as object keys 2 does. */
  lemma TextOrderCounterexample(two: Field, ten: Field)
    requires two.key == [0x32] && ten.key == [0x31, 0x30]
    ensures PropertyOrder(SortLex([two, ten])) != SortLex([two, ten])
  {
    assert two.key[..0] == [] && DecimalValue(two.key) == 2;
    assert ten.key[..1] == [0x31] && [0x31][..0] == [];
    assert DecimalValue([0x31]) == 1 && DecimalValue(ten.key) == 10;
    var fs := [two, ten];
    assert IsIndex(fs[0].key) && KeyLess(fs[0].key, fs[1].key) && !LexLess(fs[0].key, fs[1].key);
    CodeUnitOrderIff(fs);
  }
}
