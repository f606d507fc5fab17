/** One canonical text over every kind of token, escape and key, written out. */
module JsonExample {
  import opened JsonValues
  import opened JsonText
  import opened JsonReference

  /// Strings

  lemma {:induction false} SpellConcat(a: Str, b: Str)
    ensures SpellAll(a + b) == SpellAll(a) + SpellAll(b)
  {
    if a == [] {
      assert a + b == b;
    } else {
      assert (a + b)[1..] == a[1..] + b;
      SpellConcat(a[1..], b);
    }
  }

  lemma SpellOne(c: CodeUnit)
    ensures SpellAll([c]) == Spell(c)
  {
    assert [c][1..] == [];
  }

  lemma SpellThree(a: CodeUnit, b: CodeUnit, c: CodeUnit)
    ensures SpellAll([a, b, c]) == Spell(a) + Spell(b) + Spell(c)
  {
    assert [a, b, c] == [a] + [b] + [c];
    SpellConcat([a] + [b], [c]);
    SpellConcat([a], [b]);
    SpellOne(a);
    SpellOne(b);
    SpellOne(c);
  }

  lemma EscapeIs(c: CodeUnit, w: nat, x: nat, y: nat, z: nat)
    requires w < 16 && x < 16 && y < 16 && z < 16 && c == 4096 * w + 256 * x + 16 * y + z
    requires c >= 0x7f || c == 0x01
    ensures Spell(c) == Text("\\u") + [Text(DIGITS)[w], Text(DIGITS)[x], Text(DIGITS)[y], Text(DIGITS)[z]]
  {
    Places(c, w, x, y, z);
  }

  lemma Places(c: nat, w: nat, x: nat, y: nat, z: nat)
    requires w < 16 && x < 16 && y < 16 && z < 16 && c == 4096 * w + 256 * x + 16 * y + z
    ensures c / 4096 == w && c / 256 % 16 == x && c / 16 % 16 == y && c % 16 == z
  {
    assert c / 256 == 16 * w + x && c / 16 == 16 * (16 * w + x) + y;
  }

  lemma Digits()
    ensures Text(DIGITS)[0] == 0x30 && Text(DIGITS)[1] == 0x31 && Text(DIGITS)[3] == 0x33 && Text(DIGITS)[7] == 0x37
    ensures Text(DIGITS)[8] == 0x38 && Text(DIGITS)[9] == 0x39 && Text(DIGITS)[13] == 0x64
    ensures Text(DIGITS)[14] == 0x65 && Text(DIGITS)[15] == 0x66
  {
  }

  lemma EscapeTexts()
    ensures Spell(0x01) == Text("\\u0001") && Spell(0x7f) == Text("\\u007f") && Spell(0xe9) == Text("\\u00e9")
  {
    Digits();
    EscapeIs(0x01, 0, 0, 0, 1);
    EscapeIs(0x7f, 0, 0, 7, 15);
    EscapeIs(0xe9, 0, 0, 14, 9);
  }

  lemma SurrogateTexts()
    ensures Spell(0xd83d) == Text("\\ud83d") && Spell(0xde00) == Text("\\ude00")
  {
    Digits();
    EscapeIs(0xd83d, 13, 8, 3, 13);
    EscapeIs(0xde00, 13, 14, 0, 0);
  }

  /** Quote, backslash and slash; the control letters; another control code; 0x7f, a letter, a pair and a tilde. */
  function Mixed(): Str {
    [0x22, 0x5c, 0x2f] + [0x08, 0x09, 0x0a] + [0x0c, 0x0d, 0x01] + [0x7f, 0xe9, 0x7e] + [0xd83d, 0xde00, 0x20]
  }

  lemma MixedText()
    ensures SpellAll(Mixed()) ==
            (Text("\\\"") + Text("\\\\") + Text("/")) + (Text("\\b") + Text("\\t") + Text("\\n")) +
            (Text("\\f") + Text("\\r") + Text("\\u0001")) + (Text("\\u007f") + Text("\\u00e9") + Text("~")) +
            (Text("\\ud83d") + Text("\\ude00") + Text(" "))
  {
    var a: Str, b: Str, c: Str := [0x22, 0x5c, 0x2f], [0x08, 0x09, 0x0a], [0x0c, 0x0d, 0x01];
    var d: Str, e: Str := [0x7f, 0xe9, 0x7e], [0xd83d, 0xde00, 0x20];
    SpellConcat(a + b + c + d, e);
    SpellConcat(a + b + c, d);
    SpellConcat(a + b, c);
    SpellConcat(a, b);
    SpellThree(0x22, 0x5c, 0x2f);
    SpellThree(0x08, 0x09, 0x0a);
    SpellThree(0x0c, 0x0d, 0x01);
    SpellThree(0x7f, 0xe9, 0x7e);
    SpellThree(0xd83d, 0xde00, 0x20);
    EscapeTexts();
    SurrogateTexts();
    PlainTexts();
  }

  lemma PlainTexts()
    ensures Spell(0x2f) == Text("/") && Spell(0x7e) == Text("~") && Spell(0x20) == Text(" ")
  {
  }

  /// The value

  function Values(): Json {
    Array([Null, Bool(true), Bool(false), Number(Text("-1.5"))])
  }

  function Sample(): Json {
    Object([Field(Text("b"), Values()), Field(Text("10"), String(Mixed())), Field(Text("2"), Object([])),
            Field(Text("a"), Array([]))])
  }

  function Arranged(): seq<Field> {
    [Field(Text("2"), Object([])), Field(Text("10"), String(Mixed())), Field(Text("a"), Array([])),
     Field(Text("b"), Values())]
  }

  lemma Keys()
    ensures IsIndex(Text("2")) && DecimalValue(Text("2")) == 2 && IsIndex(Text("10")) && DecimalValue(Text("10")) == 10
    ensures !IsIndex(Text("a")) && !IsIndex(Text("b")) && LexLess(Text("a"), Text("b"))
  {
    var two := DigitsSoFar([], 0, 0x32);
    var one := DigitsSoFar([], 0, 0x31);
    var ten := DigitsSoFar(one, 1, 0x30);
    assert Text("2") == two && Text("10") == ten;
    Letters();
  }

  lemma Letters()
    ensures !IsIndex(Text("a")) && !IsIndex(Text("b")) && LexLess(Text("a"), Text("b"))
  {
    assert Text("a")[0] == 0x61 && Text("b")[0] == 0x62;
  }

  lemma InOrder(a: Field, b: Field, c: Field, d: Field)
    requires KeyLess(a.key, b.key) && KeyLess(b.key, c.key) && KeyLess(c.key, d.key)
    ensures Ordered([a, b, c, d])
  {
    KeyTransitive(a.key, b.key, c.key);
    KeyTransitive(b.key, c.key, d.key);
    KeyTransitive(a.key, b.key, d.key);
  }

  lemma SameFour(a: Field, b: Field, c: Field, d: Field)
    ensures FieldSet([a, b, c, d]) == FieldSet([d, b, a, c])
  {
    assert FieldSet([a, b, c, d]) == {a, b, c, d} == FieldSet([d, b, a, c]);
  }

  lemma ValuesAreCanonical()
    ensures Canonical(Values()) == Values() && Canonical(Object([])) == Object([]) && Canonical(Array([])) == Array([])
    ensures Unambiguous(Values())
  {
    var items := Values().items;
    assert Canonical(Values()).items == items;
    assert Canonical(Array([])).items == [];
    assert SortLex([]) == [] && PropertyOrder([]) == [];
  }

  lemma FourCanonical(a: Field, b: Field, c: Field, d: Field)
    requires Canonical(a.value) == a.value && Canonical(b.value) == b.value
    requires Canonical(c.value) == c.value && Canonical(d.value) == d.value
    ensures CanonicalFields([a, b, c, d]) == [a, b, c, d]
  {
  }

  lemma SampleArranged()
    ensures Canonical(Sample()) == Object(Arranged()) && Unambiguous(Sample())
  {
    var fs, ps := Sample().fields, Arranged();
    Keys();
    InOrder(ps[0], ps[1], ps[2], ps[3]);
    assert Ordered(ps);
    ValuesAreCanonical();
    FourCanonical(fs[0], fs[1], fs[2], fs[3]);
    SameFour(ps[0], ps[1], ps[2], ps[3]);
    Arranges(fs, ps);
  }

  /** A list in enumeration order with the same members is how the object is arranged. */
  lemma Arranges(fs: seq<Field>, ps: seq<Field>)
    requires Ordered(ps) && FieldSet(fs) == FieldSet(ps) && |fs| == |ps| && CanonicalFields(fs) == fs
    requires DistinctKeys(fs)
    ensures Canonical(Object(fs)) == Object(ps)
  {
    PropertyOrderSorts(fs);
    OrderedUnique(PropertyOrder(SortLex(fs)), ps);
  }

  /// The text

  function Member(f: Field): Str {
    QuotedText(f.key) + Text(":") + Reference(f.value)
  }

  lemma FourFields(a: Field, b: Field, c: Field, d: Field)
    ensures ReferenceFields([a, b, c, d])
            == Member(a) + (Text(",") + (Member(b) + (Text(",") + (Member(c) + (Text(",") + Member(d))))))
  {
    assert [a, b, c, d][1..] == [b, c, d] && [b, c, d][1..] == [c, d] && [c, d][1..] == [d];
    assert ReferenceFields([d]) == Member(d);
    assert ReferenceFields([c, d]) == Member(c) + (Text(",") + Member(d));
    assert ReferenceFields([b, c, d]) == Member(b) + (Text(",") + ReferenceFields([c, d]));
  }

  lemma FourItems(a: Json, b: Json, c: Json, d: Json)
    ensures ReferenceItems([a, b, c, d])
            == Reference(a) + (Text(",") + (Reference(b) + (Text(",") + (Reference(c) + (Text(",") + Reference(d))))))
  {
    assert [a, b, c, d][1..] == [b, c, d] && [b, c, d][1..] == [c, d] && [c, d][1..] == [d];
    assert ReferenceItems([d]) == Reference(d);
    assert ReferenceItems([c, d]) == Reference(c) + (Text(",") + Reference(d));
    assert ReferenceItems([b, c, d]) == Reference(b) + (Text(",") + ReferenceItems([c, d]));
  }

  lemma ValuesText()
    ensures Reference(Values()) == Text("[null,true,") + Text("false,-1.5]")
  {
    FourItems(Null, Bool(true), Bool(false), Number(Text("-1.5")));
    ValuesLiteral();
  }

  lemma ValuesLiteral()
    ensures Text("[") + (Text("null") + (Text(",") + (Text("true") + (Text(",") + (Text("false") + (Text(",") +
            Text("-1.5"))))))) + Text("]") == Text("[null,true,") + Text("false,-1.5]")
  {
  }

  lemma KeyTexts()
    ensures QuotedText(Text("2")) == Text("\"2\"") && QuotedText(Text("10")) == Text("\"10\"")
    ensures QuotedText(Text("a")) == Text("\"a\"") && QuotedText(Text("b")) == Text("\"b\"")
  {
    assert Text("2") == [0x32] && Text("a") == [0x61] && Text("b") == [0x62] && Text("10") == [0x31] + [0x30];
    SpellOne(0x32);
    SpellOne(0x61);
    SpellOne(0x62);
    SpellConcat([0x31], [0x30]);
    SpellOne(0x31);
    SpellOne(0x30);
  }

  lemma EmptyMembers()
    ensures Member(Field(Text("2"), Object([]))) == Text("\"2\":{}")
    ensures Member(Field(Text("a"), Array([]))) == Text("\"a\":[]")
  {
    KeyTexts();
    EmptyTexts();
  }

  lemma ValuesMember()
    ensures Member(Field(Text("b"), Values())) == Text("\"b\":") + (Text("[null,true,") + Text("false,-1.5]"))
  {
    KeyTexts();
    ValuesText();
    EmptyTexts();
  }

  lemma StringMember(s: Str)
    ensures Member(Field(Text("10"), String(s))) == Text("\"10\":\"") + SpellAll(s) + Text("\"")
  {
    KeyTexts();
    TenOpens();
    Regroup(Text("\"10\"") + Text(":"), Text("\""), SpellAll(s), Text("\""));
  }

  lemma Regroup(a: Str, b: Str, c: Str, d: Str)
    ensures a + (b + c + d) == (a + b) + c + d
  {
  }

  lemma TenOpens()
    ensures Text("\"10\"") + Text(":") + Text("\"") == Text("\"10\":\"")
  {
  }

  lemma EmptyTexts()
    ensures Reference(Object([])) == Text("{}") && Reference(Array([])) == Text("[]")
    ensures Text("\"2\"") + Text(":") + Text("{}") == Text("\"2\":{}")
    ensures Text("\"a\"") + Text(":") + Text("[]") == Text("\"a\":[]")
    ensures Text("\"b\"") + Text(":") == Text("\"b\":")
  {
  }

  lemma SamplePrintable()
    ensures Printable(Sample(), (s: Str) => s)
  {
    FractionIsNumber();
  }

  lemma FractionIsNumber()
    ensures IsNumberText(Text("-1.5"))
  {
    var t := Text("-1.5");
    assert t[1..] == [0x31, 0x2e, 0x35] && t[1..][1..] == [0x2e, 0x35];
    assert [0x2e, 0x35][1..] == [0x35] && [0x35][1..] == [];
    assert DigitRun([0x35]) == 1 && DigitRun([0x2e, 0x35]) == 0 && DigitRun([0x31, 0x2e, 0x35]) == 1;
    assert [0x2e, 0x35][2..] == [];
    assert IsNumberText(t);
  }

  /** The whole text: the order of the keys, every kind of value, every kind of escape and no white space. */
  lemma WholeText()
    ensures CanonicalSellerJson(Sample()) ==
            Text("{") +
            (Text("\"2\":{}") + (Text(",") + ((Text("\"10\":\"") +
             ((Text("\\\"") + Text("\\\\") + Text("/")) + (Text("\\b") + Text("\\t") + Text("\\n")) +
              (Text("\\f") + Text("\\r") + Text("\\u0001")) + (Text("\\u007f") + Text("\\u00e9") + Text("~")) +
              (Text("\\ud83d") + Text("\\ude00") + Text(" "))) + Text("\"")) +
             (Text(",") + (Text("\"a\":[]") + (Text(",") +
              (Text("\"b\":") + (Text("[null,true,") + Text("false,-1.5]"))))))))) + Text("}")
  {
    SampleArranged();
    SamplePrintable();
    TextIsReference(Sample(), (s: Str) => s);
    var ps := Arranged();
    FourFields(ps[0], ps[1], ps[2], ps[3]);
    EmptyMembers();
    StringMember(Mixed());
    ValuesMember();
    MixedText();
  }
}
