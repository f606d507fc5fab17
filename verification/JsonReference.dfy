/**
 The canonical text character by character: a printer that spells every token out, and the proof
 that `canonicalSellerJson` prints what it says.
 */
module JsonReference {
  import opened JsonValues
  import opened JsonText

  const DIGITS: string := "0123456789abcdef"

  /** `\u` and four hexadecimal digits, the letters in lower case. */
  function FourDigits(c: CodeUnit): Str {
    Text("\\u") + [Text(DIGITS)[c / 4096], Text(DIGITS)[c / 256 % 16], Text(DIGITS)[c / 16 % 16], Text(DIGITS)[c % 16]]
  }

  /** How a string's code unit is written between the quotes. */
  function Spell(c: CodeUnit): Str {
    if c == 0x22 then Text("\\\"")
    else if c == 0x5c then Text("\\\\")
    else if c == 0x08 then Text("\\b")
    else if c == 0x09 then Text("\\t")
    else if c == 0x0a then Text("\\n")
    else if c == 0x0c then Text("\\f")
    else if c == 0x0d then Text("\\r")
    else if 0x20 <= c <= 0x7e then [c]
    else FourDigits(c)
  }

  function SpellAll(s: Str): Str {
    if s == [] then [] else Spell(s[0]) + SpellAll(s[1..])
  }

  function QuotedText(s: Str): Str {
    Text("\"") + SpellAll(s) + Text("\"")
  }

  /** No white space anywhere between the tokens. */
  function Reference(v: Json): Str {
    match v
    case Null => Text("null")
    case Bool(b) => if b then Text("true") else Text("false")
    case Number(lexeme) => lexeme
    case String(s) => QuotedText(s)
    case Array(items) => Text("[") + ReferenceItems(items) + Text("]")
    case Object(fields) => Text("{") + ReferenceFields(fields) + Text("}")
  }

  function ReferenceItems(items: seq<Json>): Str {
    if items == [] then []
    else Reference(items[0]) + (if |items| == 1 then [] else Text(",") + ReferenceItems(items[1..]))
  }

  function ReferenceFields(fields: seq<Field>): Str {
    if fields == [] then []
    else QuotedText(fields[0].key) + Text(":") + Reference(fields[0].value) +
         (if |fields| == 1 then [] else Text(",") + ReferenceFields(fields[1..]))
  }

  /// The digits denote the code unit

  /** The value of a hexadecimal digit, decimal or a lower-case letter; any other code unit has none. */
  function LowerHexValue(h: CodeUnit): int {
    if 0x30 <= h <= 0x39 then h - 0x30 else if 0x61 <= h <= 0x66 then h - 0x57 else -1
  }

  lemma DigitsDenote(n: nat)
    requires n < 16
    ensures LowerHexValue(Text(DIGITS)[n]) == n
  {
    assert DIGITS[n] == "0123456789abcdef"[n];
  }

  /**
   Every code unit from 0x7f on, and every control code without a short form, is written as a
   backslash, a `u` and four lower-case digits that denote it.
   */
  lemma EscapesDenote(c: CodeUnit)
    requires c >= 0x7f || (c < 0x20 && c !in {0x08, 0x09, 0x0a, 0x0c, 0x0d})
    ensures var t := CanonicalSellerJson(String([c]));
            && |t| == 8 && t[0] == t[7] == 0x22 && t[1] == 0x5c && t[2] == 0x75
            && (forall i :: 3 <= i < 7 ==> LowerHexValue(t[i]) >= 0)
            && c == 4096 * LowerHexValue(t[3]) + 256 * LowerHexValue(t[4])
                    + 16 * LowerHexValue(t[5]) + LowerHexValue(t[6])
  {
    TextIsReference(String([c]), (s: Str) => s);
    assert [c][1..] == [];
    assert SpellAll([c]) == FourDigits(c) + [] == FourDigits(c);
    FourDigitsDenote(c);
  }

  lemma FourDigitsDenote(c: CodeUnit)
    ensures var d := FourDigits(c);
            && |d| == 6 && d[0] == 0x5c && d[1] == 0x75 && (forall i :: 2 <= i < 6 ==> LowerHexValue(d[i]) >= 0)
            && c == 4096 * LowerHexValue(d[2]) + 256 * LowerHexValue(d[3])
                    + 16 * LowerHexValue(d[4]) + LowerHexValue(d[5])
  {
    DigitsDenote(c / 4096);
    DigitsDenote(c / 256 % 16);
    DigitsDenote(c / 16 % 16);
    DigitsDenote(c % 16);
    FourPlaces(c);
  }

  lemma FourPlaces(c: CodeUnit)
    ensures c == 4096 * (c / 4096) + 256 * (c / 256 % 16) + 16 * (c / 16 % 16) + c % 16
  {
    TwoPlaces(c, 16);
    TwoPlaces(c, 256);
  }

  lemma TwoPlaces(c: CodeUnit, n: nat)
    requires n == 16 || n == 256
    ensures c / n == 16 * (c / (16 * n)) + c / n % 16
  {
    if n == 16 {
      assert c / 256 == c / 16 / 16;
    } else {
      assert c / 4096 == c / 256 / 16;
    }
  }

  /// The printer agrees

  lemma DigitIs(n: int)
    requires 0 <= n < 16
    ensures HexDigit(n) == Text(DIGITS)[n]
  {
    DigitsDenote(n);
  }

  lemma UnitIs(c: CodeUnit)
    ensures AsciiUnit(c) == Spell(c)
  {
    DigitIs(c / 4096);
    DigitIs(c / 256 % 16);
    DigitIs(c / 16 % 16);
    DigitIs(c % 16);
  }

  lemma {:induction false} BodyIs(s: Str)
    ensures AsciiBody(s) == SpellAll(s)
  {
    if s != [] {
      UnitIs(s[0]);
      BodyIs(s[1..]);
    }
  }

  lemma TokensAre()
    ensures Text("\"") == [QUOTE] && Text(",") == [COMMA] && Text(":") == [COLON]
    ensures Text("[") == [LBRACKET] && Text("]") == [RBRACKET] && Text("{") == [LBRACE] && Text("}") == [RBRACE]
    ensures Text("null") == NULL_TEXT && Text("true") == TRUE_TEXT && Text("false") == FALSE_TEXT
  {
  }

  lemma QuotedIs(s: Str)
    ensures Quoted(s, PerString) == QuotedText(s)
  {
    BodyIs(s);
    TokensAre();
  }

  lemma {:induction false} PrintIs(v: Json)
    ensures Print(v, PerString) == Reference(v)
  {
    TokensAre();
    match v
    case String(s) => QuotedIs(s);
    case Array(items) => ItemsAre(items);
    case Object(fields) => FieldsAre(fields);
    case _ =>
  }

  lemma {:induction false} ItemsAre(items: seq<Json>)
    ensures PrintItems(items, PerString) == ReferenceItems(items)
  {
    if items != [] {
      PrintIs(items[0]);
      ItemsAre(items[1..]);
      TokensAre();
    }
  }

  lemma {:induction false} FieldsAre(fields: seq<Field>)
    ensures PrintFields(fields, PerString) == ReferenceFields(fields)
  {
    if fields != [] {
      QuotedIs(fields[0].key);
      PrintIs(fields[0].value);
      FieldsAre(fields[1..]);
      TokensAre();
    }
  }

  /** `canonicalSellerJson` writes the canonical value as the reference printer spells it. */
  lemma TextIsReference(v: Json, num: Str -> Str)
    requires Unambiguous(v) && Printable(v, num)
    ensures CanonicalSellerJson(v) == Reference(Canonical(v))
  {
    CanonicalPrintable(v, num);
    EscapePassPerString(Canonical(v), num);
    PrintIs(Canonical(v));
  }

  /// Which keys come first

  lemma DecimalSnoc(s: Str, d: CodeUnit)
    requires AllDigits(s) && IsDigit(d)
    ensures AllDigits(s + [d]) && DecimalValue(s + [d]) == 10 * DecimalValue(s) + (d - 0x30)
  {
    assert (s + [d])[..|s|] == s;
  }

  lemma DigitsSoFar(s: Str, n: nat, d: CodeUnit) returns (t: Str)
    requires AllDigits(s) && DecimalValue(s) == n && IsDigit(d)
    ensures t == s + [d] && AllDigits(t) && DecimalValue(t) == 10 * n + (d - 0x30)
  {
    t := s + [d];
    DecimalSnoc(s, d);
  }

  lemma MaxIndexDigits(last: CodeUnit) returns (t: Str)
    requires IsDigit(last)
    ensures |t| == 10 && t[..9] == Text("429496729") && t[9] == last
    ensures IsCanonicalDecimal(t) && DecimalValue(t) == 4294967290 + (last - 0x30)
  {
    t := DigitsSoFar([], 0, 0x34);
    t := DigitsSoFar(t, 4, 0x32);
    t := DigitsSoFar(t, 42, 0x39);
    t := DigitsSoFar(t, 429, 0x34);
    t := DigitsSoFar(t, 4294, 0x39);
    t := DigitsSoFar(t, 42949, 0x36);
    t := DigitsSoFar(t, 429496, 0x37);
    t := DigitsSoFar(t, 4294967, 0x32);
    t := DigitsSoFar(t, 42949672, 0x39);
    t := DigitsSoFar(t, 429496729, last);
  }

  /** Array indices go up to 4294967294, without leading zeros, signs or fractions. */
  lemma IndexKeys()
    ensures IsIndex(Text("0")) && IsIndex(Text("7")) && IsIndex(Text("4294967294"))
    ensures !IsIndex(Text("")) && !IsIndex(Text("07")) && !IsIndex(Text("4294967295"))
    ensures !IsIndex(Text("-1")) && !IsIndex(Text("1.5")) && !IsIndex(Text("1a"))
  {
    var greatest := MaxIndexDigits(0x34);
    var next := MaxIndexDigits(0x35);
    assert Text("4294967294") == Text("429496729") + [0x34] == greatest[..9] + [greatest[9]] == greatest;
    assert Text("4294967295") == Text("429496729") + [0x35] == next[..9] + [next[9]] == next;
    DecimalSnoc([], 0x30);
    DecimalSnoc([], 0x37);
    assert Text("0") == [] + [0x30] && Text("7") == [] + [0x37];
    assert Text("-1")[0] == 0x2d && Text("1.5")[1] == 0x2e && Text("1a")[1] == 0x61;
  }

  /** Indices in numeric order come before all other keys, and those are in the order of their code units. */
  lemma KeyOrder(a: Str, b: Str)
    ensures IsIndex(a) && IsIndex(b) ==> (KeyLess(a, b) <==> DecimalValue(a) < DecimalValue(b))
    ensures IsIndex(a) && !IsIndex(b) ==> KeyLess(a, b) && !KeyLess(b, a)
    ensures !IsIndex(a) && !IsIndex(b) ==>
              (KeyLess(a, b) <==>
               exists i :: 0 <= i <= |a| && i < |b| && a[..i] == b[..i] && (i == |a| || a[i] < b[i]))
  {
    if !IsIndex(a) && !IsIndex(b) {
      LexIsFirstDifference(a, b);
    }
  }

  lemma {:induction false} LexIsFirstDifference(a: Str, b: Str)
    ensures LexLess(a, b) <==>
            exists i :: 0 <= i <= |a| && i < |b| && a[..i] == b[..i] && (i == |a| || a[i] < b[i])
  {
    if a == [] && b != [] {
      assert a[..0] == b[..0];
    } else if a != [] && b != [] && a[0] == b[0] {
      LexIsFirstDifference(a[1..], b[1..]);
      if LexLess(a, b) {
        var i :| 0 <= i <= |a[1..]| && i < |b[1..]| && a[1..][..i] == b[1..][..i] &&
                 (i == |a[1..]| || a[1..][i] < b[1..][i]);
        assert a[..i + 1] == [a[0]] + a[1..][..i] == b[..i + 1];
      }
      if i :| 0 <= i <= |a| && i < |b| && a[..i] == b[..i] && (i == |a| || a[i] < b[i]) {
        assert a[1..][..i - 1] == a[..i][1..] == b[..i][1..] == b[1..][..i - 1];
      }
    } else if a != [] && b != [] && a[0] < b[0] {
      assert a[..0] == b[..0];
    } else if a != [] && b != [] {
      if i :| 0 <= i <= |a| && i < |b| && a[..i] == b[..i] && (i == |a| || a[i] < b[i]) {
        assert i > 0 ==> a[..i][0] == b[..i][0];
      }
    }
  }
}
