/**
 Printing: `JSON.stringify` followed by one escape pass over the finished text, as
 `canonicalSellerJson` does it, and the printer that escapes each string on its own.
 */
module JsonText {
  import opened JsonValues

  const QUOTE: CodeUnit := 0x22
  const COMMA: CodeUnit := 0x2c
  const COLON: CodeUnit := 0x3a
  const LBRACKET: CodeUnit := 0x5b
  const BACKSLASH: CodeUnit := 0x5c
  const RBRACKET: CodeUnit := 0x5d
  const LBRACE: CodeUnit := 0x7b
  const RBRACE: CodeUnit := 0x7d
  const LETTER_U: CodeUnit := 0x75

  const NULL_TEXT: Str := [0x6e, 0x75, 0x6c, 0x6c]
  const TRUE_TEXT: Str := [0x74, 0x72, 0x75, 0x65]
  const FALSE_TEXT: Str := [0x66, 0x61, 0x6c, 0x73, 0x65]

  /// Literal text

  predicate Ascii7(s: string) {
    forall i :: 0 <= i < |s| ==> s[i] as int < 0x80
  }

  function Text(s: string): (r: Str)
    requires Ascii7(s)
    ensures |r| == |s| && forall i :: 0 <= i < |s| ==> r[i] == s[i] as int
  {
    seq(|s|, i requires 0 <= i < |s| => s[i] as int)
  }

  /// Numbers (RFC 8259, section 6)

  predicate IsNumberChar(c: CodeUnit) {
    IsDigit(c) || c == 0x2b || c == 0x2d || c == 0x2e || c == 0x45 || c == 0x65
  }

  function DigitRun(t: Str): (n: nat)
    ensures n <= |t| && forall i :: 0 <= i < n ==> IsDigit(t[i])
  {
    if t != [] && IsDigit(t[0]) then 1 + DigitRun(t[1..]) else 0
  }

  predicate IsExponent(t: Str) {
    t == [] ||
    ((t[0] == 0x45 || t[0] == 0x65) &&
     var u := if |t| > 1 && (t[1] == 0x2b || t[1] == 0x2d) then t[2..] else t[1..];
     u != [] && AllDigits(u))
  }

  predicate IsFraction(t: Str) {
    if t != [] && t[0] == 0x2e then
      DigitRun(t[1..]) > 0 && IsExponent(t[1 + DigitRun(t[1..])..])
    else
      IsExponent(t)
  }

  predicate IsNumberText(t: Str) {
    var u := if t != [] && t[0] == 0x2d then t[1..] else t;
    DigitRun(u) > 0 && (u[0] == 0x30 ==> DigitRun(u) == 1) && IsFraction(u[DigitRun(u)..])
  }

  predicate AllNumberChars(t: Str) {
    forall i :: 0 <= i < |t| ==> IsNumberChar(t[i])
  }

  lemma NumberTextChars(t: Str)
    requires IsNumberText(t)
    ensures AllNumberChars(t) && t != [] && (t[0] == 0x2d || IsDigit(t[0]))
  {
    if t[0] == 0x2d {
      UnsignedChars(t[1..]);
      assert t == [t[0]] + t[1..];
    } else {
      UnsignedChars(t);
    }
  }

  lemma UnsignedChars(u: Str)
    requires DigitRun(u) > 0 && IsFraction(u[DigitRun(u)..])
    ensures AllNumberChars(u) && IsDigit(u[0])
  {
    var n := DigitRun(u);
    FractionChars(u[n..]);
    assert u == u[..n] + u[n..];
  }

  lemma FractionChars(t: Str)
    requires IsFraction(t)
    ensures AllNumberChars(t)
  {
    if t != [] && t[0] == 0x2e {
      var n := DigitRun(t[1..]);
      ExponentChars(t[1 + n..]);
      assert t == [t[0]] + t[1..][..n] + t[1 + n..];
    } else {
      ExponentChars(t);
    }
  }

  lemma ExponentChars(t: Str)
    requires IsExponent(t)
    ensures AllNumberChars(t)
  {
    if t != [] {
      if |t| > 1 && (t[1] == 0x2b || t[1] == 0x2d) {
        assert t == [t[0], t[1]] + t[2..];
      } else {
        assert t == [t[0]] + t[1..];
      }
    }
  }

  /** Every number in the value is the text JavaScript prints for it; `num` is ToString of ToNumber. */
  predicate Printable(v: Json, num: Str -> Str) {
    match v
    case Number(lexeme) => IsNumberText(lexeme) && num(lexeme) == lexeme
    case Array(items) => forall i :: 0 <= i < |items| ==> Printable(items[i], num)
    case Object(fields) => forall i :: 0 <= i < |fields| ==> Printable(fields[i].value, num)
    case _ => true
  }

  /// Strings (RFC 8259, section 7)

  function HexDigit(n: int): CodeUnit
    requires 0 <= n < 16
  {
    if n < 10 then 0x30 + n else 0x61 + n - 10
  }

  function UEscape(c: CodeUnit): (r: Str)
    ensures |r| == 6
  {
    [BACKSLASH, LETTER_U, HexDigit(c / 4096), HexDigit(c / 256 % 16), HexDigit(c / 16 % 16), HexDigit(c % 16)]
  }

  /** The letter of a two-character escape, for the code units that have one. */
  function ShortEscape(c: CodeUnit): CodeUnit {
    if c == 0x08 then 0x62
    else if c == 0x09 then 0x74
    else if c == 0x0a then 0x6e
    else if c == 0x0c then 0x66
    else if c == 0x0d then 0x72
    else if c == QUOTE || c == BACKSLASH then c
    else 0
  }

  /** How `JSON.stringify` writes one code unit that is not part of a surrogate pair. */
  function StringifyUnit(c: CodeUnit): Str {
    if ShortEscape(c) != 0 then [BACKSLASH, ShortEscape(c)]
    else if c < 0x20 || 0xd800 <= c <= 0xdfff then UEscape(c)
    else [c]
  }

  predicate IsPair(s: Str) {
    |s| > 1 && 0xd800 <= s[0] <= 0xdbff && 0xdc00 <= s[1] <= 0xdfff
  }

  /** `JSON.stringify` inside the quotes: surrogate pairs stay as they are. */
  function StringifyBody(s: Str): Str {
    if s == [] then []
    else if IsPair(s) then s[..2] + StringifyBody(s[2..])
    else StringifyUnit(s[0]) + StringifyBody(s[1..])
  }

  /** One code unit as the seller SDK writes it: everything outside printable ASCII escaped. */
  function AsciiUnit(c: CodeUnit): Str {
    if ShortEscape(c) != 0 then [BACKSLASH, ShortEscape(c)]
    else if c < 0x20 || c >= 0x7f then UEscape(c)
    else [c]
  }

  function AsciiBody(s: Str): Str {
    if s == [] then [] else AsciiUnit(s[0]) + AsciiBody(s[1..])
  }

  /// Whole values

  datatype Style = Stringify | PerString

  function Quoted(s: Str, style: Style): Str {
    [QUOTE] + (if style.Stringify? then StringifyBody(s) else AsciiBody(s)) + [QUOTE]
  }

  function Print(v: Json, style: Style): Str {
    match v
    case Null => NULL_TEXT
    case Bool(b) => if b then TRUE_TEXT else FALSE_TEXT
    case Number(lexeme) => lexeme
    case String(s) => Quoted(s, style)
    case Array(items) => [LBRACKET] + PrintItems(items, style) + [RBRACKET]
    case Object(fields) => [LBRACE] + PrintFields(fields, style) + [RBRACE]
  }

  function PrintItems(items: seq<Json>, style: Style): Str {
    if items == [] then []
    else if |items| == 1 then Print(items[0], style)
    else Print(items[0], style) + [COMMA] + PrintItems(items[1..], style)
  }

  function PrintField(f: Field, style: Style): Str {
    Quoted(f.key, style) + [COLON] + Print(f.value, style)
  }

  function PrintFields(fields: seq<Field>, style: Style): Str {
    if fields == [] then []
    else if |fields| == 1 then PrintField(fields[0], style)
    else PrintField(fields[0], style) + [COMMA] + PrintFields(fields[1..], style)
  }

  /** The escape pass: a regular-expression replacement over the finished text. */
  function EscapePass(t: Str): Str {
    if t == [] then []
    else EscapeOne(t[0]) + EscapePass(t[1..])
  }

  function EscapeOne(c: CodeUnit): Str {
    if c >= 0x7f then UEscape(c) else [c]
  }

  function CanonicalSellerJson(v: Json): Str {
    EscapePass(Print(Canonical(v), Stringify))
  }

  lemma EscapeCons(c: CodeUnit, t: Str)
    ensures EscapePass([c] + t) == EscapeOne(c) + EscapePass(t)
  {
    assert ([c] + t)[1..] == t;
  }

  lemma Associative(a: Str, b: Str, c: Str)
    ensures (a + b) + c == a + (b + c)
  {
  }

  lemma {:induction false} EscapeConcat(a: Str, b: Str)
    ensures EscapePass(a + b) == EscapePass(a) + EscapePass(b)
  {
    if a == [] {
      assert a + b == b;
    } else {
      var tail := a[1..];
      EscapeConcat(tail, b);
      EscapeCons(a[0], tail + b);
      EscapeCons(a[0], tail);
      assert a == [a[0]] + tail;
      Associative([a[0]], tail, b);
      Associative(EscapeOne(a[0]), EscapePass(tail), EscapePass(b));
    }
  }

  predicate Ascii(t: Str) {
    forall i :: 0 <= i < |t| ==> t[i] < 0x7f
  }

  lemma {:induction false} EscapeAscii(t: Str)
    requires Ascii(t)
    ensures EscapePass(t) == t
  {
    if t != [] {
      EscapeAscii(t[1..]);
    }
  }

  lemma EscapeUnit(c: CodeUnit)
    ensures EscapePass(StringifyUnit(c)) == AsciiUnit(c)
  {
    if c >= 0x7f && !(0xd800 <= c <= 0xdfff) {
      assert StringifyUnit(c) == [c] && [c][1..] == [];
    } else {
      EscapeAscii(StringifyUnit(c));
    }
  }

  lemma {:induction false} EscapeBody(s: Str)
    ensures EscapePass(StringifyBody(s)) == AsciiBody(s)
  {
    if s == [] {
    } else if IsPair(s) {
      EscapeBody(s[2..]);
      EscapeConcat(s[..2], StringifyBody(s[2..]));
      assert s[..2] == [s[0], s[1]] && s[..2][1..] == [s[1]] && [s[1]][1..] == [];
      assert EscapePass(s[..2]) == UEscape(s[0]) + UEscape(s[1]);
      assert s[1..][1..] == s[2..];
      assert AsciiBody(s) == UEscape(s[0]) + (UEscape(s[1]) + AsciiBody(s[2..]));
    } else {
      EscapeBody(s[1..]);
      EscapeUnit(s[0]);
      EscapeConcat(StringifyUnit(s[0]), StringifyBody(s[1..]));
    }
  }

  lemma EscapeQuoted(s: Str)
    ensures EscapePass(Quoted(s, Stringify)) == Quoted(s, PerString)
  {
    EscapeBody(s);
    EscapeAscii([QUOTE]);
    EscapeConcat([QUOTE] + StringifyBody(s), [QUOTE]);
    EscapeConcat([QUOTE], StringifyBody(s));
  }

  /**
   The single pass over the whole text is the same as escaping every string on its own:
   no punctuation, literal or number is ever touched by it.
   */
  lemma {:induction false} EscapePassPerString(v: Json, num: Str -> Str)
    requires Printable(v, num)
    ensures EscapePass(Print(v, Stringify)) == Print(v, PerString)
  {
    match v
    case Null => EscapeAscii(NULL_TEXT);
    case Bool(b) => EscapeAscii(if b then TRUE_TEXT else FALSE_TEXT);
    case Number(lexeme) =>
      NumberTextChars(lexeme);
      EscapeAscii(lexeme);
    case String(s) => EscapeQuoted(s);
    case Array(items) =>
      EscapeItems(items, num);
      EscapeFramed(LBRACKET, PrintItems(items, Stringify), RBRACKET);
    case Object(fields) =>
      EscapeFields(fields, num);
      EscapeFramed(LBRACE, PrintFields(fields, Stringify), RBRACE);
  }

  lemma EscapeFramed(open: CodeUnit, body: Str, close: CodeUnit)
    requires open < 0x7f && close < 0x7f
    ensures EscapePass([open] + body + [close]) == [open] + EscapePass(body) + [close]
  {
    EscapeAscii([open]);
    EscapeAscii([close]);
    EscapeConcat([open] + body, [close]);
    EscapeConcat([open], body);
  }

  lemma {:induction false} EscapeItems(items: seq<Json>, num: Str -> Str)
    requires forall i :: 0 <= i < |items| ==> Printable(items[i], num)
    ensures EscapePass(PrintItems(items, Stringify)) == PrintItems(items, PerString)
  {
    if items != [] {
      EscapePassPerString(items[0], num);
      if |items| > 1 {
        var head, tail := Print(items[0], Stringify), PrintItems(items[1..], Stringify);
        EscapeItems(items[1..], num);
        EscapeAscii([COMMA]);
        EscapeConcat(head + [COMMA], tail);
        EscapeConcat(head, [COMMA]);
      }
    }
  }

  lemma {:induction false} EscapeFields(fields: seq<Field>, num: Str -> Str)
    requires forall i :: 0 <= i < |fields| ==> Printable(fields[i].value, num)
    ensures EscapePass(PrintFields(fields, Stringify)) == PrintFields(fields, PerString)
  {
    if fields != [] {
      var key, value := Quoted(fields[0].key, Stringify), Print(fields[0].value, Stringify);
      EscapePassPerString(fields[0].value, num);
      EscapeQuoted(fields[0].key);
      EscapeAscii([COLON]);
      EscapeConcat(key + [COLON], value);
      EscapeConcat(key, [COLON]);
      if |fields| > 1 {
        var head, tail := PrintField(fields[0], Stringify), PrintFields(fields[1..], Stringify);
        EscapeFields(fields[1..], num);
        EscapeAscii([COMMA]);
        EscapeConcat(head + [COMMA], tail);
        EscapeConcat(head, [COMMA]);
      }
    }
  }

  /// The characters of canonical text

  predicate PrintableAscii(t: Str) {
    forall i :: 0 <= i < |t| ==> 0x20 <= t[i] <= 0x7e
  }

  lemma {:induction false} AsciiBodyPrintable(s: Str)
    ensures PrintableAscii(AsciiBody(s))
  {
    if s != [] {
      AsciiBodyPrintable(s[1..]);
    }
  }

  lemma {:induction false} PrintPrintable(v: Json, num: Str -> Str)
    requires Printable(v, num)
    ensures PrintableAscii(Print(v, PerString))
  {
    match v
    case Number(lexeme) => NumberTextChars(lexeme);
    case String(s) => AsciiBodyPrintable(s);
    case Array(items) => PrintItemsPrintable(items, num);
    case Object(fields) => PrintFieldsPrintable(fields, num);
    case _ =>
  }

  lemma {:induction false} PrintItemsPrintable(items: seq<Json>, num: Str -> Str)
    requires forall i :: 0 <= i < |items| ==> Printable(items[i], num)
    ensures PrintableAscii(PrintItems(items, PerString))
  {
    if items != [] {
      PrintPrintable(items[0], num);
      PrintItemsPrintable(items[1..], num);
    }
  }

  lemma {:induction false} PrintFieldsPrintable(fields: seq<Field>, num: Str -> Str)
    requires forall i :: 0 <= i < |fields| ==> Printable(fields[i].value, num)
    ensures PrintableAscii(PrintFields(fields, PerString))
  {
    if fields != [] {
      AsciiBodyPrintable(fields[0].key);
      PrintPrintable(fields[0].value, num);
      PrintFieldsPrintable(fields[1..], num);
    }
  }

  lemma {:induction false} CanonicalPrintable(v: Json, num: Str -> Str)
    requires Unambiguous(v) && Printable(v, num)
    ensures Printable(Canonical(v), num)
  {
    match v
    case Array(items) =>
      forall i | 0 <= i < |items| ensures Printable(Canonical(items[i]), num) {
        CanonicalPrintable(items[i], num);
      }
    case Object(fields) =>
      var cf := CanonicalFields(fields);
      CanonicalFieldsDistinct(fields);
      PropertyOrderSorts(cf);
      var ps := PropertyOrder(SortLex(cf));
      forall k | 0 <= k < |ps| ensures Printable(ps[k].value, num) {
        assert ps[k] in FieldSet(cf);
        var i :| 0 <= i < |cf| && cf[i] == ps[k];
        CanonicalPrintable(fields[i].value, num);
      }
    case _ =>
  }

  /** Canonical text is printable ASCII, whatever the strings in the value contain. */
  lemma CanonicalTextIsAscii(v: Json, num: Str -> Str)
    requires Unambiguous(v) && Printable(v, num)
    ensures PrintableAscii(CanonicalSellerJson(v))
  {
    CanonicalPrintable(v, num);
    EscapePassPerString(Canonical(v), num);
    PrintPrintable(Canonical(v), num);
  }
}
