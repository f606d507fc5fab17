/**
 `JSON.parse` (RFC 8259) and the proof that it inverts the seller's printer.
 `num` is ToString of ToNumber on a number text: the text of the number JavaScript reads.
 */
module JsonParser {
  import opened JsonValues
  import opened JsonText

  datatype Parsed<T> = Reject | Accept(value: T, rest: Str)

  predicate IsSpace(c: CodeUnit) {
    c == 0x20 || c == 0x09 || c == 0x0a || c == 0x0d
  }

  function SkipSpace(t: Str): (r: Str)
    ensures |r| <= |t|
  {
    if t != [] && IsSpace(t[0]) then SkipSpace(t[1..]) else t
  }

  /// Strings

  function HexValue(c: CodeUnit): int {
    if IsDigit(c) then c - 0x30
    else if 0x41 <= c <= 0x46 then c - 0x41 + 10
    else if 0x61 <= c <= 0x66 then c - 0x61 + 10
    else -1
  }

  /** The code unit a one-letter escape stands for. */
  function Unescape(c: CodeUnit): int {
    if c == 0x62 then 0x08
    else if c == 0x74 then 0x09
    else if c == 0x6e then 0x0a
    else if c == 0x66 then 0x0c
    else if c == 0x72 then 0x0d
    else if c == QUOTE || c == BACKSLASH || c == 0x2f then c
    else -1
  }

  /** One character of a string literal: raw, one-letter escape, or four hex digits. */
  function ParseUnit(t: Str): (r: Parsed<CodeUnit>)
    ensures r.Accept? ==> |r.rest| < |t|
  {
    if t == [] || t[0] == QUOTE || t[0] < 0x20 then Reject
    else if t[0] != BACKSLASH then Accept(t[0], t[1..])
    else if |t| == 1 then Reject
    else if t[1] != LETTER_U then
      if Unescape(t[1]) >= 0 then Accept(Unescape(t[1]), t[2..]) else Reject
    else if |t| < 6 then Reject
    else
      var a, b, c, d := HexValue(t[2]), HexValue(t[3]), HexValue(t[4]), HexValue(t[5]);
      if a < 0 || b < 0 || c < 0 || d < 0 then Reject
      else Accept(4096 * a + 256 * b + 16 * c + d, t[6..])
  }

  /** The rest of a string literal after its opening quote. */
  function ParseBody(t: Str): (r: Parsed<Str>)
    ensures r.Accept? ==> |r.rest| < |t|
    decreases |t|
  {
    if t != [] && t[0] == QUOTE then Accept([], t[1..])
    else match ParseUnit(t)
      case Reject => Reject
      case Accept(c, rest) =>
        match ParseBody(rest)
        case Reject => Reject
        case Accept(s, rest') => Accept([c] + s, rest')
  }

  /// Numbers

  function NumberRun(t: Str): (n: nat)
    ensures n <= |t| && AllNumberChars(t[..n])
    ensures n < |t| ==> !IsNumberChar(t[n])
  {
    if t != [] && IsNumberChar(t[0]) then
      assert forall n: nat {:trigger t[1..][..n]} :: n < |t| ==> t[..1 + n] == [t[0]] + t[1..][..n];
      1 + NumberRun(t[1..])
    else 0
  }

  /// Values

  /** Define a property: a repeated key keeps its place and takes the later value. */
  function Define(fs: seq<Field>, f: Field): seq<Field> {
    if fs == [] then [f]
    else if fs[0].key == f.key then [f] + fs[1..]
    else [fs[0]] + Define(fs[1..], f)
  }

  function DefineAll(fs: seq<Field>): seq<Field> {
    if fs == [] then [] else Define(DefineAll(fs[..|fs| - 1]), fs[|fs| - 1])
  }

  predicate StartsWith(t: Str, prefix: Str) {
    |prefix| <= |t| && t[..|prefix|] == prefix
  }

  function ParseValue(t: Str, num: Str -> Str): (r: Parsed<Json>)
    ensures r.Accept? ==> |r.rest| < |t|
    decreases |t|, 1
  {
    var u := SkipSpace(t);
    if u == [] then Reject
    else if u[0] == QUOTE then
      match ParseBody(u[1..])
      case Reject => Reject
      case Accept(s, rest) => Accept(String(s), rest)
    else if u[0] == LBRACKET then
      var w := SkipSpace(u[1..]);
      if w != [] && w[0] == RBRACKET then Accept(Array([]), w[1..])
      else match ParseItems(u[1..], num)
        case Reject => Reject
        case Accept(items, rest) => Accept(Array(items), rest)
    else if u[0] == LBRACE then
      var w := SkipSpace(u[1..]);
      if w != [] && w[0] == RBRACE then Accept(Object([]), w[1..])
      else match ParseFields(u[1..], num)
        case Reject => Reject
        case Accept(fields, rest) => Accept(Object(DefineAll(fields)), rest)
    else if StartsWith(u, NULL_TEXT) then Accept(Null, u[4..])
    else if StartsWith(u, TRUE_TEXT) then Accept(Bool(true), u[4..])
    else if StartsWith(u, FALSE_TEXT) then Accept(Bool(false), u[5..])
    else
      var n := NumberRun(u);
      if n > 0 && IsNumberText(u[..n]) then Accept(Number(num(u[..n])), u[n..]) else Reject
  }

  /** The elements of a non-empty array and its closing bracket. */
  function ParseItems(t: Str, num: Str -> Str): (r: Parsed<seq<Json>>)
    ensures r.Accept? ==> |r.rest| < |t|
    decreases |t|, 2
  {
    match ParseValue(t, num)
    case Reject => Reject
    case Accept(v, rest) =>
      var s := SkipSpace(rest);
      if s == [] then Reject
      else if s[0] == RBRACKET then Accept([v], s[1..])
      else if s[0] != COMMA then Reject
      else match ParseItems(s[1..], num)
        case Reject => Reject
        case Accept(vs, rest') => Accept([v] + vs, rest')
  }

  /** The members of a non-empty object and its closing brace. */
  function ParseFields(t: Str, num: Str -> Str): (r: Parsed<seq<Field>>)
    ensures r.Accept? ==> |r.rest| < |t|
    decreases |t|, 2
  {
    match ParseField(t, num)
    case Reject => Reject
    case Accept(f, rest) =>
      var s := SkipSpace(rest);
      if s == [] then Reject
      else if s[0] == RBRACE then Accept([f], s[1..])
      else if s[0] != COMMA then Reject
      else match ParseFields(s[1..], num)
        case Reject => Reject
        case Accept(fs, rest') => Accept([f] + fs, rest')
  }

  function ParseField(t: Str, num: Str -> Str): (r: Parsed<Field>)
    ensures r.Accept? ==> |r.rest| < |t|
    decreases |t|, 1
  {
    var u := SkipSpace(t);
    if u == [] || u[0] != QUOTE then Reject
    else match ParseBody(u[1..])
      case Reject => Reject
      case Accept(key, rest) =>
        var s := SkipSpace(rest);
        if s == [] || s[0] != COLON then Reject
        else match ParseValue(s[1..], num)
          case Reject => Reject
          case Accept(v, rest') => Accept(Field(key, v), rest')
  }

  /** `JSON.parse`: one value and nothing but white space after it. */
  function Parse(t: Str, num: Str -> Str): Parsed<Json> {
    match ParseValue(t, num)
    case Reject => Reject
    case Accept(v, rest) => if SkipSpace(rest) == [] then Accept(v, []) else Reject
  }

  /// Round trip

  lemma HexRoundTrip(n: int)
    requires 0 <= n < 16
    ensures HexValue(HexDigit(n)) == n
  {
  }

  lemma HexWeights(c: CodeUnit)
    ensures 4096 * (c / 4096) + 256 * (c / 256 % 16) + 16 * (c / 16 % 16) + c % 16 == c
  {
    var h := c / 16;
    var g := h / 16;
    assert c == 16 * h + c % 16 && h == 16 * g + h % 16 && g == 16 * (g / 16) + g % 16;
    assert c / 256 == g && c / 4096 == g / 16;
  }

  lemma ParseUnitPrint(c: CodeUnit, rest: Str)
    ensures ParseUnit(AsciiUnit(c) + rest) == Accept(c, rest)
  {
    var t := AsciiUnit(c) + rest;
    if ShortEscape(c) != 0 {
      assert t[2..] == rest;
    } else if c < 0x20 || c >= 0x7f {
      HexRoundTrip(c / 4096);
      HexRoundTrip(c / 256 % 16);
      HexRoundTrip(c / 16 % 16);
      HexRoundTrip(c % 16);
      HexWeights(c);
      assert t[6..] == rest;
    } else {
      assert t[1..] == rest;
    }
  }

  lemma BodyStep(t: Str, c: CodeUnit, tail: Str, s: Str, rest: Str)
    requires t != [] && t[0] != QUOTE && ParseUnit(t) == Accept(c, tail) && ParseBody(tail) == Accept(s, rest)
    ensures ParseBody(t) == Accept([c] + s, rest)
  {
  }

  lemma {:induction false} ParseBodyPrint(s: Str, rest: Str)
    ensures ParseBody(AsciiBody(s) + [QUOTE] + rest) == Accept(s, rest)
  {
    var t := AsciiBody(s) + [QUOTE] + rest;
    if s == [] {
      assert t == [QUOTE] + rest && t[1..] == rest;
    } else {
      var tail := AsciiBody(s[1..]) + [QUOTE] + rest;
      assert t == AsciiUnit(s[0]) + tail;
      ParseUnitPrint(s[0], tail);
      ParseBodyPrint(s[1..], rest);
      BodyStep(t, s[0], tail, s[1..], rest);
      assert s == [s[0]] + s[1..];
    }
  }

  lemma {:induction false} NumberRunStops(t: Str, rest: Str)
    requires AllNumberChars(t)
    requires rest == [] || !IsNumberChar(rest[0])
    ensures NumberRun(t + rest) == |t|
  {
    if t == [] {
      assert t + rest == rest;
    } else {
      NumberRunStops(t[1..], rest);
      assert (t + rest)[1..] == t[1..] + rest;
    }
  }

  lemma {:induction false} DefineFresh(fs: seq<Field>, f: Field)
    requires forall i :: 0 <= i < |fs| ==> fs[i].key != f.key
    ensures Define(fs, f) == fs + [f]
  {
    if fs != [] {
      DefineFresh(fs[1..], f);
    }
  }

  lemma {:induction false} DefineAllDistinct(fs: seq<Field>)
    requires DistinctKeys(fs)
    ensures DefineAll(fs) == fs
  {
    if fs != [] {
      DefineAllDistinct(fs[..|fs| - 1]);
      DefineFresh(fs[..|fs| - 1], fs[|fs| - 1]);
    }
  }

  /** What can follow a value inside canonical text: nothing, or a delimiter. */
  predicate Delimited(rest: Str) {
    rest == [] || rest[0] == COMMA || rest[0] == RBRACKET || rest[0] == RBRACE
  }

  lemma PrintStarts(v: Json, num: Str -> Str)
    requires Printable(v, num)
    ensures var p := Print(v, PerString);
            p != [] && !IsSpace(p[0]) && p[0] != RBRACKET && p[0] != RBRACE
  {
    if v.Number? { NumberTextChars(v.lexeme); }
  }

  /// One step of each list and object parser, for any text of the right shape

  lemma ArrayStep(body: Str, items: seq<Json>, rest: Str, num: Str -> Str)
    requires body != [] && !IsSpace(body[0]) && body[0] != RBRACKET
    requires ParseItems(body, num) == Accept(items, rest)
    ensures ParseValue([LBRACKET] + body, num) == Accept(Array(items), rest)
  {
    assert ([LBRACKET] + body)[1..] == body;
  }

  lemma ObjectStep(body: Str, fields: seq<Field>, rest: Str, num: Str -> Str)
    requires body != [] && body[0] == QUOTE
    requires ParseFields(body, num) == Accept(fields, rest)
    ensures ParseValue([LBRACE] + body, num) == Accept(Object(DefineAll(fields)), rest)
  {
    assert ([LBRACE] + body)[1..] == body;
  }

  lemma LastItemStep(t: Str, v: Json, rest: Str, num: Str -> Str)
    requires ParseValue(t, num) == Accept(v, [RBRACKET] + rest)
    ensures ParseItems(t, num) == Accept([v], rest)
  {
    assert ([RBRACKET] + rest)[1..] == rest;
  }

  lemma MoreItemsStep(t: Str, v: Json, tail: Str, vs: seq<Json>, rest: Str, num: Str -> Str)
    requires ParseValue(t, num) == Accept(v, [COMMA] + tail)
    requires ParseItems(tail, num) == Accept(vs, rest)
    ensures ParseItems(t, num) == Accept([v] + vs, rest)
  {
    assert ([COMMA] + tail)[1..] == tail;
  }

  lemma FieldStep(body: Str, key: Str, value: Str, v: Json, rest: Str, num: Str -> Str)
    requires ParseBody(body) == Accept(key, [COLON] + value)
    requires ParseValue(value, num) == Accept(v, rest)
    ensures ParseField([QUOTE] + body, num) == Accept(Field(key, v), rest)
  {
    assert ([QUOTE] + body)[1..] == body;
    assert ([COLON] + value)[1..] == value;
  }

  lemma LastFieldStep(t: Str, f: Field, rest: Str, num: Str -> Str)
    requires ParseField(t, num) == Accept(f, [RBRACE] + rest)
    ensures ParseFields(t, num) == Accept([f], rest)
  {
    assert ([RBRACE] + rest)[1..] == rest;
  }

  lemma MoreFieldsStep(t: Str, f: Field, tail: Str, fs: seq<Field>, rest: Str, num: Str -> Str)
    requires ParseField(t, num) == Accept(f, [COMMA] + tail)
    requires ParseFields(tail, num) == Accept(fs, rest)
    ensures ParseFields(t, num) == Accept([f] + fs, rest)
  {
    assert ([COMMA] + tail)[1..] == tail;
  }

  lemma StringStep(body: Str, s: Str, rest: Str, num: Str -> Str)
    requires ParseBody(body) == Accept(s, rest)
    ensures ParseValue([QUOTE] + body, num) == Accept(String(s), rest)
  {
    assert ([QUOTE] + body)[1..] == body;
  }

  lemma StringPrint(s: Str, rest: Str, num: Str -> Str)
    ensures ParseValue(Quoted(s, PerString) + rest, num) == Accept(String(s), rest)
  {
    var t := Quoted(s, PerString) + rest;
    ParseBodyPrint(s, rest);
    assert t == [QUOTE] + (AsciiBody(s) + [QUOTE] + rest);
    StringStep(AsciiBody(s) + [QUOTE] + rest, s, rest, num);
  }

  lemma OwnPrefix(prefix: Str, rest: Str)
    ensures StartsWith(prefix + rest, prefix) && (prefix + rest)[|prefix|..] == rest
  {
  }

  lemma LiteralPrint(v: Json, rest: Str, num: Str -> Str)
    requires v.Null? || v.Bool?
    ensures ParseValue(Print(v, PerString) + rest, num) == Accept(v, rest)
  {
    var literal := Print(v, PerString);
    OwnPrefix(literal, rest);
    if v.Bool? {
      OtherPrefix(literal + rest, NULL_TEXT);
      if !v.b { OtherPrefix(literal + rest, TRUE_TEXT); }
    }
  }

  lemma OtherPrefix(t: Str, prefix: Str)
    requires t != [] && prefix != [] && t[0] != prefix[0]
    ensures !StartsWith(t, prefix)
  {
    if |prefix| <= |t| { assert t[..|prefix|][0] == t[0]; }
  }

  lemma NumberStep(t: Str, n: nat, num: Str -> Str)
    requires t != [] && (t[0] == 0x2d || IsDigit(t[0]))
    requires NumberRun(t) == n && IsNumberText(t[..n])
    ensures ParseValue(t, num) == Accept(Number(num(t[..n])), t[n..])
  {
    OtherPrefix(t, NULL_TEXT);
    OtherPrefix(t, TRUE_TEXT);
    OtherPrefix(t, FALSE_TEXT);
  }

  lemma NumberPrint(lexeme: Str, rest: Str, num: Str -> Str)
    requires IsNumberText(lexeme) && num(lexeme) == lexeme && Delimited(rest)
    ensures ParseValue(lexeme + rest, num) == Accept(Number(lexeme), rest)
  {
    var t := lexeme + rest;
    NumberTextChars(lexeme);
    NumberRunStops(lexeme, rest);
    assert t[..|lexeme|] == lexeme && t[|lexeme|..] == rest;
    NumberStep(t, |lexeme|, num);
  }

  lemma EmptyContainers(rest: Str, num: Str -> Str)
    ensures ParseValue([LBRACKET] + [] + [RBRACKET] + rest, num) == Accept(Array([]), rest)
    ensures ParseValue([LBRACE] + [] + [RBRACE] + rest, num) == Accept(Object([]), rest)
  {
    assert ([LBRACKET] + [] + [RBRACKET] + rest)[1..] == [RBRACKET] + rest;
    assert ([LBRACE] + [] + [RBRACE] + rest)[1..] == [RBRACE] + rest;
    assert ([RBRACKET] + rest)[1..] == rest && ([RBRACE] + rest)[1..] == rest;
  }

  lemma FramedText(open: CodeUnit, body: Str, close: CodeUnit, rest: Str)
    ensures [open] + body + [close] + rest == [open] + (body + [close] + rest)
  {
  }

  lemma {:induction false} ParseValuePrint(v: Json, rest: Str, num: Str -> Str)
    requires Unambiguous(v) && Printable(v, num) && Delimited(rest)
    ensures ParseValue(Print(v, PerString) + rest, num) == Accept(v, rest)
    decreases v, 0
  {
    match v
    case Number(lexeme) => NumberPrint(lexeme, rest, num);
    case Array(items) =>
      if items == [] {
        EmptyContainers(rest, num);
      } else {
        ParseArrayPrint(items, rest, num);
      }
    case Object(fields) =>
      if fields == [] {
        EmptyContainers(rest, num);
      } else {
        ParseObjectPrint(fields, rest, num);
      }
    case String(s) => StringPrint(s, rest, num);
    case _ => LiteralPrint(v, rest, num);
  }

  lemma {:induction false} ParseArrayPrint(items: seq<Json>, rest: Str, num: Str -> Str)
    requires items != []
    requires forall i :: 0 <= i < |items| ==> Unambiguous(items[i]) && Printable(items[i], num)
    ensures ParseValue(Print(Array(items), PerString) + rest, num) == Accept(Array(items), rest)
    decreases items, 1
  {
    var body := PrintItems(items, PerString) + [RBRACKET] + rest;
    PrintStarts(items[0], num);
    assert PrintItems(items, PerString)[0] == Print(items[0], PerString)[0];
    ParseItemsPrint(items, rest, num);
    ArrayStep(body, items, rest, num);
    FramedText(LBRACKET, PrintItems(items, PerString), RBRACKET, rest);
  }

  lemma {:induction false} ParseObjectPrint(fields: seq<Field>, rest: Str, num: Str -> Str)
    requires fields != [] && DistinctKeys(fields)
    requires forall i :: 0 <= i < |fields| ==> Unambiguous(fields[i].value) && Printable(fields[i].value, num)
    ensures ParseValue(Print(Object(fields), PerString) + rest, num) == Accept(Object(fields), rest)
    decreases fields, 1
  {
    var body := PrintFields(fields, PerString) + [RBRACE] + rest;
    assert PrintField(fields[0], PerString)[0] == QUOTE;
    assert PrintFields(fields, PerString)[0] == QUOTE;
    ParseFieldsPrint(fields, rest, num);
    ObjectStep(body, fields, rest, num);
    DefineAllDistinct(fields);
    FramedText(LBRACE, PrintFields(fields, PerString), RBRACE, rest);
  }

  lemma {:induction false} ParseItemsPrint(items: seq<Json>, rest: Str, num: Str -> Str)
    requires items != []
    requires forall i :: 0 <= i < |items| ==> Unambiguous(items[i]) && Printable(items[i], num)
    ensures ParseItems(PrintItems(items, PerString) + [RBRACKET] + rest, num) == Accept(items, rest)
    decreases items, 0
  {
    var t := PrintItems(items, PerString) + [RBRACKET] + rest;
    if |items| == 1 {
      ParseValuePrint(items[0], [RBRACKET] + rest, num);
      ListText(Print(items[0], PerString), COMMA, [], RBRACKET, rest);
      LastItemStep(t, items[0], rest, num);
      assert items == [items[0]];
    } else {
      var tail := PrintItems(items[1..], PerString) + [RBRACKET] + rest;
      ParseValuePrint(items[0], [COMMA] + tail, num);
      ListText(Print(items[0], PerString), COMMA, PrintItems(items[1..], PerString), RBRACKET, rest);
      ParseItemsPrint(items[1..], rest, num);
      MoreItemsStep(t, items[0], tail, items[1..], rest, num);
      assert items == [items[0]] + items[1..];
    }
  }

  lemma FieldText(key: Str, value: Str, rest: Str)
    ensures [QUOTE] + key + [QUOTE] + [COLON] + value + rest ==
            [QUOTE] + (key + [QUOTE] + ([COLON] + (value + rest)))
  {
  }

  lemma ListText(head: Str, separator: CodeUnit, tail: Str, close: CodeUnit, rest: Str)
    ensures head + [separator] + tail + [close] + rest == head + ([separator] + (tail + [close] + rest))
    ensures head + [close] + rest == head + ([close] + rest)
  {
  }

  lemma {:induction false} ParseFieldPrint(f: Field, rest: Str, num: Str -> Str)
    requires Unambiguous(f.value) && Printable(f.value, num) && Delimited(rest)
    ensures ParseField(PrintField(f, PerString) + rest, num) == Accept(f, rest)
    decreases f, 0
  {
    var value := Print(f.value, PerString) + rest;
    ParseBodyPrint(f.key, [COLON] + value);
    ParseValuePrint(f.value, rest, num);
    FieldStep(AsciiBody(f.key) + [QUOTE] + ([COLON] + value), f.key, value, f.value, rest, num);
    FieldText(AsciiBody(f.key), Print(f.value, PerString), rest);
  }

  lemma {:induction false} ParseFieldsPrint(fields: seq<Field>, rest: Str, num: Str -> Str)
    requires fields != []
    requires forall i :: 0 <= i < |fields| ==> Unambiguous(fields[i].value) && Printable(fields[i].value, num)
    ensures ParseFields(PrintFields(fields, PerString) + [RBRACE] + rest, num) == Accept(fields, rest)
    decreases fields, 0
  {
    var t := PrintFields(fields, PerString) + [RBRACE] + rest;
    if |fields| == 1 {
      ParseFieldPrint(fields[0], [RBRACE] + rest, num);
      ListText(PrintField(fields[0], PerString), COMMA, [], RBRACE, rest);
      LastFieldStep(t, fields[0], rest, num);
      assert fields == [fields[0]];
    } else {
      var tail := PrintFields(fields[1..], PerString) + [RBRACE] + rest;
      ParseFieldPrint(fields[0], [COMMA] + tail, num);
      ListText(PrintField(fields[0], PerString), COMMA, PrintFields(fields[1..], PerString), RBRACE, rest);
      ParseFieldsPrint(fields[1..], rest, num);
      MoreFieldsStep(t, fields[0], tail, fields[1..], rest, num);
      assert fields == [fields[0]] + fields[1..];
    }
  }

  /** Parsing canonical text gives back the canonical form of the value that was printed. */
  lemma CanonicalRoundTrip(v: Json, num: Str -> Str)
    requires Unambiguous(v) && Printable(v, num)
    ensures Parse(CanonicalSellerJson(v), num) == Accept(Canonical(v), [])
    ensures Same(v, Canonical(v))
  {
    CanonicalUnambiguous(v);
    CanonicalPrintable(v, num);
    EscapePassPerString(Canonical(v), num);
    ParseValuePrint(Canonical(v), [], num);
    assert Print(Canonical(v), PerString) + [] == Print(Canonical(v), PerString);
    CanonicalIffSame(v, Canonical(v));
  }

  /**
   The text identifies the value: two values print alike exactly when they are equal up to
   the order of object keys.
   */
  lemma CanonicalTextIffSame(a: Json, b: Json, num: Str -> Str)
    requires Unambiguous(a) && Printable(a, num) && Unambiguous(b) && Printable(b, num)
    ensures CanonicalSellerJson(a) == CanonicalSellerJson(b) <==> Same(a, b)
  {
    CanonicalRoundTrip(a, num);
    CanonicalRoundTrip(b, num);
    CanonicalIffSame(a, b);
  }

  /// Texts the printer does not write

  /** White space before a value or a member is ignored; anything but white space after the value is an error. */
  lemma SpaceIgnored(w: CodeUnit, t: Str, num: Str -> Str)
    requires w in {0x20, 0x09, 0x0a, 0x0d}
    ensures ParseValue([w] + t, num) == ParseValue(t, num) && ParseField([w] + t, num) == ParseField(t, num)
    ensures SkipSpace([w] + t) == SkipSpace(t)
  {
    assert ([w] + t)[1..] == t;
  }

  lemma RestDecides(t: Str, num: Str -> Str)
    ensures Parse(t, num).Accept? <==>
            ParseValue(t, num).Accept? &&
            forall i :: 0 <= i < |ParseValue(t, num).rest| ==> ParseValue(t, num).rest[i] in {0x20, 0x09, 0x0a, 0x0d}
  {
    if ParseValue(t, num).Accept? { AllSpace(ParseValue(t, num).rest); }
  }

  lemma {:induction false} AllSpace(t: Str)
    ensures SkipSpace(t) == [] <==> forall i :: 0 <= i < |t| ==> t[i] in {0x20, 0x09, 0x0a, 0x0d}
  {
    if t != [] {
      AllSpace(t[1..]);
      assert t == [t[0]] + t[1..];
    }
  }

  /** The digits of an escape may have either case. */
  lemma EitherCase(h: CodeUnit, n: nat)
    requires n < 16
    ensures HexValue(h) == n <==> (n < 10 && h == 0x30 + n) || (n >= 10 && (h == 0x57 + n || h == 0x37 + n))
  {
  }

  lemma EscapeDenotes(a: CodeUnit, b: CodeUnit, c: CodeUnit, d: CodeUnit, rest: Str)
    requires HexValue(a) >= 0 && HexValue(b) >= 0 && HexValue(c) >= 0 && HexValue(d) >= 0
    ensures ParseUnit([0x5c, 0x75, a, b, c, d] + rest)
         == Accept(4096 * HexValue(a) + 256 * HexValue(b) + 16 * HexValue(c) + HexValue(d), rest)
  {
    assert ([0x5c, 0x75, a, b, c, d] + rest)[6..] == rest;
  }

  /** The one-letter escapes, a solidus among them; every other letter is an error. */
  lemma LetterEscapes(c: CodeUnit, rest: Str)
    requires c != 0x75
    ensures var u := if c in {0x22, 0x5c, 0x2f} then c as int else if c == 0x62 then 0x08 else if c == 0x66 then 0x0c
                     else if c == 0x6e then 0x0a else if c == 0x72 then 0x0d else if c == 0x74 then 0x09 else -1;
            ParseUnit([0x5c, c] + rest) == if u >= 0 then Accept(u, rest) else Reject
  {
    assert ([0x5c, c] + rest)[2..] == rest;
  }

  /** A repeated key counts once, with its last value. */
  lemma {:induction false} LastValueWins(fs: seq<Field>, f: Field)
    ensures f in DefineAll(fs + [f])
    ensures forall g :: g in DefineAll(fs + [f]) && g.key == f.key ==> g == f
    ensures forall g: Field :: g.key != f.key ==> (g in DefineAll(fs + [f]) <==> g in DefineAll(fs))
  {
    assert (fs + [f])[..|fs|] == fs;
    DefineAllIsDistinct(fs);
    DefineReplaces(DefineAll(fs), f);
  }

  lemma {:induction false} DefineAllIsDistinct(fs: seq<Field>)
    ensures DistinctKeys(DefineAll(fs))
  {
    if fs != [] {
      DefineAllIsDistinct(fs[..|fs| - 1]);
      DefineReplaces(DefineAll(fs[..|fs| - 1]), fs[|fs| - 1]);
    }
  }

  lemma {:induction false} DefineReplaces(fs: seq<Field>, f: Field)
    requires DistinctKeys(fs)
    ensures DistinctKeys(Define(fs, f))
    ensures f in Define(fs, f) && forall g :: g in Define(fs, f) && g.key == f.key ==> g == f
    ensures forall g: Field :: g.key != f.key ==> (g in Define(fs, f) <==> g in fs)
  {
    if fs != [] {
      assert fs == [fs[0]] + fs[1..];
      if fs[0].key != f.key {
        DefineReplaces(fs[1..], f);
        assert Define(fs, f) == [fs[0]] + Define(fs[1..], f);
      }
    }
  }
}
