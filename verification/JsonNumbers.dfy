/** Which texts are numbers: the lexical test against the grammar of RFC 8259, section 6. */
module JsonNumbers {
  import opened JsonValues
  import opened JsonText

  predicate SomeDigits(t: Str) {
    t != [] && forall i :: 0 <= i < |t| ==> 0x30 <= t[i] <= 0x39
  }

  /** The grammar of section 6 of RFC 8259: `-`, the digits, `.` with digits, `e` or `E` with signed digits. */
  predicate NumberParts(minus: Str, whole: Str, fraction: Str, exponent: Str) {
    && (minus == [] || minus == [0x2d])
    && SomeDigits(whole) && (whole[0] == 0x30 ==> whole == [0x30])
    && (fraction == [] || (fraction[0] == 0x2e && SomeDigits(fraction[1..])))
    && (exponent == [] ||
        (exponent[0] in {0x45, 0x65} &&
         SomeDigits(if |exponent| > 1 && exponent[1] in {0x2b, 0x2d} then exponent[2..] else exponent[1..])))
  }

  lemma {:induction false} RunStops(digits: Str, rest: Str)
    requires AllDigits(digits) && (rest == [] || !IsDigit(rest[0]))
    ensures DigitRun(digits + rest) == |digits|
  {
    if digits == [] {
      assert digits + rest == rest;
    } else {
      assert (digits + rest)[1..] == digits[1..] + rest;
      RunStops(digits[1..], rest);
    }
  }

  /** Exactly the texts of the grammar are number texts. */
  lemma NumberTextIff(t: Str)
    ensures IsNumberText(t) <==>
            exists minus, whole, fraction, exponent ::
              NumberParts(minus, whole, fraction, exponent) && t == minus + (whole + (fraction + exponent))
  {
    if IsNumberText(t) {
      NumberSplits(t);
    }
    if minus, whole, fraction, exponent :|
         NumberParts(minus, whole, fraction, exponent) && t == minus + (whole + (fraction + exponent)) {
      PartsAreNumber(minus, whole, fraction, exponent);
    }
  }

  lemma NumberSplits(t: Str)
    requires IsNumberText(t)
    ensures exists minus, whole, fraction, exponent ::
              NumberParts(minus, whole, fraction, exponent) && t == minus + (whole + (fraction + exponent))
  {
    if t[0] == 0x2d {
      var whole, fraction, exponent := UnsignedSplits(t[1..]);
      assert NumberParts([0x2d], whole, fraction, exponent);
      assert t == [0x2d] + t[1..];
    } else {
      var whole, fraction, exponent := UnsignedSplits(t);
      assert NumberParts([], whole, fraction, exponent);
      assert t == [] + t;
    }
  }

  lemma UnsignedSplits(u: Str) returns (whole: Str, fraction: Str, exponent: Str)
    requires DigitRun(u) > 0 && (u[0] == 0x30 ==> DigitRun(u) == 1) && IsFraction(u[DigitRun(u)..])
    ensures u == whole + (fraction + exponent) && NumberParts([], whole, fraction, exponent)
  {
    var v := u[DigitRun(u)..];
    whole := u[..DigitRun(u)];
    assert u == whole + v;
    WholeFirst(u);
    fraction, exponent := FractionSplits(v);
  }

  lemma WholeFirst(u: Str)
    requires DigitRun(u) > 0 && (u[0] == 0x30 ==> DigitRun(u) == 1)
    ensures var whole := u[..DigitRun(u)];
            SomeDigits(whole) && (whole[0] == 0x30 ==> whole == [0x30])
  {
  }

  lemma FractionSplits(v: Str) returns (fraction: Str, exponent: Str)
    requires IsFraction(v)
    ensures v == fraction + exponent && NumberParts([], [0x30], fraction, exponent)
  {
    var m := if v != [] && v[0] == 0x2e then 1 + DigitRun(v[1..]) else 0;
    fraction, exponent := v[..m], v[m..];
    assert m > 0 ==> fraction[1..] == v[1..][..m - 1];
    assert IsExponent(exponent);
  }

  lemma PartsAreNumber(minus: Str, whole: Str, fraction: Str, exponent: Str)
    requires NumberParts(minus, whole, fraction, exponent)
    ensures IsNumberText(minus + (whole + (fraction + exponent)))
  {
    var v := fraction + exponent;
    var t := minus + (whole + v);
    PartsUnsigned(whole, v);
    FractionAndExponent(fraction, exponent);
    if minus == [] {
      assert t == whole + v;
    } else {
      assert t[1..] == whole + v;
    }
  }

  lemma PartsUnsigned(whole: Str, v: Str)
    requires SomeDigits(whole) && (whole[0] == 0x30 ==> whole == [0x30]) && (v == [] || !IsDigit(v[0]))
    ensures var u := whole + v;
            u[0] == whole[0] != 0x2d && DigitRun(u) == |whole| && (u[0] == 0x30 ==> DigitRun(u) == 1) &&
            u[DigitRun(u)..] == v
  {
    RunStops(whole, v);
  }

  lemma FractionAndExponent(fraction: Str, exponent: Str)
    requires NumberParts([], [0x30], fraction, exponent)
    ensures IsFraction(fraction + exponent)
  {
    var v := fraction + exponent;
    assert IsExponent(exponent);
    if fraction == [] {
      assert v == exponent;
    } else {
      assert v[1..] == fraction[1..] + exponent;
      RunStops(fraction[1..], exponent);
      assert v[1 + |fraction[1..]|..] == exponent;
    }
  }
}
