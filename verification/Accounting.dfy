// The accounting rule for usage counters: four implementations that look at a
// JSON number's spelling, against one meaning.
module Accounting {
  import opened Envelopes
  import opened JsonGrammar

  const MAX_COUNT: nat := 9007199254740991

  function NatOf(digits: Text): nat
    requires AllDigits(digits)
  {
    if digits == [] then 0
    else NatOf(digits[..|digits| - 1]) * 10 + (digits[|digits| - 1] - ZERO)
  }

  // An integer spelling whose value is from 0 to 2^53 - 1. "-0" is such a spelling.
  predicate IsCount(n: Numeral)
    requires ValidNumeral(n)
  {
    && n.fraction == [] && n.exponent.NoExponent?
    && (if n.minus then NatOf(n.whole) == 0 else NatOf(n.whole) <= MAX_COUNT)
  }

  // The signed value of a text of digits after an optional minus.
  function SignedValue(s: Text): Option<int> {
    if s == [] then None
    else if s[0] == MINUS then
      if |s| > 1 && AllDigits(s[1..]) then Some(-(NatOf(s[1..]) as int)) else None
    else if AllDigits(s) then Some(NatOf(s)) else None
  }

  // strconv.ParseInt(s, 10, 64) and str::parse::<i64>, on texts without a leading plus.
  function ParseInt64(s: Text): Option<int> {
    match SignedValue(s)
    case None => None
    case Some(v) => if -0x8000_0000_0000_0000 <= v <= 0x7FFF_FFFF_FFFF_FFFF then Some(v) else None
  }

  // schema/wire.go, counter
  predicate GoCounter(s: Text) {
    && DOT !in s && 0x65 !in s && 0x45 !in s
    && ParseInt64(s).Some? && 0 <= ParseInt64(s).value <= MAX_COUNT
  }

  // sdk/rust/src/wire.rs, event_raw
  predicate RustCounter(s: Text) {
    var digits := if s != [] && s[0] == MINUS then s[1..] else s;
    && digits != [] && AllDigits(digits)
    && ParseInt64(s).Some? && 0 <= ParseInt64(s).value <= MAX_COUNT
  }

  // sdk/typescript/src/wire.ts, inspectJSON: the length bound, then
  // ^(?:-?0|[1-9][0-9]*)$, then the value.
  predicate TypeScriptCounter(s: Text) {
    && |s| <= 16
    && (s == [ZERO] || s == [MINUS, ZERO] || (s != [] && AllDigits(s) && s[0] != ZERO))
    && SignedValue(s).Some? && SignedValue(s).value <= MAX_COUNT
  }

  // sdk/python/pitot/wire.py, event: json.loads makes an int of a spelling
  // without fraction and exponent, and a float of any other.
  predicate PythonCounter(s: Text) {
    && DOT !in s && 0x65 !in s && 0x45 !in s
    && SignedValue(s).Some? && 0 <= SignedValue(s).value <= MAX_COUNT
  }

  // ----- Digits and magnitude -----

  function Pow10(n: nat): nat {
    if n == 0 then 1 else 10 * Pow10(n - 1)
  }

  lemma {:induction false} LeadingDigitBounds(digits: Text)
    requires |digits| > 0 && AllDigits(digits) && digits[0] != ZERO
    ensures NatOf(digits) >= Pow10(|digits| - 1)
  {
    if |digits| > 1 {
      LeadingDigitBounds(digits[..|digits| - 1]);
    } else {
      assert digits[..0] == [];
    }
  }

  lemma {:induction false} Pow10Grows(a: nat, b: nat)
    requires a <= b
    ensures Pow10(a) <= Pow10(b)
    decreases b
  {
    if a < b {
      Pow10Grows(a, b - 1);
    }
  }

  // A whole part longer than 16 digits is out of range, and only "0" is zero.
  lemma WholeMagnitude(whole: Text)
    requires ValidWhole(whole)
    ensures NatOf(whole) <= MAX_COUNT ==> |whole| <= 16
    ensures NatOf(whole) == 0 <==> whole == [ZERO]
  {
    if whole[0] == ZERO {
      assert whole[..0] == [];
    } else {
      LeadingDigitBounds(whole);
      Pow10Grows(0, |whole| - 1);
      if |whole| > 16 {
        Pow10Grows(16, |whole| - 1);
        assert Pow10(16) == 10000000000000000 by {
          assert Pow10(8) == 100000000;
        }
      }
    }
  }

  function Tail(n: Numeral): Text {
    RenderFraction(n.fraction) + RenderExponent(n.exponent)
  }

  predicate IsBare(n: Numeral) {
    n.fraction == [] && n.exponent.NoExponent?
  }

  // What follows the whole part starts with one of the three marks, if it is anything.
  lemma TailMark(n: Numeral)
    requires ValidNumeral(n)
    ensures IsBare(n) <==> Tail(n) == []
    ensures !IsBare(n) ==> Tail(n)[0] == DOT || Tail(n)[0] == 0x65 || Tail(n)[0] == 0x45
  {
    if n.fraction != [] {
      assert Tail(n)[0] == DOT;
    } else if n.exponent.Exponent? {
      assert Tail(n)[0] == n.exponent.marker;
    }
  }

  // The text after the sign.
  lemma Body(n: Numeral)
    requires ValidNumeral(n)
    ensures var s := RenderNumeral(n);
            && s != [] && (s[0] == MINUS <==> n.minus)
            && (if n.minus then s == [MINUS] + (n.whole + Tail(n)) else s == n.whole + Tail(n))
  {
    var s := RenderNumeral(n);
    if n.minus {
      assert s == [MINUS] + (n.whole + Tail(n));
    } else {
      assert s == n.whole + Tail(n);
      assert s[0] == n.whole[0];
    }
  }

  lemma MarksInBody(whole: Text, tail: Text)
    requires AllDigits(whole)
    requires tail != [] ==> tail[0] == DOT || tail[0] == 0x65 || tail[0] == 0x45
    ensures tail == [] <==> AllDigits(whole + tail)
    ensures tail == [] <==> DOT !in whole + tail && 0x65 !in whole + tail && 0x45 !in whole + tail
  {
    if tail != [] {
      assert (whole + tail)[|whole|] == tail[0];
    } else {
      assert whole + tail == whole;
    }
  }

  // A numeral's text is free of '.', 'e' and 'E', and has only digits after its
  // sign, exactly when it is a bare integer.
  lemma IntegerSpelling(n: Numeral)
    requires ValidNumeral(n)
    ensures var s := RenderNumeral(n);
            && s != [] && (s[0] == MINUS <==> n.minus)
            && (IsBare(n) <==> DOT !in s && 0x65 !in s && 0x45 !in s)
            && (IsBare(n) <==> AllDigits(if n.minus then s[1..] else s))
            && (IsBare(n) ==> (if n.minus then s == [MINUS] + n.whole else s == n.whole))
  {
    hide RenderNumeral;
    TailMark(n);
    Body(n);
    MarksInBody(n.whole, Tail(n));
    var s := RenderNumeral(n);
    if n.minus {
      assert s[1..] == n.whole + Tail(n);
      assert forall u :: u != MINUS ==> (u in s <==> u in s[1..]);
    }
  }

  // The four checks accept the same spellings: exactly the counts.
  lemma FourCountersAgree(n: Numeral)
    requires ValidNumeral(n)
    ensures var s := RenderNumeral(n);
            && (GoCounter(s) <==> IsCount(n))
            && (RustCounter(s) <==> IsCount(n))
            && (TypeScriptCounter(s) <==> IsCount(n))
            && (PythonCounter(s) <==> IsCount(n))
    ensures IsCount(n) <==>
              && n.fraction == [] && n.exponent.NoExponent?
              && NatOf(n.whole) <= if n.minus then 0 else 0x1F_FFFF_FFFF_FFFF
  {
    hide RenderNumeral;
    IntegerSpelling(n);
    WholeMagnitude(n.whole);
    var s := RenderNumeral(n);
    if IsBare(n) && n.minus {
      assert s[1..] == n.whole;
    }
  }
}
