/** Reading the speech rate (`TTSMain.readRateFromUser`): the line is parsed
    with `Integer.parseInt` and a line it rejects gives rate 0. The range
    [-100, 100] shown in the prompt is not enforced. */
module Rate {
  import opened Wrappers

  /** Java's `int`. */
  newtype int32 = x: int | -0x8000_0000 <= x < 0x8000_0000

  const MaxMagnitude: nat := 0x7fff_ffff
  const MinMagnitude: nat := 0x8000_0000

  predicate IsInt32(x: int) { -0x8000_0000 <= x < 0x8000_0000 }

  predicate IsDigit(c: char) { '0' <= c <= '9' }

  function DigitValue(c: char): (d: nat)
    requires IsDigit(c)
    ensures d < 10
  {
    c as int - '0' as int
  }

  predicate AllDigits(s: string) {
    forall i :: 0 <= i < |s| ==> IsDigit(s[i])
  }

  function Pow10(n: nat): (p: nat)
    ensures p >= 1
  {
    if n == 0 then 1 else 10 * Pow10(n - 1)
  }

  /** The number a string of decimal digits denotes, most significant first. */
  function DigitsValue(s: string): (n: nat)
    requires AllDigits(s)
    decreases |s|
  {
    if s == [] then 0 else 10 * DigitsValue(s[..|s| - 1]) + DigitValue(s[|s| - 1])
  }

  /** The literals `Integer.parseInt` accepts, apart from range: an optional
      `+` or `-` followed by one or more decimal digits. */
  predicate IsDecimalLiteral(s: string) {
    if |s| > 0 && (s[0] == '+' || s[0] == '-') then |s| > 1 && AllDigits(s[1..])
    else |s| > 0 && AllDigits(s)
  }

  /** The integer a decimal literal denotes, without any range limit. */
  function LiteralValue(s: string): (v: int)
    requires IsDecimalLiteral(s)
  {
    if s[0] == '-' then -(DigitsValue(s[1..]) as int)
    else if s[0] == '+' then DigitsValue(s[1..])
    else DigitsValue(s)
  }

  /** Reads the digits of `s` onto the magnitude `acc` one at a time, as
      `Integer.parseInt` does, giving up at the first non-digit or as soon
      as the magnitude would pass `limit`. */
  function Accumulate(s: string, acc: nat, limit: nat): (r: Option<nat>)
    requires acc <= limit
    ensures r.Some? <==> AllDigits(s) && acc * Pow10(|s|) + DigitsValue(s) <= limit
    ensures r.Some? ==> r.value == acc * Pow10(|s|) + DigitsValue(s)
    decreases |s|
  {
    if s == [] then Some(acc)
    else if !IsDigit(s[0]) then None
    else
      var next := acc * 10 + DigitValue(s[0]);
      var r := if next > limit then None else Accumulate(s[1..], next, limit);
      AccumulateStep(s, acc);
      r
  }

  /** One step of `Accumulate`: taking the first digit onto the magnitude. */
  lemma AccumulateStep(s: string, acc: nat)
    requires s != [] && IsDigit(s[0])
    ensures AllDigits(s) <==> AllDigits(s[1..])
    ensures AllDigits(s) ==>
      acc * Pow10(|s|) + DigitsValue(s) == (acc * 10 + DigitValue(s[0])) * Pow10(|s| - 1) + DigitsValue(s[1..])
    ensures AllDigits(s) ==> acc * 10 + DigitValue(s[0]) <= acc * Pow10(|s|) + DigitsValue(s)
  {
    assert AllDigits(s) <==> AllDigits(s[1..]) by {
      if AllDigits(s[1..]) {
        forall i | 0 < i < |s| ensures IsDigit(s[i]) { assert s[i] == s[1..][i - 1]; }
      }
    }
    if AllDigits(s) {
      var rest := s[1..];
      var d, p := DigitValue(s[0]), Pow10(|rest|);
      assert s == [s[0]] + rest;
      DigitsValueConcat([s[0]], rest);
      assert DigitsValue([s[0]]) == d by {
        assert [s[0]][..0] == [];
      }
      assert DigitsValue(s) == d * p + DigitsValue(rest);
      assert acc * Pow10(|s|) == acc * (10 * p);
      ShiftDigit(acc, d, p);
    }
  }

  /** Arithmetic behind one step: shifting `acc` and one digit `d` by `p`. */
  lemma ShiftDigit(acc: nat, d: nat, p: nat)
    requires p >= 1
    ensures acc * (10 * p) + d * p == (acc * 10 + d) * p
    ensures (acc * 10 + d) * p >= acc * 10 + d
  {
    var x := acc * 10 + d;
    assert x * p == x * (p - 1) + x;
  }

  /** Digits written after other digits shift them left. */
  lemma {:induction false} DigitsValueConcat(a: string, b: string)
    requires AllDigits(a) && AllDigits(b)
    ensures AllDigits(a + b)
    ensures DigitsValue(a + b) == DigitsValue(a) * Pow10(|b|) + DigitsValue(b)
    decreases |b|
  {
    assert AllDigits(a + b) by {
      forall i | 0 <= i < |a + b| ensures IsDigit((a + b)[i]) {
        if i >= |a| { assert (a + b)[i] == b[i - |a|]; }
      }
    }
    if b == [] {
      assert a + b == a;
    } else {
      var b' := b[..|b| - 1];
      assert (a + b)[..|a + b| - 1] == a + b';
      DigitsValueConcat(a, b');
      var x, d := DigitsValue(a), DigitValue(b[|b| - 1]);
      calc {
        DigitsValue(a + b);
        10 * DigitsValue(a + b') + d;
        10 * (x * Pow10(|b'|) + DigitsValue(b')) + d;
        { assert 10 * (x * Pow10(|b'|)) == x * (10 * Pow10(|b'|)); }
        x * Pow10(|b|) + (10 * DigitsValue(b') + d);
      }
    }
  }

  /** `Integer.parseInt(s)` in base 10; `None` where it throws
      `NumberFormatException`. */
  function ParseInt(s: string): (r: Option<int32>)
    ensures r.Some? <==> IsDecimalLiteral(s) && IsInt32(LiteralValue(s))
    ensures r.Some? ==> r.value as int == LiteralValue(s)
  {
    if s == [] then None
    else if s[0] == '-' || s[0] == '+' then
      if |s| == 1 then None
      else
        var limit := if s[0] == '-' then MinMagnitude else MaxMagnitude;
        match Accumulate(s[1..], 0, limit)
        case None => None
        case Some(m) => Some(if s[0] == '-' then (-(m as int)) as int32 else m as int32)
    else
      match Accumulate(s, 0, MaxMagnitude)
      case None => None
      case Some(m) => Some(m as int32)
  }

  /** `readRateFromUser` with the console line as parameter. */
  function ReadRate(line: string): (rate: int32)
    ensures IsDecimalLiteral(line) && IsInt32(LiteralValue(line)) ==> rate as int == LiteralValue(line)
    ensures !(IsDecimalLiteral(line) && IsInt32(LiteralValue(line))) ==> rate == 0
  {
    ParseInt(line).GetOr(0)
  }

  /** The decimal digits of `n`, most significant first, without leading
      zeros. */
  function NatDigits(n: nat): (s: string)
    decreases n
  {
    if n < 10 then [('0' as int + n) as char]
    else NatDigits(n / 10) + [('0' as int + n % 10) as char]
  }

  /** `Integer.toString(n)`. */
  function Format(n: int32): (s: string) {
    if n < 0 then "-" + NatDigits(-(n as int)) else NatDigits(n as int)
  }

  lemma {:induction false} NatDigitsValue(n: nat)
    ensures |NatDigits(n)| >= 1 && AllDigits(NatDigits(n))
    ensures DigitsValue(NatDigits(n)) == n
    decreases n
  {
    if n >= 10 {
      NatDigitsValue(n / 10);
      var s := NatDigits(n);
      assert s[..|s| - 1] == NatDigits(n / 10);
    }
  }

  /** Every `int` read back from its decimal form is that `int`. */
  lemma {:induction false} ParseFormat(n: int32)
    ensures ParseInt(Format(n)) == Some(n)
    ensures ReadRate(Format(n)) == n
  {
    var f := Format(n);
    FormatIsLiteral(n);
    assert IsDecimalLiteral(f) && LiteralValue(f) == n as int;
  }

  /** The decimal form of an `int` is a literal denoting it. */
  lemma FormatIsLiteral(n: int32)
    ensures IsDecimalLiteral(Format(n)) && LiteralValue(Format(n)) == n as int
  {
    var m: nat := if n < 0 then -(n as int) else n as int;
    NatDigitsValue(m);
    var d := NatDigits(m);
    if n < 0 {
      assert Format(n) == "-" + d;
      assert ("-" + d)[1..] == d;
    } else {
      assert Format(n) == d;
      assert IsDigit(d[0]);
    }
  }

  /** "50" is read as 50. */
  lemma ReadFifty()
    ensures ReadRate("50") == 50
  {
    ParseFormat(50);
    assert Format(50) == "50";
  }

  /** "500" is read as 500: no clamping to [-100, 100]. */
  lemma ReadFiveHundred()
    ensures ReadRate("500") == 500
  {
    ParseFormat(500);
    assert Format(500) == "500";
  }

  /** "-100" is read as -100. */
  lemma ReadMinusHundred()
    ensures ReadRate("-100") == -100
  {
    ParseFormat(-100);
    assert Format(-100) == "-100";
  }

  /** A leading plus sign and leading zeros are accepted. */
  lemma ReadPlusAndZeros()
    ensures ReadRate("+7") == 7
    ensures ReadRate("007") == 7
  {
    assert "+7"[1..] == "7";
    assert DigitsValue("7") == 7 by { assert "7"[..0] == ""; }
    assert DigitsValue("007") == 7 by {
      assert "007"[..2] == "00" && "00"[..1] == "0" && "0"[..0] == "";
    }
  }

  /** Empty, non-numeric, sign-only and padded lines give 0. */
  lemma ReadMalformed()
    ensures ReadRate("") == 0
    ensures ReadRate("abc") == 0
    ensures ReadRate("-") == 0
    ensures ReadRate(" 5") == 0
  {
    assert !IsDigit("abc"[0]);
    assert !IsDigit(" 5"[0]);
  }

  /** The nine leading digits shared by both ends of the `int` range. */
  lemma LeadingDigitsOfLimit()
    ensures NatDigits(214748364) == "214748364"
  {
    assert NatDigits(2) == "2";
    assert NatDigits(21) == "21";
    assert NatDigits(214) == "214";
    assert NatDigits(2147) == "2147";
    assert NatDigits(21474) == "21474";
    assert NatDigits(214748) == "214748";
    assert NatDigits(2147483) == "2147483";
    assert NatDigits(21474836) == "21474836";
  }

  /** One past the top of the `int` range gives 0. */
  lemma ReadAboveRange()
    ensures ReadRate("2147483648") == 0
  {
    LeadingDigitsOfLimit();
    NatDigitsValue(0x8000_0000);
    assert NatDigits(0x8000_0000) == "2147483648";
  }

  /** One past the bottom of the `int` range gives 0. */
  lemma ReadBelowRange()
    ensures ReadRate("-2147483649") == 0
  {
    LeadingDigitsOfLimit();
    NatDigitsValue(0x8000_0001);
    assert NatDigits(0x8000_0001) == "2147483649";
    assert "-2147483649"[1..] == "2147483649";
  }
}
