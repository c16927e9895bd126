/**
 The clock-string scanner `convertTo12Hours` (le3.js:63-82). It keeps a
 running value and a flag that says whether a colon has been seen. Before
 the colon each digit shifts the value one decimal place and adds itself;
 after the colon each digit adds the one- or two-digit numeral that starts
 at it, divided by 60. Every other character is skipped. Values are exact
 rationals, or NaN.
 */
module Clock {
  import opened Text

  /** A JavaScript number as the program can produce it: an exact value, or NaN. */
  datatype Number = Finite(value: real) | NaN

  /** `a + b`: NaN when either side is NaN. */
  function Plus(a: Number, b: Number): Number
  {
    if a.Finite? && b.Finite? then Finite(a.value + b.value) else NaN
  }

  /** `a * k`: NaN stays NaN. */
  function Times(a: Number, k: real): Number
  {
    if a.Finite? then Finite(a.value * k) else NaN
  }

  /** `a / k` for a non-zero constant `k`: NaN stays NaN. */
  function Div(a: Number, k: real): Number
    requires k != 0.0
  {
    if a.Finite? then Finite(a.value / k) else NaN
  }

  /** `a < b`: false whenever either side is NaN. */
  predicate Less(a: Number, b: Number)
  {
    a.Finite? && b.Finite? && a.value < b.value
  }

  /**
   `parseInt` without a radix reads a leading `0x` or `0X` as the prefix of a
   hexadecimal numeral, so the two characters `0x`/`0X` alone parse to NaN.
   */
  predicate HexPrefixAt(s: string, i: nat)
    requires i < |s|
  {
    s[i] == '0' && i + 1 < |s| && (s[i + 1] == 'x' || s[i + 1] == 'X')
  }

  /** The decimal numeral of one or two digits that starts at the digit `s[i]`. */
  function NumeralValue(s: string, i: nat): (v: nat)
    requires i < |s| && IsDigit(s[i])
    ensures v < 100
    ensures i + 1 < |s| && IsDigit(s[i + 1]) ==> v == 10 * DigitValue(s[i]) + DigitValue(s[i + 1])
    ensures !(i + 1 < |s| && IsDigit(s[i + 1])) ==> v == DigitValue(s[i])
  {
    if i + 1 < |s| && IsDigit(s[i + 1]) then 10 * DigitValue(s[i]) + DigitValue(s[i + 1])
    else DigitValue(s[i])
  }

  /**
   `parseInt(input.substring(i, i + 2))` where `input[i]` is a digit: NaN for
   `0x` and `0X`, else the one- or two-digit numeral starting there.
   */
  function MinuteNumeral(s: string, i: nat): (v: Number)
    requires i < |s| && IsDigit(s[i])
    ensures v == NaN <==> HexPrefixAt(s, i)
    ensures v.Finite? ==> v.value == NumeralValue(s, i) as real && 0.0 <= v.value < 100.0
  {
    if HexPrefixAt(s, i) then NaN else Finite(NumeralValue(s, i) as real)
  }

  datatype ScanState = ScanState(output: Number, pastColon: bool)

  /** One iteration of the scanning loop, at position `i`. */
  function Step(s: string, i: nat, st: ScanState): ScanState
    requires i < |s|
  {
    var output :=
      if !IsDigit(s[i]) then st.output
      else if !st.pastColon then Plus(Times(st.output, 10.0), Finite(DigitValue(s[i]) as real))
      else Plus(st.output, Div(MinuteNumeral(s, i), 60.0));
    ScanState(output, st.pastColon || s[i] == ':')
  }

  /** The scanner's state after its first `n` iterations. */
  function ScanUpTo(s: string, n: nat): ScanState
    requires n <= |s|
  {
    if n == 0 then ScanState(Finite(0.0), false) else Step(s, n - 1, ScanUpTo(s, n - 1))
  }

  /** The value `convertTo12Hours` returns, before any AM/PM adjustment. */
  function ScanTime(s: string): Number
  {
    ScanUpTo(s, |s|).output
  }

  /** `convertTo12Hours`: the character loop with its accumulator and colon flag. */
  method ConvertTo12Hours(input: string) returns (output: Number)
    ensures output == ScanTime(input)
  {
    output := Finite(0.0);
    var pastColon := false;
    for i := 0 to |input|
      invariant ScanUpTo(input, i) == ScanState(output, pastColon)
    {
      if IsDigit(input[i]) {
        if !pastColon {
          output := Times(output, 10.0);
          output := Plus(output, Finite(DigitValue(input[i]) as real));
        } else {
          output := Plus(output, Div(MinuteNumeral(input, i), 60.0));
        }
      }
      if input[i] == ':' {
        pastColon := true;
      }
    }
  }

  // An independent description of the scanner's result.

  /** The decimal (Horner) value of the digits of `s`, other characters skipped. */
  function Horner(s: string): nat
  {
    if s == [] then 0
    else if IsDigit(s[|s| - 1]) then 10 * Horner(s[..|s| - 1]) + DigitValue(s[|s| - 1])
    else Horner(s[..|s| - 1])
  }

  /** What the digits at positions `lo` up to `hi` add once the colon has been passed. */
  function MinuteSum(s: string, lo: nat, hi: nat): (r: real)
    requires lo <= hi <= |s|
    ensures r >= 0.0
    decreases hi - lo
  {
    if lo == hi then 0.0
    else MinuteSum(s, lo, hi - 1) + (if IsDigit(s[hi - 1]) then NumeralValue(s, hi - 1) as real / 60.0 else 0.0)
  }

  /** Some position from `lo` up to `hi` starts a `0x`/`0X` pair. */
  predicate HexBetween(s: string, lo: nat, hi: nat)
    requires lo <= hi <= |s|
    decreases hi - lo
  {
    lo < hi && (HexBetween(s, lo, hi - 1) || HexPrefixAt(s, hi - 1))
  }

  lemma {:induction false} HexBetweenExists(s: string, lo: nat, hi: nat)
    requires lo <= hi <= |s|
    ensures HexBetween(s, lo, hi) <==> exists i :: lo <= i < hi && HexPrefixAt(s, i)
    decreases hi - lo
  {
    if lo < hi {
      HexBetweenExists(s, lo, hi - 1);
    }
  }

  lemma {:induction false} MinuteSumSplit(s: string, lo: nat, mid: nat, hi: nat)
    requires lo <= mid <= hi <= |s|
    ensures MinuteSum(s, lo, hi) == MinuteSum(s, lo, mid) + MinuteSum(s, mid, hi)
    decreases hi - mid
  {
    if mid < hi {
      MinuteSumSplit(s, lo, mid, hi - 1);
    }
  }

  lemma {:induction false} MinuteSumNoDigits(s: string, lo: nat, hi: nat)
    requires lo <= hi <= |s|
    requires forall i :: lo <= i < hi ==> !IsDigit(s[i])
    ensures MinuteSum(s, lo, hi) == 0.0 && !HexBetween(s, lo, hi)
    decreases hi - lo
  {
    if lo < hi {
      MinuteSumNoDigits(s, lo, hi - 1);
    }
  }

  /** The value after the colon at `c`, up to position `n`: NaN once a `0x` pair has been met. */
  function AfterColon(s: string, c: nat, n: nat): Number
    requires c < n <= |s|
  {
    if HexBetween(s, c + 1, n) then NaN else Finite(Horner(s[..c]) as real + MinuteSum(s, c + 1, n))
  }

  /**
   The scanner's state, described without the loop: up to the first colon it
   holds the Horner value of the digits seen so far and the flag is down;
   from the colon on, the flag is up and the value is the Horner value of the
   digits before the colon plus the minute contributions after it, or NaN
   once a digit after the colon starts a `0x`/`0X` pair.
   */
  lemma {:induction false} ScanUpToShape(s: string, n: nat)
    requires n <= |s|
    ensures var c := IndexOf(s, ':');
      (n <= c ==> ScanUpTo(s, n) == ScanState(Finite(Horner(s[..n]) as real), false)) &&
      (c < n ==> ScanUpTo(s, n) == ScanState(AfterColon(s, c, n), true))
  {
    var c := IndexOf(s, ':');
    if n > 0 {
      ScanUpToShape(s, n - 1);
      assert s[..n][..n - 1] == s[..n - 1];
      if n <= c {
        assert s[n - 1] in s[..c];
      }
    }
  }

  /**
   The scanned value of a clock string: NaN when a digit after its first
   colon starts a `0x`/`0X` pair; otherwise the Horner value of the digits
   before the colon plus, for every digit after it, the numeral starting
   there divided by 60.
   */
  lemma ScanTimeDecomposed(s: string)
    ensures var c := IndexOf(s, ':');
      ScanTime(s) == NaN <==> c < |s| && exists i :: c + 1 <= i < |s| && HexPrefixAt(s, i)
    ensures var c := IndexOf(s, ':');
      ScanTime(s).Finite? ==>
        ScanTime(s).value == Horner(s[..c]) as real + (if c < |s| then MinuteSum(s, c + 1, |s|) else 0.0)
  {
    var c := IndexOf(s, ':');
    ScanUpToShape(s, |s|);
    assert s[..|s|] == s;
    if c < |s| {
      HexBetweenExists(s, c + 1, |s|);
    }
  }

  /** A clock string without a colon scans to the Horner value of its digits. */
  lemma ScanTimeWithoutColon(s: string)
    requires ':' !in s
    ensures ScanTime(s) == Finite(Horner(s) as real)
  {
    ScanUpToShape(s, |s|);
    assert s[..|s|] == s;
  }

  /** A scanned value that is a number is never negative. */
  lemma ScanTimeNonNegative(s: string)
    ensures ScanTime(s).Finite? ==> ScanTime(s).value >= 0.0
  {
    ScanTimeDecomposed(s);
  }

  /** A `0` followed by `x` or `X` after the colon makes the whole value NaN, whatever follows. */
  lemma ScanTimeHexNaN(s: string, i: nat)
    requires IndexOf(s, ':') < i < |s| && HexPrefixAt(s, i)
    ensures ScanTime(s) == NaN
  {
    ScanTimeDecomposed(s);
  }

  /** After the colon of `h:ab` followed by letters, the digits add `(10a + b)/60` and then `b/60`. */
  lemma QuirkMinutes(s: string, c: nat)
    requires c + 3 <= |s| && IsDigit(s[c + 1]) && IsDigit(s[c + 2])
    requires forall i :: c + 3 <= i < |s| ==> !IsDigit(s[i])
    ensures MinuteSum(s, c + 1, |s|)
      == (10 * DigitValue(s[c + 1]) + 2 * DigitValue(s[c + 2])) as real / 60.0
  {
    MinuteSumSplit(s, c + 1, c + 3, |s|);
    MinuteSumNoDigits(s, c + 3, |s|);
    assert NumeralValue(s, c + 1) == 10 * DigitValue(s[c + 1]) + DigitValue(s[c + 2]);
    assert NumeralValue(s, c + 2) == DigitValue(s[c + 2]);
    assert MinuteSum(s, c + 1, c + 2) == NumeralValue(s, c + 1) as real / 60.0;
  }

  /** No `0x`/`0X` pair starts after the colon of `h:ab` followed by letters when `b0x` is not formed. */
  lemma QuirkNoHex(s: string, c: nat)
    requires c + 3 <= |s| && IsDigit(s[c + 1]) && IsDigit(s[c + 2])
    requires forall i :: c + 3 <= i < |s| ==> !IsDigit(s[i])
    requires !HexPrefixAt(s, c + 2)
    ensures !HexBetween(s, c + 1, |s|)
  {
    HexBetweenExists(s, c + 1, |s|);
    forall i | c + 1 <= i < |s| ensures !HexPrefixAt(s, i) {
      if i >= c + 3 {
        assert !IsDigit(s[i]);
      }
    }
  }

  /** The value of a string whose first colon at `c` is followed by two digits and then no digits. */
  lemma QuirkValue(s: string, c: nat)
    requires IndexOf(s, ':') == c
    requires c + 3 <= |s| && IsDigit(s[c + 1]) && IsDigit(s[c + 2])
    requires forall i :: c + 3 <= i < |s| ==> !IsDigit(s[i])
    requires !HexPrefixAt(s, c + 2)
    ensures ScanTime(s)
      == Finite(Horner(s[..c]) as real + (10 * DigitValue(s[c + 1]) + 2 * DigitValue(s[c + 2])) as real / 60.0)
  {
    ScanUpToShape(s, |s|);
    assert s[..|s|] == s;
    QuirkMinutes(s, c);
    QuirkNoHex(s, c);
  }

  /**
   `h:ab` followed by letters scans to `h + (10a + b + b)/60`: the tens
   digit of the minutes is read once, in the two-digit numeral `ab`, but the
   units digit `b` is read twice, once in `ab` and once on its own. The
   minutes come out right only when `b` is 0 (`"11:30"` gives 11.5, while
   `"1:45"` gives 1 + 50/60). A `b` of 0 followed by `x` or `X` gives NaN
   instead, so that case is set aside.
   */
  lemma MinuteQuirk(hours: string, a: char, b: char, tail: string)
    requires ':' !in hours && IsDigit(a) && IsDigit(b)
    requires forall i :: 0 <= i < |tail| ==> !IsDigit(tail[i])
    requires !(b == '0' && tail != [] && (tail[0] == 'x' || tail[0] == 'X'))
    ensures ScanTime(hours + [':', a, b] + tail)
      == Finite(Horner(hours) as real + (10 * DigitValue(a) + 2 * DigitValue(b)) as real / 60.0)
  {
    var s := hours + [':', a, b] + tail;
    var c := |hours|;
    assert s == hours + [':'] + ([a, b] + tail);
    IndexOfAfter(hours, ':', [a, b] + tail);
    assert s[..c] == hours;
    assert s[c + 1] == a && s[c + 2] == b;
    assert forall i :: c + 3 <= i < |s| ==> s[i] == tail[i - c - 3];
    QuirkValue(s, c);
  }

  /** Values from the sample schedules; `"1:45PM"` shows the doubled units digit. */
  lemma ScanTimeExamples()
    ensures ScanTime("1") == Finite(1.0)
    ensures ScanTime("10") == Finite(10.0)
    ensures ScanTime("2PM") == Finite(2.0)
    ensures ScanTime("10AM") == Finite(10.0)
    ensures ScanTime("12PM") == Finite(12.0)
    ensures ScanTime("11:30AM") == Finite(11.5)
    ensures ScanTime("1:45PM") == Finite(1.0 + 50.0 / 60.0)
  {
    assert ScanUpTo("10", 1) == ScanState(Finite(1.0), false);
    assert ScanUpTo("2PM", 1) == ScanState(Finite(2.0), false);
    assert ScanUpTo("10AM", 2) == ScanState(Finite(10.0), false);
    assert ScanUpTo("10AM", 4) == ScanState(Finite(10.0), false);
    assert ScanUpTo("12PM", 2) == ScanState(Finite(12.0), false);
    assert ScanUpTo("12PM", 4) == ScanState(Finite(12.0), false);
    assert Horner("11") == 11 by {
      assert "11"[..1] == "1";
    }
    MinuteQuirk("11", '3', '0', "AM");
    assert "11" + [':', '3', '0'] + "AM" == "11:30AM";
    assert Horner("1") == 1 by {
      assert "1"[..0] == "";
    }
    MinuteQuirk("1", '4', '5', "PM");
    assert "1" + [':', '4', '5'] + "PM" == "1:45PM";
  }

  /** `"1:0x"` scans to NaN: `parseInt("0x")` finds no hexadecimal digit. */
  lemma ScanTimeHexExample()
    ensures ScanTime("1:0x") == NaN
  {
    var s := "1:0x";
    assert s == "1" + [':'] + "0x";
    IndexOfAfter("1", ':', "0x");
    assert HexPrefixAt(s, 2);
    ScanTimeHexNaN(s, 2);
  }
}
