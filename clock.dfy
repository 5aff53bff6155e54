/**
 * The elapsed-time text a running timer shows after `sec` ticks: three
 * two-character fields, each the last two characters of "0" followed by the
 * decimal numeral of its value.
 */
module Clock {
  import opened Decimal

  /** `s.substr(-2)`: the last two characters, or all of s when it is shorter. */
  function LastTwo(s: string): (r: string)
    ensures |r| == if |s| >= 2 then 2 else |s|
    ensures r == s[|s| - |r|..]
  {
    if |s| >= 2 then s[|s| - 2..] else s
  }

  /** `("0" + n).substr(-2)`, the formatting each field of the timer uses. */
  function TwoDigits(n: nat): (s: string)
    ensures |s| == 2 && s[1] == DigitChar(n % 10)
    ensures n < 10 ==> s[0] == '0'
  {
    LastTwo("0" + DecimalString(n))
  }

  datatype Display = Display(hours: string, minutes: string, seconds: string)

  /** What the three spans hold after the tick that brought the count to `sec`. */
  function Render(sec: nat): (d: Display)
    ensures |d.hours| == 2 && |d.minutes| == 2 && |d.seconds| == 2
  {
    Display(TwoDigits(sec / 3600), TwoDigits(sec / 60 % 60), TwoDigits(sec % 60))
  }

  predicate WellFormed(d: Display) {
    |d.hours| == 2 && |d.minutes| == 2 && |d.seconds| == 2
    && AllDigits(d.hours) && AllDigits(d.minutes) && AllDigits(d.seconds)
  }

  /** The number of seconds a reader takes a display to mean. */
  function Reading(d: Display): nat
    requires WellFormed(d)
  {
    DigitsValue(d.hours) * 3600 + DigitsValue(d.minutes) * 60 + DigitsValue(d.seconds)
  }

  /** The two-digit numeral of a value below 100, with a leading zero below ten. */
  function Padded(v: nat): string
    requires v < 100
  {
    [DigitChar(v / 10), DigitChar(v % 10)]
  }

  lemma TensAndUnits(n: nat)
    ensures n / 10 % 10 == n % 100 / 10
    ensures n % 10 == n % 100 % 10
  {
    var a, t, u := n / 100, n / 10 % 10, n % 10;
    assert n / 10 == a * 10 + t;
    assert n == a * 100 + (t * 10 + u);
    assert 0 <= t * 10 + u < 100;
    assert n % 100 == t * 10 + u;
    assert (t * 10 + u) / 10 == t && (t * 10 + u) % 10 == u;
  }

  lemma PaddedValue(v: nat)
    requires v < 100
    ensures |Padded(v)| == 2 && AllDigits(Padded(v)) && DigitsValue(Padded(v)) == v
  {
    var p := Padded(v);
    assert p[..1] == [p[0]];
    assert [p[0]][..0] == [];
    assert DigitsValue([p[0]]) == v / 10;
  }

  /**
   * Every field is the zero-padded pair of tens and units digits of its value
   * modulo 100.
   */
  lemma {:induction false} TwoDigitsShape(n: nat)
    ensures TwoDigits(n) == Padded(n % 100)
  {
    var s := "0" + DecimalString(n);
    TensAndUnits(n);
    if n >= 10 {
      var d := DecimalString(n / 10);
      assert DecimalString(n) == d + [DigitChar(n % 10)];
      assert s[|s| - 2] == d[|d| - 1];
    }
  }

  /** Every field has two digits and reads back as its value modulo 100. */
  lemma TwoDigitsValue(n: nat)
    ensures |TwoDigits(n)| == 2 && AllDigits(TwoDigits(n))
    ensures DigitsValue(TwoDigits(n)) == n % 100
  {
    TwoDigitsShape(n);
    PaddedValue(n % 100);
  }

  /**
   * The seconds field reads back as `sec % 60`, the minutes field as
   * `(sec / 60) % 60`, and the hours field as the hour count modulo 100.
   */
  lemma RenderFields(sec: nat)
    ensures WellFormed(Render(sec))
    ensures DigitsValue(Render(sec).seconds) == sec % 60
    ensures DigitsValue(Render(sec).minutes) == sec / 60 % 60
    ensures DigitsValue(Render(sec).hours) == sec / 3600 % 100
  {
    var h, m, s := sec / 3600, sec / 60 % 60, sec % 60;
    assert m % 100 == m && s % 100 == s;
    TwoDigitsValue(h);
    TwoDigitsValue(m);
    TwoDigitsValue(s);
  }

  lemma SplitSeconds(sec: nat, h: nat, m: nat, s: nat)
    requires h == sec / 3600 && m == sec / 60 % 60 && s == sec % 60
    ensures sec == h * 3600 + m * 60 + s
  {
    var q := sec / 60;
    assert sec == q * 60 + s;
    assert q == q / 60 * 60 + m;
    assert q / 60 == h;
  }

  /** Below one hundred hours the display reads back as the exact tick count. */
  lemma RenderRoundTrip(sec: nat)
    requires sec < 360000
    ensures WellFormed(Render(sec)) && Reading(Render(sec)) == sec
  {
    var h, m, s := sec / 3600, sec / 60 % 60, sec % 60;
    assert h % 100 == h by {
      assert h < 100;
    }
    RenderFields(sec);
    SplitSeconds(sec, h, m, s);
  }

  /** A field depends only on its value modulo 100. */
  lemma TwoDigitsModulo(a: nat, b: nat)
    requires a % 100 == b % 100
    ensures TwoDigits(a) == TwoDigits(b)
  {
    TwoDigitsShape(a);
    TwoDigitsShape(b);
  }

  lemma WrapArithmetic(sec: nat)
    ensures (sec + 360000) / 3600 == sec / 3600 + 100
    ensures (sec + 360000) / 60 % 60 == sec / 60 % 60
    ensures (sec + 360000) % 60 == sec % 60
  {
    var later := sec + 360000;
    var h, m := sec / 3600, sec / 60;
    assert later == (h + 100) * 3600 + sec % 3600;
    assert later == (m + 6000) * 60 + sec % 60;
    assert later / 60 == m + 6000;
    assert m + 6000 == (m / 60 + 100) * 60 + m % 60;
  }

  /** From one hundred hours on, the hours field wraps: the display repeats every 100 hours. */
  lemma RenderWraps(sec: nat)
    ensures Render(sec + 360000) == Render(sec)
  {
    var h := sec / 3600;
    WrapArithmetic(sec);
    TwoDigitsModulo(h + 100, h);
  }

  /** A field below ten, spelled out: a zero and the digit. */
  lemma OneDigitField(n: nat)
    requires n < 10
    ensures TwoDigits(n) == ['0', DigitChar(n)]
  {
    TwoDigitsShape(n);
    assert DigitChar(0) == '0';
  }

  /** A new project shows 00:00:00, which is also what a count of zero renders. */
  lemma RenderZero()
    ensures Render(0) == Display("00", "00", "00")
  {
    OneDigitField(0);
  }

  /**
   * Worked readings: 5, 65 and 3661 ticks. (The count is a parameter so that the
   * solver does not unfold the numeral functions on literal arguments.)
   */
  lemma RenderFiveSeconds(sec: nat)
    requires sec == 5
    ensures Render(sec) == Display("00", "00", "05")
  {
    var h, m := sec / 3600, sec / 60 % 60;
    assert h == 0 && m == 0 && sec % 60 == sec;
    assert Render(sec) == Display(TwoDigits(h), TwoDigits(m), TwoDigits(sec));
    OneDigitField(h);
    OneDigitField(sec);
  }

  lemma RenderSixtyFiveSeconds(sec: nat)
    requires sec == 65
    ensures Render(sec) == Display("00", "01", "05")
  {
    var h, m, s := sec / 3600, sec / 60 % 60, sec % 60;
    assert h == 0 && m == 1 && s == 5;
    assert TwoDigits(h) == "00" by {
      OneDigitField(h);
    }
    assert TwoDigits(m) == "01" by {
      OneDigitField(m);
    }
    assert TwoDigits(s) == "05" by {
      OneDigitField(s);
    }
  }

  lemma RenderOneHourOneMinuteOneSecond(sec: nat)
    requires sec == 3661
    ensures Render(sec) == Display("01", "01", "01")
  {
    var h, m, s := sec / 3600, sec / 60 % 60, sec % 60;
    assert h == 1 && m == 1 && s == 1;
    assert Render(sec) == Display(TwoDigits(h), TwoDigits(m), TwoDigits(s));
    OneDigitField(h);
  }
}
