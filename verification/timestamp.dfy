/**
 The `HH:MM:SS` stamp built from the uptime clock. `getTimestamp` divides the
 millisecond count into whole seconds, minutes and hours, keeps the hour
 modulo 24 and the minute and second modulo 60, and prints each with
 `%02lu`. The stamp is a time of day since start-up, not wall-clock time.
 */
module Timestamps {
  import opened Wrappers
  import opened Decimal

  /** Arduino's `millis()` result: an `unsigned long`, 32 bits wide. */
  type Millis = x: nat | x < 0x1_0000_0000

  const MillisPerDay: nat := 24 * 60 * 60 * 1000

  /** The three fields of a stamp. */
  datatype Clock = Clock(hours: nat, minutes: nat, seconds: nat)

  predicate ValidClock(c: Clock) {
    c.hours < 24 && c.minutes < 60 && c.seconds < 60
  }

  /** Seconds since midnight of a clock reading. */
  function SecondOfDay(c: Clock): nat {
    c.hours * 3600 + c.minutes * 60 + c.seconds
  }

  /**
   The fields `getTimestamp` prints for an uptime of `ms` milliseconds: they
   are a valid clock whose second of the day is the uptime in whole seconds
   modulo one day.
   */
  function ClockOf(ms: Millis): (c: Clock)
    ensures ValidClock(c)
    ensures SecondOfDay(c) == (ms / 1000) % 86400
  {
    var sec := ms / 1000;
    var min := sec / 60;
    var hr := min / 60;
    DayArithmetic(sec);
    Clock(hr % 24, min % 60, sec % 60)
  }

  /** Splitting whole seconds into hours, minutes and seconds and wrapping the hours. */
  lemma DayArithmetic(sec: nat)
    ensures (sec / 60 / 60 % 24) * 3600 + (sec / 60 % 60) * 60 + sec % 60 == sec % 86400
  {
    var min := sec / 60;
    var hr := min / 60;
    var q := hr / 24;
    var t := (hr % 24) * 3600 + (min % 60) * 60 + sec % 60;
    assert sec == 60 * min + sec % 60;
    assert min == 60 * hr + min % 60;
    assert hr == 24 * q + hr % 24;
    assert sec == 86400 * q + t;
    assert 0 <= t < 86400;
  }

  /** The hour field is the uptime in whole hours modulo 24, as the header promises. */
  lemma ClockOfUnits(ms: Millis)
    ensures ClockOf(ms).hours == (ms / 3600000) % 24
    ensures ClockOf(ms).minutes == (ms / 60000) % 60
    ensures ClockOf(ms).seconds == (ms / 1000) % 60
  {
    var sec := ms / 1000;
    var min := sec / 60;
    var hr := min / 60;
    assert ms == 1000 * sec + ms % 1000;
    assert sec == 60 * min + sec % 60;
    assert min == 60 * hr + min % 60;
    assert ms == 60000 * min + (1000 * (sec % 60) + ms % 1000);
    assert ms == 3600000 * hr + (60000 * (min % 60) + 1000 * (sec % 60) + ms % 1000);
    DivUnique(ms, 60000, min, 1000 * (sec % 60) + ms % 1000);
    DivUnique(ms, 3600000, hr, 60000 * (min % 60) + 1000 * (sec % 60) + ms % 1000);
  }

  /** Euclidean division has one quotient. */
  lemma DivUnique(n: nat, d: nat, q: nat, r: nat)
    requires 0 <= r < d && n == d * q + r
    ensures n / d == q
  {
    var q', r' := n / d, n % d;
    assert n == d * q' + r';
    if q < q' {
      MulStep(d, q, q');
    } else if q' < q {
      MulStep(d, q', q);
    }
  }

  /** Multiplication by `d` is monotone, in steps of `d`. */
  lemma {:induction false} MulStep(d: nat, a: nat, b: nat)
    requires a < b
    ensures d * a + d <= d * b
    decreases b - a
  {
    assert d * (a + 1) == d * a + d;
    if a + 1 < b {
      MulStep(d, a + 1, b);
    }
  }

  /** `%02lu`: the decimal text of `n`, left-padded with '0' to two characters. */
  function Pad2(n: nat): (r: string)
    ensures |r| >= 2 && IsDigits(r) && ParseNat(r) == n
    ensures n < 100 <==> |r| == 2
  {
    var digits := NatToString(n);
    ParseNatToString(n);
    if n < 10 then
      assert ['0'] + digits == ['0', digits[0]];
      ['0'] + digits
    else
      digits
  }

  /** Two decimal digits are the padded text of the number they denote. */
  lemma Pad2OfParse(s: string)
    requires |s| == 2 && IsDigits(s)
    ensures Pad2(ParseNat(s)) == s
  {
    var n := ParseNat(s);
    var first := s[..1];
    assert first[..0] == [] && ParseNat(first[..0]) == 0;
    assert ParseNat(first) == DigitValue(s[0]);
    assert n == 10 * DigitValue(s[0]) + DigitValue(s[1]);
    DigitCharOfValue(s[0]);
    DigitCharOfValue(s[1]);
    if n < 10 {
      assert s[0] == '0';
      assert NatToString(n) == [s[1]];
    } else {
      assert NatToString(n) == NatToString(n / 10) + [DigitChar(n % 10)];
      assert n / 10 == DigitValue(s[0]) && n % 10 == DigitValue(s[1]);
      assert NatToString(n) == [s[0], s[1]];
    }
  }

  /** The `HH:MM:SS` text of a clock reading. */
  function ClockText(c: Clock): (t: string)
    requires ValidClock(c)
    ensures |t| == 8 && t[2] == ':' && t[5] == ':'
  {
    Pad2(c.hours) + ":" + Pad2(c.minutes) + ":" + Pad2(c.seconds)
  }

  /** `getTimestamp`: the stamp of an uptime of `ms` milliseconds. */
  function Timestamp(ms: Millis): (t: string)
    ensures |t| == 8 && t[2] == ':' && t[5] == ':'
  {
    ClockText(ClockOf(ms))
  }

  /** The stamp of `ms` is read back as the clock fields of `ms`. */
  lemma TimestampParses(ms: Millis)
    ensures ParseTimestamp(Timestamp(ms)) == Some(ClockOf(ms))
  {
    ClockTextParses(ClockOf(ms));
  }

  /** Reads an `HH:MM:SS` stamp back into its fields; `None` for any other text. */
  function ParseTimestamp(t: string): (r: Option<Clock>)
    ensures r.Some? ==> ValidClock(r.value)
  {
    if |t| == 8 && t[2] == ':' && t[5] == ':'
       && IsDigits(t[0..2]) && IsDigits(t[3..5]) && IsDigits(t[6..8])
    then
      var c := Clock(ParseNat(t[0..2]), ParseNat(t[3..5]), ParseNat(t[6..8]));
      if ValidClock(c) then Some(c) else None
    else
      None
  }

  /** Every valid clock's text is read back as that clock. */
  lemma ClockTextParses(c: Clock)
    requires ValidClock(c)
    ensures ParseTimestamp(ClockText(c)) == Some(c)
  {
    var t := ClockText(c);
    assert t[0..2] == Pad2(c.hours);
    assert t[3..5] == Pad2(c.minutes);
    assert t[6..8] == Pad2(c.seconds);
  }

  /** Whatever the parser accepts is exactly the text of the clock it returns. */
  lemma ParseTimestampExact(t: string)
    requires ParseTimestamp(t).Some?
    ensures ClockText(ParseTimestamp(t).value) == t
  {
    Pad2OfParse(t[0..2]);
    Pad2OfParse(t[3..5]);
    Pad2OfParse(t[6..8]);
    assert t == t[0..2] + ":" + t[3..5] + ":" + t[6..8];
  }

  /** Stamps of uptimes a whole number of days apart coincide. */
  lemma TimestampWrapsDaily(ms: Millis, days: nat)
    requires ms + days * MillisPerDay < 0x1_0000_0000
    ensures Timestamp(ms + days * MillisPerDay) == Timestamp(ms)
  {
    var later: Millis := ms + days * MillisPerDay;
    assert later / 1000 == ms / 1000 + days * 86400 by {
      DivUnique(later, 1000, ms / 1000 + days * 86400, ms % 1000);
    }
    assert (later / 1000) % 86400 == (ms / 1000) % 86400;
    SameSecondOfDay(ClockOf(later), ClockOf(ms));
  }

  /** A valid clock is determined by its second of the day. */
  lemma SameSecondOfDay(a: Clock, b: Clock)
    requires ValidClock(a) && ValidClock(b) && SecondOfDay(a) == SecondOfDay(b)
    ensures a == b
  {
    var x := SecondOfDay(a);
    DivUnique(x, 60, a.hours * 60 + a.minutes, a.seconds);
    DivUnique(x, 60, b.hours * 60 + b.minutes, b.seconds);
    DivUnique(x / 60, 60, a.hours, a.minutes);
    DivUnique(x / 60, 60, b.hours, b.minutes);
  }

  /** Five seconds after start-up. */
  lemma FiveSecondsStamp()
    ensures Timestamp(5000) == "00:00:05"
  {
    assert ClockOf(5000) == Clock(0, 0, 5);
    assert Pad2(0) == "00" && Pad2(5) == "05";
  }

  /** Twenty-five hours after start-up the hour field has wrapped to 01. */
  lemma TwentyFiveHoursStamp()
    ensures Timestamp(90000000) == "01:00:00"
  {
    assert ClockOf(90000000) == Clock(1, 0, 0);
    assert Pad2(0) == "00" && Pad2(1) == "01";
  }
}
