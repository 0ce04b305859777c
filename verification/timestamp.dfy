/** The timestamp formatter of the binding: a count of centiseconds becomes
    `HH:MM:SS.mmm`, or `HH:MM:SS,mmm` when the comma form is asked for. */
module Timestamp {
  import opened Wrappers
  import opened Decimal

  const MsPerSecond := 1000
  const MsPerMinute := 1000 * 60
  const MsPerHour := 1000 * 60 * 60

  /** Inputs for which the 64-bit products and the `(int)` casts of the C code
      cannot overflow: the hour count stays below 2^31. */
  const TimestampBound := 0x8000_0000 * 360_000

  predicate InRange(t: int) {
    0 <= t < TimestampBound
  }

  /** The four fields printed by the formatter. */
  datatype Clock = Clock(hr: nat, min: nat, sec: nat, msec: nat)

  predicate WellFormed(c: Clock) {
    c.min < 60 && c.sec < 60 && c.msec < 1000
  }

  function Millis(c: Clock): int {
    c.hr * MsPerHour + c.min * MsPerMinute + c.sec * MsPerSecond + c.msec
  }

  /** The field split in `to_timestamp`: scale to milliseconds, then peel off
      hours, minutes and seconds by division, keeping each remainder by
      subtraction. For non-negative input C's truncating division agrees with
      Dafny's. */
  function Decompose(t: int): (c: Clock)
    requires InRange(t)
    ensures WellFormed(c)
    ensures Millis(c) == t * 10
    ensures c.hr < 0x8000_0000
  {
    var msec := t * 10;
    var hr := msec / MsPerHour;
    var msec1 := msec - hr * MsPerHour;
    var min := msec1 / MsPerMinute;
    var msec2 := msec1 - min * MsPerMinute;
    var sec := msec2 / MsPerSecond;
    var msec3 := msec2 - sec * MsPerSecond;
    Clock(hr, min, sec, msec3)
  }

  /** The split is the only well-formed clock reading of `t * 10` ms. */
  lemma DecomposeUnique(t: int, c: Clock)
    requires InRange(t)
    requires WellFormed(c) && Millis(c) == t * 10
    ensures c == Decompose(t)
  {
    var d := Decompose(t);
    var a := c.min * MsPerMinute + c.sec * MsPerSecond + c.msec;
    var b := d.min * MsPerMinute + d.sec * MsPerSecond + d.msec;
    assert 0 <= a < MsPerHour && 0 <= b < MsPerHour;
    assert c.hr == d.hr;
    var a' := c.sec * MsPerSecond + c.msec;
    var b' := d.sec * MsPerSecond + d.msec;
    assert 0 <= a' < MsPerMinute && 0 <= b' < MsPerMinute;
    assert c.min == d.min;
    assert c.sec == d.sec;
  }

  function Separator(comma: bool): char {
    if comma then ',' else '.'
  }

  /** `%02d:%02d:%02d%s%03d` applied to the split of `t`. The hour field is
      printed even though the comment above `to_timestamp` shows only `MM:SS.mmm`. */
  function Format(t: int, comma: bool): (s: string)
    requires InRange(t)
    ensures |s| >= 12
    ensures s[|s| - 10] == ':' && s[|s| - 7] == ':' && s[|s| - 4] == Separator(comma)
    ensures Decompose(t).hr < 100 <==> |s| == 12
  {
    var c := Decompose(t);
    var h := Pad(c.hr, 2);
    var m := Pad(c.min, 2);
    var sc := Pad(c.sec, 2);
    var ms := Pad(c.msec, 3);
    assert Pow10(2) == 100 && Pow10(3) == 1000;
    assert c.hr >= 100 ==> |h| > 2 by {
      if c.hr >= 100 && |h| <= 2 { ValueBelow(h); }
    }
    h + ":" + m + ":" + sc + [Separator(comma)] + ms
  }

  /** A digit string of at most two characters has a value below 100. */
  lemma ValueBelow(s: string)
    requires AllDigits(s) && |s| <= 2
    ensures Value(s) < 100
  {
    if |s| == 2 {
      assert s[..1][..0] == [];
    } else if |s| == 1 {
      assert s[..0] == [];
    }
  }

  /** A parsed timestamp: milliseconds and which separator was used. */
  datatype Stamp = Stamp(millis: nat, comma: bool)

  /** Reads a formatter output back: everything before the last ten characters
      is the hour field. */
  function Parse(s: string): Option<Stamp> {
    if |s| < 12 then None
    else
      var n := |s|;
      var h := s[..n - 10];
      var m := s[n - 9..n - 7];
      var sc := s[n - 6..n - 4];
      var ms := s[n - 3..];
      if s[n - 10] == ':' && s[n - 7] == ':' && (s[n - 4] == '.' || s[n - 4] == ',')
        && AllDigits(h) && AllDigits(m) && AllDigits(sc) && AllDigits(ms)
        && Value(m) < 60 && Value(sc) < 60
      then Some(Stamp(Millis(Clock(Value(h), Value(m), Value(sc), Value(ms))), s[n - 4] == ','))
      else None
  }

  /** Formatting loses nothing: the output determines `t * 10` and the
      separator choice. */
  lemma ParseFormat(t: int, comma: bool)
    requires InRange(t)
    ensures Parse(Format(t, comma)) == Some(Stamp(t * 10, comma))
  {
    var c := Decompose(t);
    assert Pow10(2) == 100 && Pow10(3) == 1000;
    FormatFields(t, comma);
  }

  lemma FormatInjective(t1: int, c1: bool, t2: int, c2: bool)
    requires InRange(t1) && InRange(t2)
    requires Format(t1, c1) == Format(t2, c2)
    ensures t1 == t2 && c1 == c2
  {
    ParseFormat(t1, c1);
    ParseFormat(t2, c2);
  }

  /** Every field is zero-padded to its width: two digits for hours below
      100, minutes and seconds, three for milliseconds. */
  lemma FormatFields(t: int, comma: bool)
    requires InRange(t)
    ensures var s := Format(t, comma); var c := Decompose(t);
      && s[..|s| - 10] == Pad(c.hr, 2)
      && s[|s| - 9..|s| - 7] == Pad(c.min, 2)
      && s[|s| - 6..|s| - 4] == Pad(c.sec, 2)
      && s[|s| - 3..] == Pad(c.msec, 3)
  {
    var c := Decompose(t);
    assert Pow10(2) == 100 && Pow10(3) == 1000;
    var s := Format(t, comma);
    assert s == Pad(c.hr, 2) + ":" + Pad(c.min, 2) + ":" + Pad(c.sec, 2) + [Separator(comma)] + Pad(c.msec, 3);
  }

  lemma PadExamples()
    ensures Pad(0, 2) == "00" && Pad(1, 2) == "01" && Pad(5, 2) == "05"
    ensures Pad(0, 3) == "000"
    ensures Pad(123, 2) == "123"
  {
    assert Digits(0) == "0" && Digits(1) == "1" && Digits(5) == "5";
    assert Zeros(1) == "0" && Zeros(2) == "00";
    assert Digits(12) == "12" && Digits(123) == "123";
  }

  lemma FormatExample(t: int, comma: bool, c: Clock)
    requires InRange(t) && Decompose(t) == c
    ensures Format(t, comma) == Pad(c.hr, 2) + ":" + Pad(c.min, 2) + ":" + Pad(c.sec, 2) + [Separator(comma)] + Pad(c.msec, 3)
  {
  }

  lemma FiveSeconds()
    ensures Format(500, false) == "00:00:05.000"
  {
    PadExamples();
    assert Decompose(500) == Clock(0, 0, 5, 0);
    FormatExample(500, false, Clock(0, 0, 5, 0));
  }

  lemma FiveSecondsComma()
    ensures Format(500, true) == "00:00:05,000"
  {
    PadExamples();
    assert Decompose(500) == Clock(0, 0, 5, 0);
    FormatExample(500, true, Clock(0, 0, 5, 0));
  }

  lemma OneMinute()
    ensures Format(6000, false) == "00:01:00.000"
  {
    PadExamples();
    assert Decompose(6000) == Clock(0, 1, 0, 0);
    FormatExample(6000, false, Clock(0, 1, 0, 0));
  }

  /** The worked examples: 500 cs is five seconds, 6000 cs one minute. */
  lemma FormatExamples()
    ensures Format(500, false) == "00:00:05.000"
    ensures Format(6000, false) == "00:01:00.000"
    ensures Format(500, true) == "00:00:05,000"
  {
    FiveSeconds();
    FiveSecondsComma();
    OneMinute();
  }
}
