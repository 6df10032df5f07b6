/**
 * The customer panel's date and time strings: today's date as `YYYY-MM-DD` and the time as
 * `HH:MM`, both with two-digit zero padding, and the `HH:MM` to minutes-of-day conversion
 * used against the configured opening and closing times.
 */
module DateTime {
  import opened Wrappers
  import opened JsText

  /** The date string built from the local calendar fields; monthIndex is 0-based, as the
      runtime's month getter returns it. The year is rendered as is, month and day take two
      digits, and each field reads back as the value it was built from. */
  function FormatDate(year: nat, monthIndex: nat, day: nat): (r: string)
    requires monthIndex < 12 && 1 <= day <= 31
    ensures |r| >= 7 && r[|r| - 6] == '-' && r[|r| - 3] == '-'
    ensures AllDigits(r[..|r| - 6]) && Value(r[..|r| - 6]) == year
    ensures AllDigits(r[|r| - 5..|r| - 3]) && Value(r[|r| - 5..|r| - 3]) == monthIndex + 1
    ensures AllDigits(r[|r| - 2..]) && Value(r[|r| - 2..]) == day
    ensures |r| == 10 <==> 1000 <= year < 10000
  {
    var y, m, d := NatToString(year), Pad2(monthIndex + 1), Pad2(day);
    DateLayout(y, m, d);
    NatToStringLength(year, 3);
    NatToStringLength(year, 4);
    y + "-" + m + "-" + d
  }

  /** Where the three fields sit in `<y>-<mm>-<dd>`, counted from the end. */
  lemma DateLayout(y: string, m: string, d: string)
    requires |m| == 2 && |d| == 2
    ensures var r := y + "-" + m + "-" + d;
      |r| == |y| + 6 && r[|r| - 6] == '-' && r[|r| - 3] == '-' &&
      r[..|r| - 6] == y && r[|r| - 5..|r| - 3] == m && r[|r| - 2..] == d
  {
    var r := y + "-" + m + "-" + d;
    assert r[..|r| - 6] == y;
    assert r[|r| - 5..|r| - 3] == m;
    assert r[|r| - 2..] == d;
  }

  /** The time string `HH:MM`: five characters, a colon in the middle, and each side reads
      back as the hours and minutes it was built from. */
  function FormatTime(hours: nat, minutes: nat): (r: string)
    requires hours < 24 && minutes < 60
    ensures |r| == 5 && r[2] == ':'
    ensures AllDigits(r[..2]) && Value(r[..2]) == hours
    ensures AllDigits(r[3..]) && Value(r[3..]) == minutes
  {
    var h, m := Pad2(hours), Pad2(minutes);
    var r := h + ":" + m;
    assert r[..2] == h && r[3..] == m;
    r
  }

  /** hhmmToMinutes: split on ':', convert the first two pieces with Number and combine them
      as h * 60 + m. A piece that is not a number, or a missing second piece, gives NaN (None). */
  function HhmmToMinutes(hhmm: string): (r: Option<int>)
    ensures r.Some? ==> r.value >= 0
  {
    MinutesOfPieces(SplitColon(hhmm))
  }

  /** `const [h, m] = pieces.map(Number); return h * 60 + m`: a number exactly when the
      first two pieces are digit strings, and any further pieces are ignored. */
  function MinutesOfPieces(pieces: seq<string>): (r: Option<int>)
    requires |pieces| >= 1
    ensures r.Some? <==> |pieces| >= 2 && AllDigits(pieces[0]) && AllDigits(pieces[1])
    ensures r.Some? ==> r.value == Value(pieces[0]) * 60 + Value(pieces[1])
  {
    var h := NumberOf(pieces[0]);
    var m := if |pieces| >= 2 then NumberOf(pieces[1]) else None;
    if h.Some? && m.Some? then Some(h.value * 60 + m.value) else None
  }

  /** Two digit strings around a colon convert to hours * 60 + minutes; with hours below 24
      and minutes below 60 that is a minute of the day, in [0, 1440). */
  lemma {:induction false} HhmmToMinutesOfDigits(h: string, m: string)
    requires AllDigits(h) && AllDigits(m)
    ensures HhmmToMinutes(h + ":" + m) == Some(Value(h) * 60 + Value(m))
    ensures Value(h) < 24 && Value(m) < 60 ==> 0 <= Value(h) * 60 + Value(m) < 1440
  {
    DigitPiecesSplit(h, m);
    if Value(h) < 24 && Value(m) < 60 {
      MinuteOfDayBound(Value(h), Value(m));
    }
  }

  lemma {:induction false} DigitPiecesSplit(h: string, m: string)
    requires AllDigits(h) && AllDigits(m)
    ensures SplitColon(h + ":" + m) == [h, m]
  {
    DigitsHaveNoColon(h);
    DigitsHaveNoColon(m);
    SplitAroundColon(h, m);
  }

  lemma MinuteOfDayBound(h: nat, m: nat)
    requires h < 24 && m < 60
    ensures 0 <= h * 60 + m < 1440
  {
    assert h * 60 <= 23 * 60;
  }

  /** Text without a colon has no minutes piece, so it converts to NaN. */
  lemma {:induction false} HhmmToMinutesWithoutColon(s: string)
    requires ':' !in s
    ensures HhmmToMinutes(s) == None
  {
    SplitWithoutColon(s);
  }

  /** Round trip: converting the panel's own time string gives back the minute of the day. */
  lemma TimeToMinutesRoundTrip(hours: nat, minutes: nat)
    requires hours < 24 && minutes < 60
    ensures HhmmToMinutes(FormatTime(hours, minutes)) == Some(hours * 60 + minutes)
    ensures 0 <= hours * 60 + minutes < 1440
  {
    var r := FormatTime(hours, minutes);
    assert r == r[..2] + ":" + r[3..];
    HhmmToMinutesOfDigits(r[..2], r[3..]);
  }
}
