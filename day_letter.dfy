/**
 * The letter of the day: every ticket code starts with a letter that depends only on the
 * number of whole days since 2024-08-23 (letter A), cycling through A..Z every 26 days.
 */
module DayLetter {

  const MsPerDay: int := 1000 * 60 * 60 * 24

  /** Division rounded toward zero, as `Math.trunc(a / b)`. */
  function TruncDiv(a: int, b: int): int
    requires b > 0
  {
    if a >= 0 then a / b else -((-a) / b)
  }

  /** JavaScript's `%`: the remainder of division rounded toward zero, so it takes the sign
      of the dividend and is smaller than the divisor in magnitude. */
  function JsRem(a: int, b: int): (r: int)
    requires b > 0
    ensures a == b * TruncDiv(a, b) + r
    ensures -b < r < b
    ensures a >= 0 ==> r >= 0
    ensures a <= 0 ==> r <= 0
  {
    if a >= 0 then a % b else -((-a) % b)
  }

  /** `Math.floor((now - base) / msPerDay)`: the whole days from base to now, rounded down. */
  function DaysSince(nowMs: int, baseMs: int): (days: int)
    ensures days * MsPerDay <= nowMs - baseMs < (days + 1) * MsPerDay
  {
    (nowMs - baseMs) / MsPerDay
  }

  /** `((days % 26) + 26) % 26` with JavaScript's `%`. */
  function LetterIndex(days: int): (i: int)
    ensures 0 <= i < 26
  {
    JsRem(JsRem(days, 26) + 26, 26)
  }

  /** `String.fromCharCode(65 + index)`: the letter of a day. */
  function LetterOfDay(days: int): (c: char)
    ensures 'A' <= c <= 'Z'
  {
    (65 + LetterIndex(days)) as char
  }

  /** The letter of the day for the instant nowMs, counting days from the base instant. */
  function LetterOfInstant(nowMs: int, baseMs: int): (c: char)
    ensures 'A' <= c <= 'Z'
  {
    LetterOfDay(DaysSince(nowMs, baseMs))
  }

  /** The guarded double remainder is the mathematical (non-negative) remainder, for past
      and future days alike. */
  lemma LetterIndexIsModulo(days: int)
    ensures LetterIndex(days) == days % 26
  {
    var t := JsRem(days, 26);
    assert 0 < t + 26 < 52;
    assert JsRem(t + 26, 26) == (t + 26) % 26;
    ModuloShift(days, TruncDiv(days, 26), t);
  }

  lemma ModuloShift(a: int, q: int, t: int)
    requires a == 26 * q + t
    ensures (t + 26) % 26 == a % 26
  {
    assert t + 26 == a + 26 * (1 - q);
  }

  /** The letter is 'A' plus the day count modulo 26. */
  lemma LetterOfDayOffset(days: int)
    ensures LetterOfDay(days) as int - 'A' as int == days % 26
  {
    LetterIndexIsModulo(days);
  }

  /** The letter repeats every 26 days, and only then: two day counts get the same letter
      exactly when they are 26k days apart. */
  lemma LetterPeriod(d1: int, d2: int)
    ensures LetterOfDay(d1) == LetterOfDay(d2) <==> (d1 - d2) % 26 == 0
  {
    LetterOfDayOffset(d1);
    LetterOfDayOffset(d2);
    DifferenceModulo(d1, d2);
  }

  lemma DifferenceModulo(d1: int, d2: int)
    ensures (d1 - d2) % 26 == 0 <==> d1 % 26 == d2 % 26
  {
    var q1, q2 := d1 / 26, d2 / 26;
    assert d1 - d2 == 26 * (q1 - q2) + (d1 % 26 - d2 % 26);
    MultipleOf26(d1 - d2, q1 - q2, d1 % 26 - d2 % 26);
  }

  lemma MultipleOf26(x: int, k: int, r: int)
    requires x == 26 * k + r && -26 < r < 26
    ensures x % 26 == 0 <==> r == 0
  {
    var m := x / 26;
    assert x == 26 * m + x % 26;
  }

  /** Day 0 (2024-08-23) is 'A', the next day 'B', day 25 'Z', day 26 'A' again, and the day
      before the base date is 'Z'. */
  lemma LetterExamples()
    ensures LetterOfDay(0) == 'A' && LetterOfDay(1) == 'B' && LetterOfDay(25) == 'Z'
    ensures LetterOfDay(26) == 'A' && LetterOfDay(-1) == 'Z'
  {
    LetterIndexIsModulo(0);
    LetterIndexIsModulo(1);
    LetterIndexIsModulo(25);
    LetterIndexIsModulo(26);
    LetterIndexIsModulo(-1);
  }
}
