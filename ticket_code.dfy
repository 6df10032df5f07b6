/**
 * The code of a new ticket: today's letter followed by a number that starts at 01 and goes up
 * by one for each ticket of the day, found from the most recent code with today's letter.
 */
module TicketCode {
  import opened Wrappers
  import opened JsText
  import opened DayLetter

  /** `new Date('2024-08-23')`, the day whose letter is A, in milliseconds since the epoch. */
  const BaseDateMs: int := 1724371200000

  /** What the lookup of today's most recent code with today's letter returns: the query
      failed, it returned no data (null), or it returned rows, newest first, whose code
      column may be null. */
  datatype LastCodeQuery = QueryFailed | NoData | Rows(codes: seq<Option<string>>)

  /** The next code: `<letter>01` when there is no previous code; otherwise the number after
      the first character of the previous code (an empty or null code counts as `<letter>00`),
      plus one, padded to two digits. A previous code without digits after its first
      character gives NaN, which renders as "NaN". */
  function NextCode(letter: char, q: LastCodeQuery): (code: string)
    ensures |code| >= 3 && code[0] == letter
  {
    if q.QueryFailed? || q.NoData? || q.codes == [] then [letter] + "01"
    else
      var stored := q.codes[0];
      var last := if stored.None? || stored.value == [] then [letter] + "00" else stored.value;
      match ParseInt(last[1..])
      case None => [letter] + "NaN"
      case Some(n) => [letter] + Pad2(n + 1)
  }

  /** generarNuevoTurno at instant nowMs: the day's letter followed by the next number for
      that letter, given the lookup of the day's most recent code with that letter. */
  function GenerateCode(nowMs: int, q: LastCodeQuery): (code: string)
    ensures |code| >= 3 && 'A' <= code[0] <= 'Z'
    ensures code[0] as int - 'A' as int == DaysSince(nowMs, BaseDateMs) % 26
  {
    var letter := LetterOfInstant(nowMs, BaseDateMs);
    LetterOfDayOffset(DaysSince(nowMs, BaseDateMs));
    NextCode(letter, q)
  }

  /** A failed lookup, no data or no rows all give the first code of the day. */
  lemma NextCodeWithoutPrevious(letter: char, q: LastCodeQuery)
    requires q.QueryFailed? || q.NoData? || q.codes == []
    ensures NextCode(letter, q) == [letter] + "01"
    ensures AllDigits(NextCode(letter, q)[1..]) && Value(NextCode(letter, q)[1..]) == 1
  {
    var code := NextCode(letter, q);
    assert code[1..] == "01";
    assert Value("01") == Value("0") * 10 + 1;
  }

  /** A stored code that is empty or null is read as `<letter>00`, so the next code is
      `<letter>01`. */
  lemma NextCodeAfterEmptyCode(letter: char, q: LastCodeQuery)
    requires q.Rows? && q.codes != []
    requires q.codes[0] == None || q.codes[0] == Some([])
    ensures NextCode(letter, q) == [letter] + "01"
  {
    var last := [letter] + "00";
    assert last[1..] == "00";
    ParseIntDigits("00", []);
    assert "00" + [] == "00";
    assert Value("00") == 0;
    assert Pad2(1) == "01";
  }

  /** After a code whose first character is followed by the digits of n (and then nothing
      that is a digit), the next code is today's letter followed by n + 1 padded to two
      digits: parsing its number gives n + 1 back, it has exactly two digits while n + 1 is
      below 100, and more from 100 on (nothing is cut off). */
  lemma {:induction false} NextCodeIncrements(letter: char, q: LastCodeQuery, first: char, digits: string, rest: string)
    requires q.Rows? && q.codes != [] && q.codes[0] == Some([first] + digits + rest)
    requires AllDigits(digits) && digits != []
    requires rest == [] || !IsDigit(rest[0])
    ensures NextCode(letter, q) == [letter] + Pad2(Value(digits) + 1)
    ensures ParseInt(NextCode(letter, q)[1..]) == Some(Value(digits) + 1)
    ensures |NextCode(letter, q)| == 3 <==> Value(digits) + 1 < 100
  {
    NextCodeOfDigits(letter, q, first, digits, rest);
    PaddedCodeParsesBack(letter, Value(digits) + 1);
  }

  lemma {:induction false} NextCodeOfDigits(letter: char, q: LastCodeQuery, first: char, digits: string, rest: string)
    requires q.Rows? && q.codes != [] && q.codes[0] == Some([first] + digits + rest)
    requires AllDigits(digits) && digits != []
    requires rest == [] || !IsDigit(rest[0])
    ensures NextCode(letter, q) == [letter] + Pad2(Value(digits) + 1)
  {
    var last := [first] + digits + rest;
    assert last[1..] == digits + rest;
    ParseIntDigits(digits, rest);
    NextCodeOfNumber(letter, q, last, Value(digits));
  }

  /** The letter followed by k padded reads back as k, in three characters exactly when
      k < 100. */
  lemma {:induction false} PaddedCodeParsesBack(letter: char, k: nat)
    ensures ParseInt(([letter] + Pad2(k))[1..]) == Some(k)
    ensures |[letter] + Pad2(k)| == 3 <==> k < 100
  {
    var padded := Pad2(k);
    assert ([letter] + padded)[1..] == padded;
    assert padded + [] == padded;
    ParseIntDigits(padded, []);
  }

  /** A stored code whose number parses as n is followed by the letter and n + 1, padded. */
  lemma NextCodeOfNumber(letter: char, q: LastCodeQuery, last: string, n: nat)
    requires q.Rows? && q.codes != [] && q.codes[0] == Some(last) && last != []
    requires ParseInt(last[1..]) == Some(n)
    ensures NextCode(letter, q) == [letter] + Pad2(n + 1)
  {
  }

  /** Storing a code and asking for the next one adds one to its number. */
  lemma {:induction false} NextAfterStored(letter: char, code: string)
    requires |code| >= 2 && AllDigits(code[1..])
    ensures var next := NextCode(letter, Rows([Some(code)]));
      AllDigits(next[1..]) && Value(next[1..]) == Value(code[1..]) + 1
  {
    var digits := code[1..];
    assert code == [code[0]] + digits + [];
    NextCodeIncrements(letter, Rows([Some(code)]), code[0], digits, []);
  }

  /** The code is the letter followed by the digits of n. */
  predicate NumberedCode(code: string, letter: char, n: nat)
  {
    |code| >= 2 && code[0] == letter && AllDigits(code[1..]) && Value(code[1..]) == n
  }

  /** The n-th code issued on a day when each ticket is created after the previous one is
      stored (n >= 1). Codes of one day count up from 1 within the day's letter: the n-th
      code is the letter followed by the digits of n, so codes strictly increase and never
      repeat. */
  function NthCode(letter: char, n: nat): (code: string)
    requires n >= 1
    ensures NumberedCode(code, letter, n)
    decreases n
  {
    if n == 1 then
      NextCodeWithoutPrevious(letter, NoData);
      NextCode(letter, NoData)
    else
      var previous := NthCode(letter, n - 1);
      NextAfterStored(letter, previous);
      NextCode(letter, Rows([Some(previous)]))
  }
}
