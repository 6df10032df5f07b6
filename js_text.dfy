/**
 * The string primitives of the JavaScript runtime that the two panels apply to numbers:
 * `String(n)` for a whole number, `Number(s)` and `parseInt(s, 10)` on decimal text,
 * `s.padStart(2, '0')` and `s.split(':')`.
 */
module JsText {
  import opened Wrappers

  predicate IsDigit(c: char) { '0' <= c <= '9' }

  predicate AllDigits(s: string) { forall i :: 0 <= i < |s| ==> IsDigit(s[i]) }

  function DigitChar(d: nat): (c: char)
    requires d < 10
    ensures IsDigit(c) && c as int - '0' as int == d
  {
    ('0' as int + d) as char
  }

  /** Decimal value of a digit string, most significant digit first; "" has value 0. */
  function Value(s: string): nat
    requires AllDigits(s)
  {
    if s == [] then 0 else Value(s[..|s| - 1]) * 10 + (s[|s| - 1] as int - '0' as int)
  }

  /** `String(n)` for a whole number n: its decimal rendering, without leading zeros. */
  function NatToString(n: nat): (s: string)
    ensures |s| >= 1 && AllDigits(s) && Value(s) == n
    ensures |s| > 1 ==> s[0] != '0'
  {
    if n < 10 then [DigitChar(n)]
    else
      var s := NatToString(n / 10) + [DigitChar(n % 10)];
      assert s[..|s| - 1] == NatToString(n / 10);
      s
  }

  function Pow10(k: nat): (p: nat)
    ensures p >= 1
  {
    if k == 0 then 1 else 10 * Pow10(k - 1)
  }

  /** The rendering of n has at most k digits exactly when n < 10^k. */
  lemma {:induction false} NatToStringLength(n: nat, k: nat)
    requires k >= 1
    ensures |NatToString(n)| <= k <==> n < Pow10(k)
  {
    if n >= 10 {
      assert |NatToString(n)| == |NatToString(n / 10)| + 1;
      if k > 1 {
        NatToStringLength(n / 10, k - 1);
        assert n < Pow10(k) <==> n / 10 < Pow10(k - 1);
      }
    }
  }

  function Zeros(k: nat): (z: string)
    ensures |z| == k && forall i :: 0 <= i < k ==> z[i] == '0'
  {
    seq(k, _ => '0')
  }

  lemma {:induction false} ZerosValue(k: nat)
    ensures AllDigits(Zeros(k)) && Value(Zeros(k)) == 0
  {
    if k > 0 {
      assert Zeros(k)[..k - 1] == Zeros(k - 1);
      ZerosValue(k - 1);
    }
  }

  /** Leading zeros do not change the value of a digit string. */
  lemma {:induction false} LeadingZerosValue(k: nat, s: string)
    requires AllDigits(s)
    ensures AllDigits(Zeros(k) + s) && Value(Zeros(k) + s) == Value(s)
  {
    var t := Zeros(k) + s;
    if s == [] {
      assert t == Zeros(k);
      ZerosValue(k);
    } else {
      assert t[..|t| - 1] == Zeros(k) + s[..|s| - 1];
      LeadingZerosValue(k, s[..|s| - 1]);
    }
  }

  /** `s.padStart(2, '0')`: s itself when it has two characters or more, otherwise s behind
      as many '0' as make two characters. */
  function PadStart2(s: string): (r: string)
    ensures |r| == if |s| >= 2 then |s| else 2
    ensures r[|r| - |s|..] == s
    ensures forall i :: 0 <= i < |r| - |s| ==> r[i] == '0'
  {
    if |s| >= 2 then s else Zeros(2 - |s|) + s
  }

  /** `String(n).padStart(2, '0')`: a digit string worth n, exactly two characters below 100,
      and never truncated: from 10 on it is the plain rendering of n. */
  function Pad2(n: nat): (r: string)
    ensures AllDigits(r) && Value(r) == n
    ensures |r| >= 2 && (n < 100 <==> |r| == 2)
    ensures n >= 10 ==> r == NatToString(n)
  {
    var s := NatToString(n);
    NatToStringLength(n, 1);
    NatToStringLength(n, 2);
    if |s| >= 2 then PadStart2(s)
    else
      LeadingZerosValue(2 - |s|, s);
      assert PadStart2(s) == Zeros(2 - |s|) + s;
      PadStart2(s)
  }

  /** `Number(s)` on decimal text: a digit string converts to its value ("" converts to 0);
      any other text converts to NaN, here None. */
  function NumberOf(s: string): (r: Option<nat>)
    ensures r.Some? <==> AllDigits(s)
    ensures r.Some? ==> r.value == Value(s)
  {
    if AllDigits(s) then Some(Value(s)) else None
  }

  /** The longest prefix of s made of decimal digits. */
  function LeadingDigits(s: string): (p: string)
    ensures AllDigits(p) && p <= s
    ensures |p| < |s| ==> !IsDigit(s[|p|])
  {
    if s == [] || !IsDigit(s[0]) then [] else [s[0]] + LeadingDigits(s[1..])
  }

  /** `parseInt(s, 10)`: the value of the leading digits of s, NaN (None) when s does not
      start with a digit. */
  function ParseInt(s: string): (r: Option<nat>)
    ensures r.None? <==> s == [] || !IsDigit(s[0])
    ensures r.Some? ==> r.value == Value(LeadingDigits(s))
  {
    var p := LeadingDigits(s);
    if p == [] then None else Some(Value(p))
  }

  lemma {:induction false} LeadingDigitsOfDigits(s: string, rest: string)
    requires AllDigits(s)
    requires rest == [] || !IsDigit(rest[0])
    ensures LeadingDigits(s + rest) == s
  {
    if s == [] {
      assert s + rest == rest;
    } else {
      assert (s + rest)[1..] == s[1..] + rest;
      LeadingDigitsOfDigits(s[1..], rest);
    }
  }

  /** parseInt reads a whole digit string, and only its digits: trailing text is ignored. */
  lemma ParseIntDigits(s: string, rest: string)
    requires AllDigits(s) && s != []
    requires rest == [] || !IsDigit(rest[0])
    ensures ParseInt(s + rest) == Some(Value(s))
  {
    LeadingDigitsOfDigits(s, rest);
  }

  /** `s.split(':')`: the pieces of s between colons, in order; there is always one piece. */
  function SplitColon(s: string): (parts: seq<string>)
    ensures |parts| >= 1
    ensures forall i :: 0 <= i < |parts| ==> ':' !in parts[i]
  {
    if s == [] then [[]]
    else
      var rest := SplitColon(s[1..]);
      if s[0] == ':' then [[]] + rest else [[s[0]] + rest[0]] + rest[1..]
  }

  /** `parts.join(':')`. */
  function JoinColon(parts: seq<string>): string
    requires |parts| >= 1
  {
    if |parts| == 1 then parts[0] else parts[0] + ":" + JoinColon(parts[1..])
  }

  /** Splitting loses nothing: joining the pieces with ':' gives the text back. */
  lemma {:induction false} SplitThenJoin(s: string)
    ensures JoinColon(SplitColon(s)) == s
  {
    if s != [] {
      var rest := SplitColon(s[1..]);
      SplitThenJoin(s[1..]);
      if s[0] == ':' {
        assert ([[]] + rest)[1..] == rest;
      } else {
        var parts := [[s[0]] + rest[0]] + rest[1..];
        if |rest| == 1 {
          assert JoinColon(parts) == [s[0]] + rest[0];
        } else {
          assert parts[1..] == rest[1..];
          assert JoinColon(parts) == [s[0]] + (rest[0] + ":" + JoinColon(rest[1..]));
        }
      }
    }
  }

  /** Text without a colon is one piece. */
  lemma {:induction false} SplitWithoutColon(s: string)
    requires ':' !in s
    ensures SplitColon(s) == [s]
  {
    if s != [] {
      SplitWithoutColon(s[1..]);
      assert [s[0]] + s[1..] == s;
    }
  }

  /** A colon-free prefix joins the first piece of what follows it. */
  lemma {:induction false} SplitColonFreePrefix(a: string, t: string)
    requires ':' !in a
    ensures SplitColon(a + t) == [a + SplitColon(t)[0]] + SplitColon(t)[1..]
  {
    var tail := SplitColon(t);
    if a == [] {
      assert a + t == t && a + tail[0] == tail[0];
      assert [tail[0]] + tail[1..] == tail;
    } else {
      var s := a + t;
      assert s[0] == a[0] && s[1..] == a[1..] + t;
      SplitColonFreePrefix(a[1..], t);
      var rest := SplitColon(s[1..]);
      assert SplitColon(s) == [[s[0]] + rest[0]] + rest[1..];
      assert rest[1..] == tail[1..];
      assert [a[0]] + (a[1..] + tail[0]) == a + tail[0];
    }
  }

  /** Two colon-free texts joined by one colon split back into exactly those two. */
  lemma SplitAroundColon(a: string, b: string)
    requires ':' !in a && ':' !in b
    ensures SplitColon(a + ":" + b) == [a, b]
  {
    assert a + ":" + b == a + (":" + b);
    SplitColonFreePrefix(a, ":" + b);
    assert (":" + b)[1..] == b;
    SplitWithoutColon(b);
    assert a + [] == a;
  }

  lemma DigitsHaveNoColon(s: string)
    requires AllDigits(s)
    ensures ':' !in s
  {
  }
}
