/** The two array searches the panels use: `findIndex` by equality and `includes`. */
module JsArray {

  /** `s.findIndex(e => e === x)`: the position of the first element equal to x, or -1 when
      there is none. */
  function FindIndex<T(==)>(s: seq<T>, x: T): (r: int)
    ensures -1 <= r < |s|
    ensures r >= 0 ==> s[r] == x && x !in s[..r]
    ensures r == -1 <==> x !in s
  {
    if s == [] then -1
    else if s[0] == x then 0
    else
      var k := FindIndex(s[1..], x);
      if k == -1 then -1 else k + 1
  }

  /** `s.includes(x)`: whether some element equals x. */
  function Includes<T(==)>(s: seq<T>, x: T): (r: bool)
    ensures r <==> x in s
  {
    if s == [] then false else s[0] == x || Includes(s[1..], x)
  }
}
