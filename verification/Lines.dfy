/** Where lines end, in text and in bytes alike. */
module LineEnds {
  import opened Basics

  /** Length of the first line of `s`, its newline included. */
  function LineEnd<T(==)>(s: seq<T>, newline: T): (n: nat)
    ensures n <= |s| && (s != [] ==> n >= 1)
  {
    if s == [] then 0 else if s[0] == newline then 1 else 1 + LineEnd(s[1..], newline)
  }

  /** Only the last element of the first line can be a newline, and is one unless the text ends there. */
  lemma {:induction false} LineEndShape<T>(s: seq<T>, newline: T)
    ensures newline !in s[..Monus(LineEnd(s, newline), 1)]
    ensures LineEnd(s, newline) == |s| || s[LineEnd(s, newline) - 1] == newline
  {
    if s != [] && s[0] != newline {
      var n := LineEnd(s[1..], newline);
      LineEndShape(s[1..], newline);
      if n >= 1 {
        assert s[..n] == [s[0]] + s[1..][..n - 1];
      }
    }
  }
}
