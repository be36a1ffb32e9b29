/** The Python built-ins the game code leans on: `sum`, slicing with an
    arbitrary integer bound, `str` of an integer, and counting characters. */
module Builtins {

  /** `sum(s)`. */
  function Sum(s: seq<int>): int
  {
    if s == [] then 0 else s[0] + Sum(s[1..])
  }

  lemma {:induction false} SumConcat(a: seq<int>, b: seq<int>)
    ensures Sum(a + b) == Sum(a) + Sum(b)
  {
    if a == [] {
      assert a + b == b;
    } else {
      assert (a + b)[1..] == a[1..] + b;
      SumConcat(a[1..], b);
    }
  }

  /** Sum of the absolute values, a bound on any signed total of the items. */
  function AbsSum(s: seq<int>): nat
  {
    if s == [] then 0 else (if s[0] < 0 then -s[0] else s[0]) + AbsSum(s[1..])
  }

  lemma {:induction false} AbsSumConcat(a: seq<int>, b: seq<int>)
    ensures AbsSum(a + b) == AbsSum(a) + AbsSum(b)
  {
    if a == [] {
      assert a + b == b;
    } else {
      assert (a + b)[1..] == a[1..] + b;
      AbsSumConcat(a[1..], b);
    }
  }

  /** A total never exceeds the total of the absolute values. */
  lemma {:induction false} SumWithinAbsSum(s: seq<int>)
    ensures 0 <= Sum(s) + AbsSum(s) && Sum(s) <= AbsSum(s)
  {
    if s != [] {
      SumWithinAbsSum(s[1..]);
    }
  }

  /** Where Python puts a slice bound `k` in a list of length `n`: a negative
      bound counts from the end, and both ends are clamped to the list. */
  function SliceIndex(k: int, n: nat): (r: nat)
    ensures r <= n
    ensures 0 <= k <= n ==> r == k
    ensures n < k ==> r == n
    ensures k < 0 ==> r == (if n + k < 0 then 0 else n + k)
  {
    if k < 0 then (if n + k < 0 then 0 else n + k) else if k > n then n else k
  }

  /** `s[:k]`. */
  function Prefix(s: seq<int>, k: int): seq<int>
  {
    s[..SliceIndex(k, |s|)]
  }

  /** `s[k:]`. */
  function Suffix(s: seq<int>, k: int): seq<int>
  {
    s[SliceIndex(k, |s|)..]
  }

  lemma SplitAt(s: seq<int>, k: int)
    ensures Prefix(s, k) + Suffix(s, k) == s
    ensures Sum(Prefix(s, k)) + Sum(Suffix(s, k)) == Sum(s)
    ensures AbsSum(Prefix(s, k)) + AbsSum(Suffix(s, k)) == AbsSum(s)
  {
    assert Prefix(s, k) + Suffix(s, k) == s;
    SumConcat(Prefix(s, k), Suffix(s, k));
    AbsSumConcat(Prefix(s, k), Suffix(s, k));
  }

  /** The decimal digit for `d`. */
  function Digit(d: int): char
    requires 0 <= d < 10
  {
    "0123456789"[d]
  }

  /** `str(n)` for a non-negative `n`. */
  function NatText(n: nat): (t: string)
    ensures |t| > 0
    decreases n
  {
    if n < 10 then [Digit(n)] else NatText(n / 10) + [Digit(n % 10)]
  }

  /** `str(n)` for any integer: a minus sign, then the digits. */
  function IntText(n: int): (t: string)
    ensures |t| > 0
  {
    if n < 0 then "-" + NatText(-n) else NatText(n)
  }

  /** Only a sign and digits are ever written by `str` on an integer. */
  lemma {:induction false} NatTextChars(n: nat)
    ensures forall i :: 0 <= i < |NatText(n)| ==> NatText(n)[i] in "0123456789"
    decreases n
  {
    if n >= 10 {
      NatTextChars(n / 10);
    }
  }

  lemma IntTextChars(n: int)
    ensures forall i :: 0 <= i < |IntText(n)| ==> IntText(n)[i] in "-0123456789"
  {
    if n < 0 { NatTextChars(-n); } else { NatTextChars(n); }
  }

  /** How often `c` occurs in `t`. */
  function Count(t: string, c: char): nat
  {
    if t == [] then 0 else (if t[0] == c then 1 else 0) + Count(t[1..], c)
  }

  lemma {:induction false} CountConcat(a: string, b: string, c: char)
    ensures Count(a + b, c) == Count(a, c) + Count(b, c)
  {
    if a == [] {
      assert a + b == b;
    } else {
      assert (a + b)[1..] == a[1..] + b;
      CountConcat(a[1..], b, c);
    }
  }

  lemma {:induction false} CountAbsent(t: string, c: char)
    requires forall i :: 0 <= i < |t| ==> t[i] != c
    ensures Count(t, c) == 0
  {
    if t != [] {
      CountAbsent(t[1..], c);
    }
  }

  /** A number's text holds neither a newline nor a space. */
  lemma IntTextNoBlanks(n: int)
    ensures Count(IntText(n), '\n') == 0 && Count(IntText(n), ' ') == 0
  {
    IntTextChars(n);
    CountAbsent(IntText(n), '\n');
    CountAbsent(IntText(n), ' ');
  }
}
