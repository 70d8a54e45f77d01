/** Decimal rendering of counters, block numbers and times inside identifiers. */
module Decimal {

  predicate IsDigit(c: char) { '0' <= c <= '9' }

  predicate AllDigits(s: string) { forall i :: 0 <= i < |s| ==> IsDigit(s[i]) }

  function Digit(n: nat): char
    requires n < 10
  {
    (n + 48) as char
  }

  function Show(n: nat): (s: string)
    ensures s != "" && AllDigits(s)
    ensures |s| == 1 <==> n < 10
  {
    if n < 10 then [Digit(n)] else Show(n / 10) + [Digit(n % 10)]
  }

  /** parseInt: the number a string of decimal digits stands for. */
  function NumberOf(s: string): nat
    requires AllDigits(s)
  {
    if s == "" then 0 else 10 * NumberOf(s[..|s| - 1]) + (s[|s| - 1] as int - '0' as int)
  }

  /** The digits read back as the number, and none of them is a leading zero. */
  lemma {:induction false} ShowReadsBack(n: nat)
    ensures NumberOf(Show(n)) == n
    ensures n > 0 ==> Show(n)[0] != '0'
  {
    if n >= 10 {
      ShowReadsBack(n / 10);
      assert Show(n)[..|Show(n)| - 1] == Show(n / 10);
    } else {
      assert Show(n)[..0] == "";
    }
  }

  lemma {:induction false} ShowInjective(m: nat, n: nat)
    requires Show(m) == Show(n)
    ensures m == n
  {
    var s, t := Show(m), Show(n);
    assert s[|s| - 1] == t[|t| - 1];
    if m >= 10 {
      assert s[..|s| - 1] == Show(m / 10) && t[..|t| - 1] == Show(n / 10);
      ShowInjective(m / 10, n / 10);
    }
  }

  lemma HeadOf(a: string, x: string, sep: char)
    ensures (a + [sep] + x)[0] == if a == "" then sep else a[0]
  {
  }

  /** A number in front of a separator can be read back together with what follows. */
  lemma {:induction false} SplitAtSeparator(a: string, x: string, b: string, y: string, sep: char)
    requires AllDigits(a) && AllDigits(b) && !IsDigit(sep)
    requires a + [sep] + x == b + [sep] + y
    ensures a == b && x == y
  {
    var s, t := a + [sep] + x, b + [sep] + y;
    HeadOf(a, x, sep);
    HeadOf(b, y, sep);
    if a != "" && b != "" {
      assert s[1..] == a[1..] + [sep] + x && t[1..] == b[1..] + [sep] + y;
      SplitAtSeparator(a[1..], x, b[1..], y, sep);
    } else if a == b {
      assert x == s[1..] && y == t[1..];
    } else {
      assert false;
    }
  }

  lemma LastSeparator(a: string, x: string, sep: char)
    requires AllDigits(x) && !IsDigit(sep)
    ensures var s := a + [sep] + x;
            s[|a|] == sep && forall i :: |a| < i < |s| ==> IsDigit(s[i])
  {
    var s := a + [sep] + x;
    forall i | |a| < i < |s| ensures IsDigit(s[i]) {
      assert s[i] == x[i - |a| - 1];
    }
  }

  /** So can a number behind the last separator. */
  lemma SplitAtLastSeparator(a: string, x: string, b: string, y: string, sep: char)
    requires AllDigits(x) && AllDigits(y) && !IsDigit(sep)
    requires a + [sep] + x == b + [sep] + y
    ensures a == b && x == y
  {
    var s, t := a + [sep] + x, b + [sep] + y;
    LastSeparator(a, x, sep);
    LastSeparator(b, y, sep);
    assert |x| == |y|;
    assert a == s[..|s| - 1 - |x|] && b == t[..|t| - 1 - |y|];
    assert x == s[|s| - |x|..] && y == t[|t| - |y|..];
  }
}
