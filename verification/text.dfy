/** Decimal digits as JavaScript reads and writes them. */
module Text {

  /** `Math.max` of two integers. */
  function Max(a: int, b: int): int { if a < b then b else a }

  predicate IsDigit(c: char) {
    '0' <= c <= '9'
  }

  predicate AllDigits(s: string) {
    forall i :: 0 <= i < |s| ==> IsDigit(s[i])
  }

  function DigitValue(c: char): (d: nat)
    requires IsDigit(c)
    ensures d < 10
  {
    c as int - '0' as int
  }

  function DigitChar(d: nat): (c: char)
    requires d < 10
    ensures IsDigit(c) && DigitValue(c) == d
  {
    ('0' as int + d) as char
  }

  /** Value of a string of decimal digits, most significant first (what `parseInt` gives). */
  function DigitsValue(s: string): nat
    requires AllDigits(s)
  {
    if s == [] then 0 else 10 * DigitsValue(s[..|s| - 1]) + DigitValue(s[|s| - 1])
  }

  /** Decimal rendering of a non-negative integer, as a template literal `${n}` writes it. */
  function NatToString(n: nat): (s: string)
    ensures |s| > 0 && AllDigits(s)
    ensures |s| > 1 ==> s[0] != '0'
  {
    if n < 10 then [DigitChar(n)] else NatToString(n / 10) + [DigitChar(n % 10)]
  }

  lemma {:induction false} NatToStringRoundTrip(n: nat)
    ensures DigitsValue(NatToString(n)) == n
  {
    if n >= 10 {
      var s := NatToString(n);
      assert s[..|s| - 1] == NatToString(n / 10);
      NatToStringRoundTrip(n / 10);
    }
  }

  /** Length of the longest prefix of `s` made of decimal digits. */
  function DigitRun(s: string): (k: nat)
    ensures k <= |s| && AllDigits(s[..k])
    ensures k < |s| ==> !IsDigit(s[k])
  {
    if s == [] || !IsDigit(s[0]) then 0
    else
      var k := 1 + DigitRun(s[1..]);
      assert s[..k] == [s[0]] + s[1..][..k - 1];
      k
  }

  /** A digit string followed by a non-digit: the digit run is exactly that string. */
  lemma {:induction false} DigitRunOfPrefix(d: string, rest: string)
    requires AllDigits(d)
    requires rest != [] && !IsDigit(rest[0])
    ensures DigitRun(d + rest) == |d|
  {
    if d != [] {
      assert (d + rest)[1..] == d[1..] + rest;
      DigitRunOfPrefix(d[1..], rest);
    }
  }

  /** Line terminators, the characters a regular-expression `.` does not match. */
  predicate IsLineTerminator(c: char) {
    c == '\n' || c == '\r' || c == '\U{2028}' || c == '\U{2029}'
  }

  predicate NoLineTerminator(s: string) {
    forall i :: 0 <= i < |s| ==> !IsLineTerminator(s[i])
  }

  /** The white space matched by `\s` in a JavaScript regular expression. */
  predicate IsJsSpace(c: char) {
    c == ' ' || c == '\t' || c == '\n' || c == '\U{B}' || c == '\U{C}' || c == '\r'
    || c == '\U{A0}' || c == '\U{1680}' || ('\U{2000}' <= c <= '\U{200A}')
    || c == '\U{2028}' || c == '\U{2029}' || c == '\U{202F}' || c == '\U{205F}'
    || c == '\U{3000}' || c == '\U{FEFF}'
  }

  /** `s.replace(/[^...]+/, "")` without the g flag: the first maximal run of
      characters satisfying `drop` is removed, the rest is kept as it is. */
  function DeleteFirstRun(s: string, drop: char -> bool): string
  {
    if s == [] then []
    else if drop(s[0]) then s[RunLength(s, drop)..]
    else [s[0]] + DeleteFirstRun(s[1..], drop)
  }

  /** Length of the maximal prefix of `s` whose characters satisfy `p`. */
  function RunLength(s: string, p: char -> bool): (k: nat)
    ensures k <= |s|
    ensures forall i :: 0 <= i < k ==> p(s[i])
    ensures k < |s| ==> !p(s[k])
  {
    if s == [] || !p(s[0]) then 0 else 1 + RunLength(s[1..], p)
  }

  /** `s.replace(/[...]+/g, c)`: every maximal run of characters satisfying
      `p` becomes the single character `c`, written where the run ends. */
  function CollapseRuns(s: string, p: char -> bool, c: char): string {
    if s == [] then []
    else if !p(s[0]) then [s[0]] + CollapseRuns(s[1..], p, c)
    else if |s| > 1 && p(s[1]) then CollapseRuns(s[1..], p, c)
    else [c] + CollapseRuns(s[1..], p, c)
  }

  /** What CollapseRuns produces: no character satisfying `p` survives unless
      it is `c`, and every character is `c` or one of the input's. */
  lemma {:induction false} CollapseRunsCharset(s: string, p: char -> bool, c: char)
    ensures forall x :: x in CollapseRuns(s, p, c) ==> x == c || (x in s && !p(x))
  {
    if s != [] {
      CollapseRunsCharset(s[1..], p, c);
      assert forall x :: x in s[1..] ==> x in s;
    }
  }

  /** Only the empty text collapses to nothing. */
  lemma {:induction false} CollapseRunsEmpty(s: string, p: char -> bool, c: char)
    ensures CollapseRuns(s, p, c) == [] <==> s == []
  {
    if s != [] {
      CollapseRunsEmpty(s[1..], p, c);
    }
  }

  /** Text without a `p` character is left as it is. */
  lemma {:induction false} CollapseRunsNone(s: string, p: char -> bool, c: char)
    requires forall i :: 0 <= i < |s| ==> !p(s[i])
    ensures CollapseRuns(s, p, c) == s
  {
    if s != [] {
      CollapseRunsNone(s[1..], p, c);
      assert s == [s[0]] + s[1..];
    }
  }

  /** Text that is empty or ends outside a run collapses on its own: its
      runs all end inside it, whatever follows. */
  lemma {:induction false} CollapseRunsAppend(w: string, x: string, p: char -> bool, c: char)
    requires w == [] || !p(w[|w| - 1])
    ensures CollapseRuns(w + x, p, c) == CollapseRuns(w, p, c) + CollapseRuns(x, p, c)
  {
    if w == [] {
      assert w + x == x;
    } else {
      assert (w + x)[1..] == w[1..] + x;
      CollapseRunsAppend(w[1..], x, p, c);
      if p(w[0]) {
        assert |w| > 1 && (w + x)[1] == w[1];
      }
    }
  }

  /** A leading maximal run becomes one `c`. */
  lemma {:induction false} CollapseRunsLeadingRun(sp: string, q: string, p: char -> bool, c: char)
    requires sp != [] && forall i :: 0 <= i < |sp| ==> p(sp[i])
    requires q == [] || !p(q[0])
    ensures CollapseRuns(sp + q, p, c) == [c] + CollapseRuns(q, p, c)
  {
    assert (sp + q)[1..] == sp[1..] + q;
    if |sp| > 1 {
      CollapseRunsLeadingRun(sp[1..], q, p, c);
      assert (sp + q)[1] == sp[1];
    } else {
      assert sp[1..] + q == q;
    }
  }

  /** One maximal run `sp` between `w` and `q` becomes exactly one `c`, and
      both sides are collapsed on their own. */
  lemma CollapseRunsSplit(w: string, sp: string, q: string, p: char -> bool, c: char)
    requires w == [] || !p(w[|w| - 1])
    requires sp != [] && forall i :: 0 <= i < |sp| ==> p(sp[i])
    requires q == [] || !p(q[0])
    ensures CollapseRuns(w + sp + q, p, c) == CollapseRuns(w, p, c) + [c] + CollapseRuns(q, p, c)
  {
    ConcatAssoc(w, sp, q);
    CollapseRunsAppend(w, sp + q, p, c);
    CollapseRunsLeadingRun(sp, q, p, c);
    ConcatAssoc(CollapseRuns(w, p, c), [c], CollapseRuns(q, p, c));
  }

  lemma ConcatAssoc(a: string, b: string, d: string)
    ensures a + (b + d) == a + b + d
  {
  }

  /** A run that stops inside `a` stops at the same place in `a + b`. */
  lemma {:induction false} RunLengthWithin(a: string, b: string, p: char -> bool)
    requires RunLength(a, p) < |a|
    ensures RunLength(a + b, p) == RunLength(a, p)
  {
    if p(a[0]) {
      assert (a + b)[1..] == a[1..] + b;
      RunLengthWithin(a[1..], b, p);
    }
  }

  /** A run that covers all of `a` and is not continued by `b` has length `|a|`. */
  lemma {:induction false} RunLengthCovers(a: string, b: string, p: char -> bool)
    requires forall i :: 0 <= i < |a| ==> p(a[i])
    requires b == [] || !p(b[0])
    ensures RunLength(a + b, p) == |a|
  {
    if a != [] {
      assert (a + b)[1..] == a[1..] + b;
      RunLengthCovers(a[1..], b, p);
    } else {
      assert a + b == b;
    }
  }
}
