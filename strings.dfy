/** The string primitives the utilities rely on: Python's `str.split(sep)` with an
    explicit one-character separator, `sep.join(xs)` and `str(n)` for integers. */
module Strings {

  /** `sep.join(xs)`. */
  function Join(xs: seq<string>, sep: char): (joined: string)
    ensures |xs| >= 1 ==> xs[0] <= joined
    ensures |xs| >= 2 ==> sep in joined
    ensures |xs| == 0 ==> joined == ""
  {
    if |xs| == 0 then ""
    else if |xs| == 1 then xs[0]
    else xs[0] + [sep] + Join(xs[1..], sep)
  }

  /** `s.split(sep)`: every occurrence of `sep` cuts, so the result is never empty
      (`"".split(":") == [""]`), it has one more piece than `s` has separators, and
      joining the pieces back gives `s`. */
  function Split(s: string, sep: char): (pieces: seq<string>)
    ensures |pieces| >= 1
    ensures (|pieces| == 1) <==> (sep !in s)
    ensures forall i :: 0 <= i < |pieces| ==> sep !in pieces[i]
    ensures Join(pieces, sep) == s
    decreases |s|
  {
    if s == [] then [[]]
    else
      var rest := Split(s[1..], sep);
      if s[0] == sep then [[]] + rest
      else [[s[0]] + rest[0]] + rest[1..]
  }

  /** Splitting a string with no separator in it gives the string back as one piece. */
  lemma {:induction false} SplitNoSeparator(s: string, sep: char)
    requires sep !in s
    ensures Split(s, sep) == [s]
  {
  }

  /** A separator-free head is cut off as the first piece. */
  lemma {:induction false} SplitAfterHead(head: string, sep: char, tail: string)
    requires sep !in head
    ensures Split(head + [sep] + tail, sep) == [head] + Split(tail, sep)
    decreases |head|
  {
    if head == [] {
      assert head + [sep] + tail == [sep] + tail;
    } else {
      var s := head + [sep] + tail;
      assert s[1..] == head[1..] + [sep] + tail;
      SplitAfterHead(head[1..], sep, tail);
      var rest := Split(s[1..], sep);
      assert rest[0] == head[1..] && rest[1..] == Split(tail, sep);
      assert [s[0]] + rest[0] == head;
    }
  }

  /** Round trip: splitting a join recovers the pieces, provided none contains the separator. */
  lemma {:induction false} SplitJoin(xs: seq<string>, sep: char)
    requires |xs| >= 1
    requires forall i :: 0 <= i < |xs| ==> sep !in xs[i]
    ensures Split(Join(xs, sep), sep) == xs
    decreases |xs|
  {
    if |xs| == 1 {
      SplitNoSeparator(xs[0], sep);
    } else {
      SplitAfterHead(xs[0], sep, Join(xs[1..], sep));
      SplitJoin(xs[1..], sep);
      assert xs == [xs[0]] + xs[1..];
    }
  }

  predicate IsDigit(c: char)
  {
    '0' <= c <= '9'
  }

  function DigitChar(d: nat): char
    requires d < 10
  {
    "0123456789"[d]
  }

  /** `str(n)` for a non-negative integer: its decimal digits, no leading zero. */
  function NatToString(n: nat): (s: string)
    ensures |s| >= 1
    ensures forall i :: 0 <= i < |s| ==> IsDigit(s[i])
    ensures |s| > 1 ==> s[0] != '0'
    decreases n
  {
    if n < 10 then [DigitChar(n)] else NatToString(n / 10) + [DigitChar(n % 10)]
  }

  /** Reads a string of decimal digits as a number (the inverse of NatToString). */
  function DecimalValue(s: string): nat
    requires forall i :: 0 <= i < |s| ==> IsDigit(s[i])
  {
    if s == [] then 0
    else
      var last := s[|s| - 1];
      assert IsDigit(last);
      10 * DecimalValue(s[..|s| - 1]) + (last as int - '0' as int)
  }

  /** Round trip: the digits `str(n)` writes read back as `n`. */
  lemma {:induction false} DecimalValueOfNatToString(n: nat)
    ensures DecimalValue(NatToString(n)) == n
    decreases n
  {
    var s := NatToString(n);
    if n >= 10 {
      DecimalValueOfNatToString(n / 10);
      assert s[..|s| - 1] == NatToString(n / 10);
    }
  }

  /** Different numbers print differently. */
  lemma NatToStringInjective(m: nat, n: nat)
    requires NatToString(m) == NatToString(n)
    ensures m == n
  {
    DecimalValueOfNatToString(m);
    DecimalValueOfNatToString(n);
  }

  /** `str(n)` for any integer. */
  function IntToString(n: int): (s: string)
    ensures |s| >= 1
    ensures (s[0] == '-') <==> (n < 0)
  {
    if n < 0 then "-" + NatToString(-n) else NatToString(n)
  }

  /** Different integers print differently, so a subscore column reads back unambiguously. */
  lemma IntToStringInjective(m: int, n: int)
    requires IntToString(m) == IntToString(n)
    ensures m == n
  {
    var s := IntToString(m);
    if m < 0 {
      assert NatToString(-m) == s[1..] == NatToString(-n);
      NatToStringInjective(-m, -n);
    } else {
      NatToStringInjective(m, n);
    }
  }
}
