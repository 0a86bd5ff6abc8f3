/** Text utilities the model needs: Python's decimal rendering of
    integers, counting the occurrences of a substring, and splitting a
    string at a separator character. */
module Text {

  // ---------------------------------------------------------------------
  // Decimal rendering, as Python's str() and f-strings do for an int
  // ---------------------------------------------------------------------

  predicate IsDigit(c: char) {
    '0' <= c <= '9'
  }

  predicate AllDigits(s: string) {
    forall i :: 0 <= i < |s| ==> IsDigit(s[i])
  }

  /** The character of the decimal digit `d`. */
  function Digit(d: nat): (c: char)
    requires d < 10
    ensures IsDigit(c) && (c as int) - ('0' as int) == d
  {
    (('0' as int) + d) as char
  }

  /** The number a string of decimal digits denotes (the inverse of
      NatToString, below). */
  function DigitsValue(s: string): nat
    requires AllDigits(s)
  {
    if s == [] then 0
    else 10 * DigitsValue(s[..|s| - 1]) + ((s[|s| - 1] as int) - ('0' as int))
  }

  /** The shortest decimal rendering of `n`: digits only, no leading zero,
      and it reads back as `n`. */
  function NatToString(n: nat): (s: string)
    ensures |s| > 0 && AllDigits(s)
    ensures s[0] == '0' ==> n == 0
    ensures DigitsValue(s) == n
    decreases n
  {
    if n < 10 then [Digit(n)]
    else
      var prefix := NatToString(n / 10);
      var s := prefix + [Digit(n % 10)];
      assert s[..|s| - 1] == prefix;
      s
  }

  /** Python's str() of an int: a minus sign before the magnitude of a
      negative number. */
  function IntToString(i: int): (s: string)
    ensures i >= 0 ==> s == NatToString(i)
    ensures i < 0 ==> |s| >= 2 && s[0] == '-' && s[1..] == NatToString(-i)
  {
    if i < 0 then "-" + NatToString(-i) else NatToString(i)
  }

  // ---------------------------------------------------------------------
  // Occurrences of a substring
  // ---------------------------------------------------------------------

  /** The number of positions at which `p` occurs in `s` (overlapping
      occurrences count separately). */
  function Occurrences(s: string, p: string): nat
    requires |p| > 0
    decreases |s|
  {
    if |s| < |p| then 0
    else (if s[..|p|] == p then 1 else 0) + Occurrences(s[1..], p)
  }

  lemma {:induction false} OccurrencesShort(s: string, p: string)
    requires |p| > 0 && |s| < |p|
    ensures Occurrences(s, p) == 0
  {
  }

  /** A string lacking one of the pattern's characters has no occurrence. */
  lemma {:induction false} OccurrencesWithoutChar(s: string, p: string, c: char)
    requires |p| > 0 && c in p && c !in s
    ensures Occurrences(s, p) == 0
    decreases |s|
  {
    if |s| >= |p| {
      var i :| 0 <= i < |p| && p[i] == c;
      assert s[..|p|][i] != c;
      OccurrencesWithoutChar(s[1..], p, c);
    }
  }

  /** A character foreign to the pattern separates: no occurrence can span
      it, so the occurrences on either side simply add up. */
  lemma {:induction false} OccurrencesAcross(a: string, c: char, b: string, p: string)
    requires |p| > 0 && c !in p
    ensures Occurrences(a + [c] + b, p) == Occurrences(a, p) + Occurrences(b, p)
    decreases |a|
  {
    var s := a + [c] + b;
    if |s| < |p| {
      OccurrencesShort(b, p);
    } else if a == [] {
      assert s[..|p|][0] == c && p[0] != c;
      assert s[1..] == b;
    } else {
      assert s[1..] == a[1..] + [c] + b;
      OccurrencesAcross(a[1..], c, b, p);
      if |a| >= |p| {
        assert s[..|p|] == a[..|p|];
      } else {
        assert s[..|p|][|a|] == c && p[|a|] != c;
        OccurrencesShort(a, p);
        OccurrencesShort(a[1..], p);
      }
    }
  }

  // ---------------------------------------------------------------------
  // Splitting at a separator character
  // ---------------------------------------------------------------------

  /** The pieces of `s` between the occurrences of `c`, as Python's
      str.split(c) gives them (one more piece than there are separators). */
  function Split(s: string, c: char): (parts: seq<string>)
    ensures |parts| > 0
    ensures forall i :: 0 <= i < |parts| ==> c !in parts[i]
    decreases |s|
  {
    if s == [] then [""]
    else if s[0] == c then [""] + Split(s[1..], c)
    else
      var rest := Split(s[1..], c);
      [[s[0]] + rest[0]] + rest[1..]
  }

  /** A string without the separator is a single piece. */
  lemma {:induction false} SplitWithout(w: string, c: char)
    requires c !in w
    ensures Split(w, c) == [w]
    decreases |w|
  {
    if w != [] {
      SplitWithout(w[1..], c);
      assert [w[0]] + w[1..] == w;
    }
  }

  /** A separator after a separator-free prefix ends the first piece. */
  lemma {:induction false} SplitAfter(w: string, c: char, t: string)
    requires c !in w
    ensures Split(w + [c] + t, c) == [w] + Split(t, c)
    decreases |w|
  {
    var s := w + [c] + t;
    if w == [] {
      assert s[1..] == t;
    } else {
      assert s[0] == w[0] && s[1..] == w[1..] + [c] + t;
      SplitAfter(w[1..], c, t);
      assert [w[0]] + w[1..] == w;
    }
  }
}
