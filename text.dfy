/**
 * The two pieces of JavaScript string handling the workday codec relies on:
 * splitting a resource path on '/' and turning decimal text into an integer
 * (the unary `+` applied to a due date held as text), with its inverse, the
 * decimal rendering of an integer.
 */
module Text {
  import opened Wrappers

  /** Segments of `s` between occurrences of `c`, as `s.split(c)` gives them for a
      one-character separator: never empty, empty segments kept. */
  function Split(s: string, c: char): (r: seq<string>)
    ensures |r| == Occurrences(s, c) + 1
    ensures forall i :: 0 <= i < |r| ==> c !in r[i]
    decreases |s|
  {
    if s == [] then [""]
    else if s[0] == c then [""] + Split(s[1..], c)
    else
      var rest := Split(s[1..], c);
      [[s[0]] + rest[0]] + rest[1..]
  }

  /** Number of occurrences of `c` in `s`. */
  function Occurrences(s: string, c: char): nat
    decreases |s|
  {
    if s == [] then 0 else (if s[0] == c then 1 else 0) + Occurrences(s[1..], c)
  }

  /** The segments glued back together with `c` between them (`segs.join(c)`). */
  function Join(segs: seq<string>, c: char): string
    requires |segs| >= 1
    decreases |segs|
  {
    if |segs| == 1 then segs[0] else segs[0] + [c] + Join(segs[1..], c)
  }

  /** Joining the segments of a split gives back the original text. */
  lemma {:induction false} JoinSplit(s: string, c: char)
    ensures Join(Split(s, c), c) == s
    decreases |s|
  {
    if s == [] {
    } else if s[0] == c {
      JoinSplit(s[1..], c);
      var rest := Split(s[1..], c);
      assert Split(s, c) == [""] + rest;
      assert s == [c] + s[1..];
    } else {
      JoinSplit(s[1..], c);
      var rest := Split(s[1..], c);
      assert Split(s, c)[1..] == rest[1..];
      if |rest| == 1 {
        assert rest == [s[1..]];
      } else {
        assert rest[1..][1..] == rest[2..];
        assert Join(rest, c) == rest[0] + [c] + Join(rest[1..], c);
      }
      assert s == [s[0]] + s[1..];
    }
  }

  /** Text without the separator splits into itself alone. */
  lemma {:induction false} SplitWithoutSeparator(a: string, c: char)
    requires c !in a
    ensures Split(a, c) == [a]
    decreases |a|
  {
    if a != [] {
      SplitWithoutSeparator(a[1..], c);
      assert [a[0]] + a[1..] == a;
    }
  }

  /** A separator-free prefix followed by the separator becomes the first segment. */
  lemma {:induction false} SplitAfterSegment(a: string, c: char, b: string)
    requires c !in a
    ensures Split(a + [c] + b, c) == [a] + Split(b, c)
    decreases |a|
  {
    if a == [] {
      assert a + [c] + b == [c] + b;
      assert ([c] + b)[1..] == b;
    } else {
      assert (a + [c] + b)[1..] == a[1..] + [c] + b;
      SplitAfterSegment(a[1..], c, b);
      assert [a[0]] + a[1..] == a;
    }
  }

  /** Splitting a join of separator-free segments gives the segments back. */
  lemma {:induction false} SplitJoin(segs: seq<string>, c: char)
    requires |segs| >= 1
    requires forall i :: 0 <= i < |segs| ==> c !in segs[i]
    ensures Split(Join(segs, c), c) == segs
    decreases |segs|
  {
    if |segs| == 1 {
      SplitWithoutSeparator(segs[0], c);
    } else {
      SplitJoin(segs[1..], c);
      SplitAfterSegment(segs[0], c, Join(segs[1..], c));
      assert [segs[0]] + segs[1..] == segs;
    }
  }

  predicate IsDigit(ch: char) {
    '0' <= ch <= '9'
  }

  predicate AllDigits(s: string) {
    forall i :: 0 <= i < |s| ==> IsDigit(s[i])
  }

  function DigitChar(d: nat): (ch: char)
    requires d < 10
    ensures IsDigit(ch)
  {
    ('0' as int + d) as char
  }

  /** Value of a string of decimal digits, most significant first. */
  function DigitsValue(s: string): nat
    requires AllDigits(s)
    decreases |s|
  {
    if s == [] then 0
    else DigitsValue(s[..|s| - 1]) * 10 + (s[|s| - 1] as int - '0' as int)
  }

  /** Decimal rendering of a natural number, without leading zeros. */
  function NatText(n: nat): (r: string)
    ensures |r| >= 1 && AllDigits(r)
    ensures DigitsValue(r) == n
    decreases n
  {
    if n < 10 then [DigitChar(n)]
    else
      var r := NatText(n / 10) + [DigitChar(n % 10)];
      assert r[..|r| - 1] == NatText(n / 10);
      r
  }

  /** Decimal rendering of an integer: a minus sign for negative values. */
  function IntText(n: int): string {
    if n < 0 then "-" + NatText(-n) else NatText(n)
  }

  /** An integer literal: one or more decimal digits, after an optional sign. */
  predicate IsIntegerLiteral(s: string) {
    exists k :: 0 <= k <= 1 && k < |s| && (k == 1 ==> s[0] in {'-', '+'}) && AllDigits(s[k..])
  }

  /**
   * The number the unary `+` makes of `s`, for the decimal integer literals
   * it accepts: an optional sign followed by one or more digits. Every other
   * text gives None; among them is everything for which `+` yields NaN or a
   * number that is not an integer.
   */
  function ParseInt(s: string): (r: Option<int>)
    ensures r.Some? <==> IsIntegerLiteral(s)
    ensures r.Some? ==> (r.value < 0 ==> s[0] == '-') && (s[0] == '-' ==> r.value <= 0)
    ensures |s| >= 1 && AllDigits(s) ==> r == Some(DigitsValue(s) as int)
    ensures |s| >= 2 && s[0] == '+' && AllDigits(s[1..]) ==> r == Some(DigitsValue(s[1..]) as int)
    ensures |s| >= 2 && s[0] == '-' && AllDigits(s[1..]) ==> r == Some(0 - DigitsValue(s[1..]) as int)
  {
    if |s| >= 2 && s[0] == '-' && AllDigits(s[1..]) then Some(0 - DigitsValue(s[1..]) as int)
    else if |s| >= 2 && s[0] == '+' && AllDigits(s[1..]) then Some(DigitsValue(s[1..]))
    else if |s| >= 1 && AllDigits(s) then assert s[0..] == s; Some(DigitsValue(s))
    else None
  }

  /** Parsing the decimal rendering of any integer gives that integer back. */
  lemma ParseIntText(n: int)
    ensures ParseInt(IntText(n)) == Some(n)
  {
    if n < 0 {
      var t := NatText(-n);
      assert ("-" + t)[1..] == t;
    }
  }

  /** A leading zero does not change the value of a digit string. */
  lemma {:induction false} LeadingZeroDigits(s: string)
    requires AllDigits(s)
    ensures AllDigits("0" + s) && DigitsValue("0" + s) == DigitsValue(s)
    decreases |s|
  {
    var z := "0" + s;
    if s != [] {
      LeadingZeroDigits(s[..|s| - 1]);
      assert z[..|z| - 1] == "0" + s[..|s| - 1];
    }
  }

  /** Unary plus reads a digit string, with or without a sign, as its positional value. */
  lemma {:induction false} ParseIntDigits(digits: string)
    requires |digits| >= 1 && AllDigits(digits)
    ensures ParseInt(digits) == ParseInt("+" + digits) == Some(DigitsValue(digits) as int)
    ensures ParseInt("-" + digits) == Some(0 - DigitsValue(digits) as int)
  {
    assert ParseInt("+" + digits) == Some(DigitsValue(digits) as int) by {
      var plus := "+" + digits;
      assert plus[0] == '+' && plus[1..] == digits;
    }
    assert ParseInt("-" + digits) == Some(0 - DigitsValue(digits) as int) by {
      var minus := "-" + digits;
      assert minus[0] == '-' && minus[1..] == digits;
    }
  }

  /** Leading zeros do not change what unary plus reads. */
  lemma {:induction false} ParseIntLeadingZero(digits: string)
    requires |digits| >= 1 && AllDigits(digits)
    ensures ParseInt("0" + digits) == ParseInt(digits)
  {
    LeadingZeroDigits(digits);
    var zero := "0" + digits;
    assert |zero| >= 1 && AllDigits(zero);
  }
}
