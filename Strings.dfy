/**
 * The string operations the scripts use: ASCII digit runs (the `\d` of their
 * patterns), int() and str() on integers, str.replace with a one-character
 * pattern, str.partition, and str.split on a one-character separator.
 */
module Strings {
  import opened Base

  predicate IsDigit(c: char) { '0' <= c <= '9' }

  /** A non-empty run of ASCII digits: what `\d+` matches. */
  predicate IsDigits(s: string) {
    |s| > 0 && forall i :: 0 <= i < |s| ==> IsDigit(s[i])
  }

  function DigitValue(c: char): (d: nat)
    requires IsDigit(c)
    ensures d < 10
  {
    c as int - '0' as int
  }

  function DigitChar(d: nat): (c: char)
    requires d < 10
    ensures IsDigit(c) && DigitValue(c) == d
  {
    ('0' as int + d) as char
  }

  /** The number a string of decimal digits denotes, most significant first. */
  function DigitsValue(s: string): nat
    requires forall i :: 0 <= i < |s| ==> IsDigit(s[i])
    decreases |s|
  {
    if |s| == 0 then 0 else 10 * DigitsValue(s[..|s| - 1]) + DigitValue(s[|s| - 1])
  }

  /** Python's str() of a non-negative int: shortest decimal form. */
  function NatToString(n: nat): (s: string)
    ensures |s| > 0
    decreases n
  {
    if n < 10 then [DigitChar(n)] else NatToString(n / 10) + [DigitChar(n % 10)]
  }

  /** str() writes digits only, with no leading zero, and they denote n. */
  lemma {:induction false} NatToStringDigits(n: nat)
    ensures var s := NatToString(n);
      IsDigits(s) && DigitsValue(s) == n && (s[0] == '0' ==> s == "0")
    decreases n
  {
    if n >= 10 {
      NatToStringDigits(n / 10);
      var t := NatToString(n / 10);
      var s := NatToString(n);
      assert s[..|s| - 1] == t;
    }
  }

  /** Python's str() of an int. */
  function IntToString(i: int): string {
    if i < 0 then "-" + NatToString(-i) else NatToString(i)
  }

  /**
   * Python's int() on a configuration value, as configparser.getint calls
   * it: an optional sign followed by ASCII digits.
   */
  function ParseInt(s: string): (r: Option<int>)
    ensures r.Some? <==> IsDigits(s) || (|s| > 1 && (s[0] == '+' || s[0] == '-') && IsDigits(s[1..]))
    ensures r.Some? && IsDigits(s) ==> r.value == DigitsValue(s)
    ensures r.Some? && !IsDigits(s) && s[0] == '-' ==> r.value == 0 - DigitsValue(s[1..]) as int
    ensures r.Some? && !IsDigits(s) && s[0] != '-' ==> r.value == DigitsValue(s[1..])
  {
    if IsDigits(s) then Some(DigitsValue(s))
    else if |s| > 1 && s[0] == '-' && IsDigits(s[1..]) then Some(0 - DigitsValue(s[1..]))
    else if |s| > 1 && s[0] == '+' && IsDigits(s[1..]) then Some(DigitsValue(s[1..]))
    else None
  }

  /** Reading back what str() wrote gives the same integer. */
  lemma ParseIntOfIntToString(i: int)
    ensures ParseInt(IntToString(i)) == Some(i)
  {
    if i < 0 {
      var t := NatToString(-i);
      NatToStringDigits(-i);
      assert IntToString(i)[1..] == t;
    } else {
      NatToStringDigits(i);
    }
  }

  /** Python's s.replace(c, t) for a one-character pattern c. */
  function Replace(s: string, c: char, t: string): string
    decreases |s|
  {
    if |s| == 0 then []
    else (if s[0] == c then t else [s[0]]) + Replace(s[1..], c, t)
  }

  /** No c is left when the replacement holds none, and a string without c is left as it is. */
  lemma {:induction false} ReplaceFree(s: string, c: char, t: string)
    ensures c !in t ==> c !in Replace(s, c, t)
    ensures c !in s ==> Replace(s, c, t) == s
    decreases |s|
  {
    if |s| > 0 {
      ReplaceFree(s[1..], c, t);
      assert c !in s ==> s[0] != c && c !in s[1..];
    }
  }

  lemma {:induction false} ReplaceAppend(a: string, b: string, c: char, t: string)
    ensures Replace(a + b, c, t) == Replace(a, c, t) + Replace(b, c, t)
    decreases |a|
  {
    if |a| > 0 {
      assert (a + b)[1..] == a[1..] + b;
      ReplaceAppend(a[1..], b, c, t);
    } else {
      assert a + b == b;
    }
  }

  /**
   * Replacing c by a character d that s does not contain, and then d by c,
   * gives s back.
   */
  lemma {:induction false} ReplaceRoundTrip(s: string, c: char, d: char)
    requires d !in s
    ensures Replace(Replace(s, c, [d]), d, [c]) == s
    decreases |s|
  {
    if |s| > 0 {
      ReplaceRoundTrip(s[1..], c, d);
      var head := if s[0] == c then [d] else [s[0]];
      ReplaceAppend(head, Replace(s[1..], c, [d]), d, [c]);
      assert Replace(head, d, [c]) == [s[0]];
      assert s == [s[0]] + s[1..];
    }
  }

  /** `pat` occurs in s at position i. */
  predicate OccursAt(s: string, pat: string, i: int) {
    0 <= i && i + |pat| <= |s| && s[i..i + |pat|] == pat
  }

  /** The head of Python's s.partition(pat): the text before the first pat, or s. */
  function Before(s: string, pat: string): (r: string)
    requires |pat| > 0
    ensures r <= s
    ensures forall i :: 0 <= i < |r| ==> !OccursAt(s, pat, i)
    ensures r == s || OccursAt(s, pat, |r|)
    decreases |s|
  {
    if pat <= s then []
    else if |s| == 0 then []
    else
      var rest := Before(s[1..], pat);
      assert forall i :: 1 <= i <= |rest| ==> (OccursAt(s, pat, i) <==> OccursAt(s[1..], pat, i - 1));
      assert OccursAt(s[1..], pat, |rest|) ==> OccursAt(s, pat, |rest| + 1) by {
        if OccursAt(s[1..], pat, |rest|) {
          assert s[1..][|rest|..|rest| + |pat|] == s[|rest| + 1..|rest| + 1 + |pat|];
        }
      }
      [s[0]] + rest
  }

  /** Python's s.split(d) for a one-character separator d. */
  function Split(s: string, d: char): (r: seq<string>)
    ensures |r| > 0
    ensures forall i :: 0 <= i < |r| ==> d !in r[i]
    decreases |s|
  {
    if |s| == 0 then [[]]
    else
      var rest := Split(s[1..], d);
      if s[0] == d then [[]] + rest else [[s[0]] + rest[0]] + rest[1..]
  }

  /** Python's d.join(pieces). */
  function Join(pieces: seq<string>, d: char): string
    requires |pieces| > 0
    decreases |pieces|
  {
    if |pieces| == 1 then pieces[0] else pieces[0] + [d] + Join(pieces[1..], d)
  }

  /** Joining the pieces of a split with the separator gives the string back. */
  lemma {:induction false} JoinSplit(s: string, d: char)
    ensures Join(Split(s, d), d) == s
    decreases |s|
  {
    if |s| > 0 {
      var rest := Split(s[1..], d);
      JoinSplit(s[1..], d);
      if s[0] == d {
        assert Split(s, d)[1..] == rest;
      } else if |rest| == 1 {
        assert Join(Split(s, d), d) == [s[0]] + rest[0];
      } else {
        assert Split(s, d)[1..] == rest[1..];
        assert Join(rest, d) == rest[0] + [d] + Join(rest[1..], d);
      }
    }
  }

  lemma {:induction false} SplitPrefix(p: string, rest: string, d: char)
    requires d !in p
    ensures Split(p + rest, d) == [p + Split(rest, d)[0]] + Split(rest, d)[1..]
    decreases |p|
  {
    if |p| > 0 {
      assert (p + rest)[1..] == p[1..] + rest;
      SplitPrefix(p[1..], rest, d);
      assert [p[0]] + (p[1..] + Split(rest, d)[0]) == p + Split(rest, d)[0];
    } else {
      var r := Split(rest, d);
      assert p + rest == rest;
      assert p + r[0] == r[0];
      assert r == [r[0]] + r[1..];
    }
  }

  /** Splitting a join of separator-free pieces gives the pieces back. */
  lemma {:induction false} SplitJoin(pieces: seq<string>, d: char)
    requires |pieces| > 0
    requires forall i :: 0 <= i < |pieces| ==> d !in pieces[i]
    ensures Split(Join(pieces, d), d) == pieces
    decreases |pieces|
  {
    if |pieces| == 1 {
      SplitPrefix(pieces[0], [], d);
      assert pieces[0] + [] == pieces[0];
      assert Split([], d) == [[]];
      assert Join(pieces, d) == pieces[0];
      assert pieces == [pieces[0] + []];
    } else {
      var tail := Join(pieces[1..], d);
      SplitJoin(pieces[1..], d);
      assert pieces[0] + [d] + tail == pieces[0] + ([d] + tail);
      SplitPrefix(pieces[0], [d] + tail, d);
      assert ([d] + tail)[1..] == tail;
      assert Split([d] + tail, d) == [[]] + Split(tail, d);
      assert pieces[0] + [] == pieces[0];
      assert pieces == [pieces[0]] + pieces[1..];
    }
  }
}
