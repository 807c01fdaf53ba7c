/** The JavaScript string built-ins the client relies on: `split`, `join`,
    `trim`, `includes` and the decimal rendering of numbers in template
    literals. `StartsWith` is used only to state properties. */
module Text {

  // ---------------------------------------------------------------------
  // Containment
  // ---------------------------------------------------------------------

  /** `sub` occurs in `s` starting at position `k`. */
  predicate InfixAt(sub: string, s: string, k: int) {
    0 <= k <= |s| - |sub| && s[k..k + |sub|] == sub
  }

  /** `s.includes(sub)`: `sub` occurs in `s` at some position. */
  predicate IsInfix(sub: string, s: string) {
    exists k :: 0 <= k <= |s| && InfixAt(sub, s, k)
  }

  /** `p` is a prefix of `s`; used only to state properties. */
  predicate StartsWith(s: string, p: string) {
    |p| <= |s| && s[..|p|] == p
  }

  lemma InfixMiddle(a: string, m: string, b: string)
    ensures IsInfix(m, a + m + b)
  {
    assert (a + m + b)[|a|..|a| + |m|] == m;
    assert InfixAt(m, a + m + b, |a|);
  }

  /** A string holding a character that `s` lacks never occurs in `s`. */
  lemma NotInfixWhenCharMissing(sub: string, s: string, c: char)
    requires c in sub && c !in s
    ensures !IsInfix(sub, s)
  {
    var i :| 0 <= i < |sub| && sub[i] == c;
    forall k | 0 <= k <= |s| - |sub|
      ensures !InfixAt(sub, s, k)
    {
      assert s[k..k + |sub|][i] == s[k + i];
    }
  }

  // ---------------------------------------------------------------------
  // split / join
  // ---------------------------------------------------------------------

  /** `s.split(sep)` for a one-character separator: the maximal
      separator-free segments, in order; there is always at least one. */
  function Split(s: string, sep: char): (parts: seq<string>)
    ensures |parts| >= 1
    ensures forall i :: 0 <= i < |parts| ==> sep !in parts[i]
  {
    if |s| == 0 then [""]
    else
      var rest := Split(s[1..], sep);
      if s[0] == sep then [""] + rest
      else [[s[0]] + rest[0]] + rest[1..]
  }

  /** `xs.join(sep)`. */
  function Join(xs: seq<string>, sep: string): string {
    if |xs| == 0 then ""
    else if |xs| == 1 then xs[0]
    else xs[0] + sep + Join(xs[1..], sep)
  }

  /** The text before the first `sep`, or all of `s` when it has none. */
  function TakeUntil(s: string, sep: char): (r: string)
    ensures sep !in r
    ensures StartsWith(s, r)
    ensures |r| < |s| ==> s[|r|] == sep
  {
    if |s| == 0 || s[0] == sep then "" else [s[0]] + TakeUntil(s[1..], sep)
  }

  /** Joining the segments with the separator gives back the string. */
  lemma {:induction false} JoinSplit(s: string, sep: char)
    ensures Join(Split(s, sep), [sep]) == s
  {
    if |s| > 0 {
      var rest := Split(s[1..], sep);
      JoinSplit(s[1..], sep);
      if s[0] == sep {
        assert ([""] + rest)[1..] == rest;
        assert Join([""] + rest, [sep]) == [sep] + Join(rest, [sep]);
        assert s == [s[0]] + s[1..];
      } else {
        var head := [s[0]] + rest[0];
        var parts := [head] + rest[1..];
        assert parts[1..] == rest[1..];
        if |rest| == 1 {
          assert Join(parts, [sep]) == head;
        } else {
          assert Join(parts, [sep]) == head + [sep] + Join(rest[1..], [sep]);
          assert Join(rest, [sep]) == rest[0] + [sep] + Join(rest[1..], [sep]);
        }
        assert s == [s[0]] + s[1..];
      }
    }
  }

  /** A string without the separator is a single segment. */
  lemma {:induction false} SplitWithoutSeparator(s: string, sep: char)
    requires sep !in s
    ensures Split(s, sep) == [s]
  {
    if |s| > 0 {
      SplitWithoutSeparator(s[1..], sep);
      assert [s[0]] + s[1..] == s;
    }
  }

  /** The first segment of `s.split(sep)` is the text before the first
      separator. */
  lemma {:induction false} SplitHead(s: string, sep: char)
    ensures Split(s, sep)[0] == TakeUntil(s, sep)
  {
    if |s| > 0 && s[0] != sep {
      SplitHead(s[1..], sep);
    }
  }

  /** Splitting at the first separator: the segments are the text before it
      followed by the segments of the text after it. */
  lemma {:induction false} SplitAtFirst(a: string, sep: char, b: string)
    requires sep !in a
    ensures Split(a + [sep] + b, sep) == [a] + Split(b, sep)
  {
    if |a| == 0 {
      assert a + [sep] + b == [sep] + b;
      assert ([sep] + b)[1..] == b;
    } else {
      var s := a + [sep] + b;
      assert s[0] == a[0] && s[1..] == a[1..] + [sep] + b;
      SplitAtFirst(a[1..], sep, b);
      assert [a[0]] + a[1..] == a;
    }
  }

  /** Every element of a list occurs in the joined text. */
  lemma {:induction false} JoinContainsEach(xs: seq<string>, sep: string, i: nat)
    requires i < |xs|
    ensures IsInfix(xs[i], Join(xs, sep))
  {
    if |xs| == 1 {
      InfixMiddle("", xs[0], "");
      assert "" + xs[0] + "" == xs[0];
    } else if i == 0 {
      InfixMiddle("", xs[0], sep + Join(xs[1..], sep));
      assert "" + xs[0] + (sep + Join(xs[1..], sep)) == Join(xs, sep);
    } else {
      JoinContainsEach(xs[1..], sep, i - 1);
      var tail := Join(xs[1..], sep);
      var k :| 0 <= k <= |tail| && InfixAt(xs[i], tail, k);
      var pre := xs[0] + sep;
      assert Join(xs, sep) == pre + tail;
      assert (pre + tail)[|pre| + k..|pre| + k + |xs[i]|] == tail[k..k + |xs[i]|];
      assert InfixAt(xs[i], Join(xs, sep), |pre| + k);
    }
  }

  /** Six pieces concatenate to their sum. */
  lemma Concat6(a: string, b: string, c: string, d: string, e: string, f: string)
    ensures Concat([a, b, c, d, e, f]) == a + b + c + d + e + f
  {
    assert [a, b, c, d, e, f][1..] == [b, c, d, e, f];
    assert [b, c, d, e, f][1..] == [c, d, e, f];
    assert [c, d, e, f][1..] == [d, e, f];
    assert [d, e, f][1..] == [e, f];
    assert [e, f][1..] == [f];
    assert Concat([f]) == f;
    assert Concat([e, f]) == e + f;
    assert Concat([d, e, f]) == d + (e + f);
    assert Concat([c, d, e, f]) == c + (d + (e + f));
    assert Concat([b, c, d, e, f]) == b + (c + (d + (e + f)));
  }

  /** Six-piece concatenations that agree everywhere except in the middle
      of the fourth piece agree there too. */
  lemma SixPiecesSameMiddle(p0: string, p1: string, p2: string, x: string, m1: string, m2: string,
                            y: string, p4: string, p5: string)
    requires Concat([p0, p1, p2, x + m1 + y, p4, p5]) == Concat([p0, p1, p2, x + m2 + y, p4, p5])
    ensures m1 == m2
  {
    Concat6(p0, p1, p2, x + m1 + y, p4, p5);
    Concat6(p0, p1, p2, x + m2 + y, p4, p5);
    assert p0 + p1 + p2 + (x + m1 + y) + p4 + p5 == (p0 + p1 + p2 + x) + m1 + (y + p4 + p5);
    assert p0 + p1 + p2 + (x + m2 + y) + p4 + p5 == (p0 + p1 + p2 + x) + m2 + (y + p4 + p5);
    SameFrameSameMiddle(p0 + p1 + p2 + x, m1, m2, y + p4 + p5);
  }

  /** Two strings with the same text before and after a middle part have
      the same middle part. */
  lemma SameFrameSameMiddle(before: string, m1: string, m2: string, after: string)
    requires before + m1 + after == before + m2 + after
    ensures m1 == m2
  {
    var s := before + m1 + after;
    assert |m1| == |m2|;
    assert m1 == s[|before|..|before| + |m1|];
    assert m2 == (before + m2 + after)[|before|..|before| + |m2|];
  }

  /** The pieces, one after another (a template literal). */
  function Concat(pieces: seq<string>): string {
    if |pieces| == 0 then "" else pieces[0] + Concat(pieces[1..])
  }

  lemma ConcatStartsWithFirst(pieces: seq<string>)
    requires |pieces| > 0
    ensures StartsWith(Concat(pieces), pieces[0])
  {
    assert Concat(pieces)[..|pieces[0]|] == pieces[0];
  }

  /** Every piece occurs in the concatenation. */
  lemma {:induction false} ConcatContainsEach(pieces: seq<string>, i: nat)
    requires i < |pieces|
    ensures IsInfix(pieces[i], Concat(pieces))
  {
    var rest := Concat(pieces[1..]);
    if i == 0 {
      InfixMiddle("", pieces[0], rest);
      assert "" + pieces[0] + rest == Concat(pieces);
    } else {
      ConcatContainsEach(pieces[1..], i - 1);
      var k :| 0 <= k <= |rest| && InfixAt(pieces[i], rest, k);
      var n := |pieces[0]|;
      assert (pieces[0] + rest)[n + k..n + k + |pieces[i]|] == rest[k..k + |pieces[i]|];
      assert InfixAt(pieces[i], Concat(pieces), n + k);
    }
  }

  // ---------------------------------------------------------------------
  // trim
  // ---------------------------------------------------------------------

  /** The characters `String.prototype.trim` removes: the ECMAScript
      WhiteSpace and LineTerminator code points. */
  predicate IsJsWhitespace(c: char) {
    c == '\t' || c == '\n' || c == '\U{000B}' || c == '\U{000C}' || c == '\r' ||
    c == ' ' || c == '\U{00A0}' || c == '\U{1680}' ||
    ('\U{2000}' <= c <= '\U{200A}') ||
    c == '\U{2028}' || c == '\U{2029}' || c == '\U{202F}' || c == '\U{205F}' ||
    c == '\U{3000}' || c == '\U{FEFF}'
  }

  /** `s` with its leading white space removed. */
  function TrimStart(s: string): (r: string)
    ensures |r| <= |s| && r == s[|s| - |r|..]
    ensures forall i :: 0 <= i < |s| - |r| ==> IsJsWhitespace(s[i])
    ensures r == [] || !IsJsWhitespace(r[0])
  {
    if |s| > 0 && IsJsWhitespace(s[0]) then TrimStart(s[1..]) else s
  }

  /** `s` with its trailing white space removed. */
  function TrimEnd(s: string): (r: string)
    ensures |r| <= |s| && r == s[..|r|]
    ensures forall i :: |r| <= i < |s| ==> IsJsWhitespace(s[i])
    ensures r == [] || !IsJsWhitespace(r[|r| - 1])
  {
    if |s| > 0 && IsJsWhitespace(s[|s| - 1]) then TrimEnd(s[..|s| - 1]) else s
  }

  /** `s.trim()`. */
  function Trim(s: string): string {
    TrimEnd(TrimStart(s))
  }

  /** Trimming leaves nothing exactly when the string is all white space. */
  lemma TrimEmptyIffBlank(s: string)
    ensures Trim(s) == "" <==> forall i :: 0 <= i < |s| ==> IsJsWhitespace(s[i])
  {
    var t := TrimStart(s);
    assert |t| > 0 ==> t[0] == s[|s| - |t|];
    if !forall i :: 0 <= i < |s| ==> IsJsWhitespace(s[i]) {
      var i :| 0 <= i < |s| && !IsJsWhitespace(s[i]);
      var j := i - (|s| - |t|);
      assert 0 <= j < |t| && t[j] == s[i];
      assert j < |TrimEnd(t)|;
    }
  }

  // ---------------------------------------------------------------------
  // Numbers in template literals
  // ---------------------------------------------------------------------

  predicate IsDigit(c: char) {
    '0' <= c <= '9'
  }

  predicate AllDigits(s: string) {
    forall i :: 0 <= i < |s| ==> IsDigit(s[i])
  }

  function DigitChar(d: nat): (c: char)
    requires d < 10
    ensures IsDigit(c)
  {
    (('0' as int) + d) as char
  }

  /** The decimal rendering of a natural number, as `${n}` prints it. */
  function NatToString(n: nat): (s: string)
    ensures |s| >= 1 && AllDigits(s)
    ensures n >= 10 ==> s[0] != '0'
  {
    if n < 10 then [DigitChar(n)] else NatToString(n / 10) + [DigitChar(n % 10)]
  }

  /** Reads a string of decimal digits back as a number. */
  function DigitsValue(s: string): nat
    requires AllDigits(s)
  {
    if |s| == 0 then 0
    else DigitsValue(s[..|s| - 1]) * 10 + ((s[|s| - 1] as int) - ('0' as int))
  }

  /** Reading the decimal rendering back gives the number. */
  lemma {:induction false} DigitsValueOfNatToString(n: nat)
    ensures DigitsValue(NatToString(n)) == n
  {
    if n >= 10 {
      var s := NatToString(n);
      DigitsValueOfNatToString(n / 10);
      assert s[..|s| - 1] == NatToString(n / 10);
    }
  }

  /** Different numbers print differently. */
  lemma NatToStringInjective(m: nat, n: nat)
    requires NatToString(m) == NatToString(n)
    ensures m == n
  {
    DigitsValueOfNatToString(m);
    DigitsValueOfNatToString(n);
  }

  /** `${n}` for an integer: a minus sign before the magnitude when negative. */
  function IntToString(n: int): (s: string)
    ensures |s| >= 1
    ensures (s[0] == '-') <==> n < 0
  {
    if n < 0 then "-" + NatToString(-n) else NatToString(n)
  }

  /** Different integers print differently. */
  lemma IntToStringInjective(m: int, n: int)
    requires IntToString(m) == IntToString(n)
    ensures m == n
  {
    if m < 0 {
      assert ("-" + NatToString(-m))[1..] == NatToString(-m);
      assert ("-" + NatToString(-n))[1..] == NatToString(-n);
      NatToStringInjective(-m, -n);
    } else {
      NatToStringInjective(m, n);
    }
  }
}
