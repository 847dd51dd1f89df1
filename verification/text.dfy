/** Strings as `seq<char>` with the handful of Python `str` operations the
    pipeline relies on: ASCII character classes, `lower`, `strip`,
    `split('\n')`, `'\n'.join`, `startswith`, `in`, `count`, integer
    formatting and parsing. Unicode-aware behaviour of Python is not modelled:
    every class below is its ASCII part. */
module Text {

  // ---------------------------------------------------------------------------
  // Character classes
  // ---------------------------------------------------------------------------

  /** Python's ASCII whitespace: `\t \n \v \f \r`, the separators 0x1C-0x1F and space. */
  predicate IsSpace(c: char) {
    9 <= c as int <= 13 || 28 <= c as int <= 32
  }

  predicate IsUpper(c: char) { 'A' <= c <= 'Z' }

  predicate IsLowerLetter(c: char) { 'a' <= c <= 'z' }

  predicate IsLetter(c: char) { IsUpper(c) || IsLowerLetter(c) }

  predicate IsDigit(c: char) { '0' <= c <= '9' }

  /** The regex class `\w` restricted to ASCII. */
  predicate IsWordChar(c: char) { IsLetter(c) || IsDigit(c) || c == '_' }

  predicate AllDigits(s: string) {
    forall i :: 0 <= i < |s| ==> IsDigit(s[i])
  }

  function LowerChar(c: char): (d: char)
    ensures !IsUpper(d)
    ensures !IsUpper(c) ==> d == c
    ensures IsWordChar(d) <==> IsWordChar(c)
    ensures IsSpace(d) <==> IsSpace(c)
  {
    if IsUpper(c) then (c as int + 32) as char else c
  }

  /** Python `str.lower()` on ASCII letters. */
  function Lower(s: string): (r: string)
    ensures |r| == |s|
    ensures forall i :: 0 <= i < |s| ==> r[i] == LowerChar(s[i])
  {
    seq(|s|, i requires 0 <= i < |s| => LowerChar(s[i]))
  }

  lemma LowerAppend(a: string, b: string)
    ensures Lower(a + b) == Lower(a) + Lower(b)
  {
  }

  function UpperChar(c: char): (d: char)
    ensures !IsLowerLetter(d)
    ensures !IsLowerLetter(c) ==> d == c
    ensures IsLetter(d) <==> IsLetter(c)
    ensures IsLowerLetter(c) ==> LowerChar(d) == c
  {
    if IsLowerLetter(c) then (c as int - 32) as char else c
  }

  /** Python `str.title()` over `s`, where `prevLetter` says whether the
      character before `s` was a letter: a letter after a letter is lowered,
      any other letter is raised, and other characters are kept. */
  function TitleFrom(s: string, prevLetter: bool): (r: string)
    ensures |r| == |s|
    decreases |s|
  {
    if |s| == 0 then []
    else
      var c := if !IsLetter(s[0]) then s[0] else if prevLetter then LowerChar(s[0]) else UpperChar(s[0]);
      [c] + TitleFrom(s[1..], IsLetter(s[0]))
  }

  /** The character `str.title()` puts at position `i`, read off the input
      directly: only the character itself and the one before it matter. */
  function TitleChar(s: string, i: nat): char
    requires i < |s|
  {
    if !IsLetter(s[i]) then s[i]
    else if i > 0 && IsLetter(s[i - 1]) then LowerChar(s[i])
    else UpperChar(s[i])
  }

  lemma {:induction false} TitleFromChars(s: string, prevLetter: bool)
    ensures forall i :: 0 < i < |s| ==> TitleFrom(s, prevLetter)[i] == TitleChar(s, i)
    ensures |s| > 0 && (!prevLetter || !IsLetter(s[0])) ==> TitleFrom(s, prevLetter)[0] == TitleChar(s, 0)
    decreases |s|
  {
    if |s| > 0 {
      TitleFromChars(s[1..], IsLetter(s[0]));
      forall i | 0 < i < |s| ensures TitleFrom(s, prevLetter)[i] == TitleChar(s, i) {
        assert TitleFrom(s, prevLetter)[i] == TitleFrom(s[1..], IsLetter(s[0]))[i - 1];
        if i > 1 {
          assert TitleChar(s[1..], i - 1) == TitleChar(s, i);
        }
      }
    }
  }

  /** Python `str.title()` on ASCII text. */
  function TitleCase(s: string): (r: string)
    ensures |r| == |s|
    ensures forall i :: 0 <= i < |s| ==> r[i] == TitleChar(s, i)
  {
    TitleFromChars(s, false);
    TitleFrom(s, false)
  }

  /** Python `s.replace(a, b)` for single characters. */
  function ReplaceChar(s: string, a: char, b: char): (r: string)
    ensures |r| == |s|
    ensures forall i :: 0 <= i < |s| ==> r[i] == (if s[i] == a then b else s[i])
  {
    seq(|s|, i requires 0 <= i < |s| => if s[i] == a then b else s[i])
  }

  // ---------------------------------------------------------------------------
  // Prefixes, suffixes, substrings
  // ---------------------------------------------------------------------------

  predicate StartsWith(s: string, p: string) {
    |p| <= |s| && s[..|p|] == p
  }

  predicate EndsWith(s: string, p: string) {
    |p| <= |s| && s[|s| - |p|..] == p
  }

  /** `p in s` for strings: some suffix of `s` starts with `p`. */
  predicate Contains(s: string, p: string)
    decreases |s|
  {
    StartsWith(s, p) || (|s| > 0 && Contains(s[1..], p))
  }

  /** A string that lacks one character of `p` cannot contain `p`. */
  lemma {:induction false} NotContainsByChar(s: string, p: string, c: char)
    requires c in p
    requires c !in s
    ensures !Contains(s, p)
    decreases |s|
  {
    if |s| > 0 {
      NotContainsByChar(s[1..], p, c);
    }
  }

  /** What contains `c` followed by `p` contains `p`. */
  lemma {:induction false} ContainsTail(s: string, c: char, p: string)
    requires Contains(s, [c] + p)
    ensures Contains(s, p)
    decreases |s|
  {
    if StartsWith(s, [c] + p) {
      assert s[1..][..|p|] == p;
    } else {
      ContainsTail(s[1..], c, p);
    }
  }

  /** Text put in front keeps an occurrence. */
  lemma {:induction false} ContainsAfter(x: string, y: string, p: string)
    requires Contains(y, p)
    ensures Contains(x + y, p)
    decreases |x|
  {
    if |x| > 0 {
      ContainsAfter(x[1..], y, p);
      assert (x + y)[1..] == x[1..] + y;
    } else {
      assert x + y == y;
    }
  }

  /** Text put behind keeps an occurrence. */
  lemma {:induction false} ContainsBefore(y: string, z: string, p: string)
    requires Contains(y, p)
    ensures Contains(y + z, p)
    decreases |y|
  {
    if StartsWith(y, p) {
      assert (y + z)[..|p|] == y[..|p|];
    } else {
      ContainsBefore(y[1..], z, p);
      assert (y + z)[1..] == y[1..] + z;
    }
  }

  /** Every slice of a string occurs in it. */
  lemma ContainsSlice(s: string, i: nat, j: nat)
    requires i <= j <= |s|
    ensures Contains(s, s[i..j])
  {
    assert StartsWith(s[i..], s[i..j]);
    ContainsAfter(s[..i], s[i..], s[i..j]);
    assert s[..i] + s[i..] == s;
  }

  /** The number of non-overlapping occurrences of `p`, scanning left to right
      as `len(re.findall(p, s))` does for a literal pattern. */
  function CountOcc(s: string, p: string): (n: nat)
    requires |p| > 0
    ensures n <= |s|
    ensures n > 0 ==> Contains(s, p)
    decreases |s|
  {
    if |s| == 0 then 0
    else if StartsWith(s, p) then 1 + CountOcc(s[|p|..], p)
    else CountOcc(s[1..], p)
  }

  /** A prefix in which `p` cannot start is skipped character by character. */
  lemma {:induction false} CountOccSkip(x: string, y: string, p: string)
    requires |p| > 0
    requires p[0] !in x
    ensures CountOcc(x + y, p) == CountOcc(y, p)
    decreases |x|
  {
    if |x| == 0 {
      assert x + y == y;
    } else {
      assert !StartsWith(x + y, p) by {
        assert (x + y)[0] == x[0];
      }
      assert (x + y)[1..] == x[1..] + y;
      assert CountOcc(x + y, p) == CountOcc((x + y)[1..], p);
      CountOccSkip(x[1..], y, p);
    }
  }

  /** The occurrence at the front is counted and skipped as a whole. */
  lemma CountOccFront(p: string, y: string)
    requires |p| > 0
    ensures CountOcc(p + y, p) == 1 + CountOcc(y, p)
  {
    assert StartsWith(p + y, p);
    assert (p + y)[|p|..] == y;
  }

  /** A pattern whose first character is absent occurs zero times. */
  lemma CountOccAbsent(s: string, p: string)
    requires |p| > 0
    requires p[0] !in s
    ensures CountOcc(s, p) == 0
  {
    CountOccSkip(s, "", p);
    assert s + "" == s;
  }

  /** `p` can begin inside the command `c` only at its first character, and
      `c` alone decides whether it does: either `c` starts with `p`, or some
      character of `c` differs from `p`. */
  predicate Command(c: string, p: string)
    requires |p| > 0
  {
    if StartsWith(c, p) then p[0] !in c[|p|..]
    else |c| > 0 && p[0] !in c[1..] && exists k :: 0 <= k < |c| && k < |p| && c[k] != p[k]
  }

  /** A command that starts with `p` contributes one occurrence. */
  lemma CountOccCommandFront(c: string, body: string, y: string, p: string)
    requires |p| > 0 && StartsWith(c, p) && p[0] !in c[|p|..] && p[0] !in body
    ensures CountOcc(c + body + y, p) == 1 + CountOcc(y, p)
  {
    var t := c + body;
    assert t[..|p|] == c[..|p|];
    assert StartsWith(t + y, p) by { assert (t + y)[..|p|] == t[..|p|]; }
    assert (t + y)[|p|..] == t[|p|..] + y;
    assert t[|p|..] == c[|p|..] + body;
    CountOccSkip(t[|p|..], y, p);
  }

  /** A command that differs from `p` contributes none. */
  lemma CountOccCommandMiss(c: string, body: string, y: string, p: string, k: nat)
    requires |p| > 0 && |c| > 0 && p[0] !in c[1..] && p[0] !in body
    requires k < |c| && k < |p| && c[k] != p[k]
    ensures CountOcc(c + body + y, p) == CountOcc(y, p)
  {
    var t := c + body;
    assert (t + y)[k] == c[k];
    assert !StartsWith(t + y, p);
    assert (t + y)[1..] == t[1..] + y;
    assert t[1..] == c[1..] + body;
    CountOccSkip(t[1..], y, p);
  }

  /** The occurrences of `p` in a command followed by text free of `p[0]`
      are the one at the front, if any, and those after it. */
  lemma CountOccCommand(c: string, body: string, y: string, p: string)
    requires |p| > 0 && Command(c, p) && p[0] !in body
    ensures CountOcc(c + body + y, p) == (if StartsWith(c, p) then 1 else 0) + CountOcc(y, p)
  {
    if StartsWith(c, p) {
      CountOccCommandFront(c, body, y, p);
    } else {
      var k :| 0 <= k < |c| && k < |p| && c[k] != p[k];
      CountOccCommandMiss(c, body, y, p, k);
    }
  }

  /** A prefix and a body free of `p[0]` around a command contribute the
      occurrence the command starts with, if any. */
  lemma CountOccCons(pre: string, c: string, body: string, rest: string, p: string)
    requires |p| > 0 && p[0] !in pre && p[0] !in body && Command(c, p)
    ensures CountOcc(pre + c + body + rest, p) == (if StartsWith(c, p) then 1 else 0) + CountOcc(rest, p)
  {
    CountOccSkip(pre, c + body + rest, p);
    CountOccCommand(c, body, rest, p);
    assert pre + c + body + rest == pre + (c + body + rest);
  }

  // ---------------------------------------------------------------------------
  // Regrouping concatenations (kept apart so that the counting proofs see
  // only congruences)
  // ---------------------------------------------------------------------------

  lemma EmptyLeft(x: string)
    ensures "" + x == x
  {
  }

  lemma EmptyRight(x: string)
    ensures x + "" == x
  {
  }

  lemma Regroup4(x: string, a: string, b: string, c: string, d: string)
    ensures x + (a + b + c + d) == x + a + b + c + d
  {
  }

  lemma Regroup5(x: string, a: string, b: string, c: string, d: string, e: string)
    ensures x + (a + b + c + d + e) == x + a + b + c + d + e
  {
  }

  lemma Regroup6(x: string, a: string, b: string, c: string, d: string, e: string, f: string)
    ensures x + (a + b + c + d + e + f) == x + a + b + c + d + e + f
  {
  }

  lemma Regroup2(x: string, a: string, b: string)
    ensures x + (a + b) == x + a + b
  {
  }

  lemma Regroup3(x: string, a: string, b: string, c: string)
    ensures x + (a + b + c) == x + a + b + c
  {
  }

  /** Number of occurrences of one character (`str.count(c)`). */
  function Count(s: string, c: char): (n: nat)
    ensures n <= |s|
    ensures n == 0 <==> c !in s
  {
    if |s| == 0 then 0 else (if s[0] == c then 1 else 0) + Count(s[1..], c)
  }

  lemma {:induction false} CountAppend(a: string, b: string, c: char)
    ensures Count(a + b, c) == Count(a, c) + Count(b, c)
    decreases |a|
  {
    if |a| == 0 {
      assert a + b == b;
    } else {
      assert (a + b)[0] == a[0];
      assert (a + b)[1..] == a[1..] + b;
      assert Count(a + b, c) == (if a[0] == c then 1 else 0) + Count(a[1..] + b, c);
      CountAppend(a[1..], b, c);
    }
  }

  // ---------------------------------------------------------------------------
  // strip
  // ---------------------------------------------------------------------------

  function StripLeft(s: string): (r: string)
    ensures |r| <= |s| && r == s[|s| - |r|..]
    ensures |r| == 0 || !IsSpace(r[0])
    ensures forall i :: 0 <= i < |s| - |r| ==> IsSpace(s[i])
  {
    if |s| > 0 && IsSpace(s[0]) then StripLeft(s[1..]) else s
  }

  function StripRight(s: string): (r: string)
    ensures |r| <= |s| && r == s[..|r|]
    ensures |r| == 0 || !IsSpace(r[|r| - 1])
    ensures forall i :: |r| <= i < |s| ==> IsSpace(s[i])
  {
    if |s| > 0 && IsSpace(s[|s| - 1]) then StripRight(s[..|s| - 1]) else s
  }

  /** Python `str.strip()`: the string without leading and trailing whitespace. */
  function Strip(s: string): (r: string)
    ensures |r| <= |s|
    ensures |r| == 0 || (!IsSpace(r[0]) && !IsSpace(r[|r| - 1]))
    ensures (forall i :: 0 <= i < |s| ==> IsSpace(s[i])) <==> r == ""
  {
    var l := StripLeft(s);
    var r := StripRight(l);
    r
  }

  /** Stripping only removes characters. */
  lemma StripChars(s: string, c: char)
    requires c !in s
    ensures c !in Strip(s)
  {
  }

  /** A string without surrounding whitespace is its own strip. */
  predicate IsStripped(s: string) {
    |s| == 0 || (!IsSpace(s[0]) && !IsSpace(s[|s| - 1]))
  }

  lemma StrippedFixed(s: string)
    requires IsStripped(s)
    ensures Strip(s) == s
  {
  }

  predicate AllSpace(s: string) {
    forall i :: 0 <= i < |s| ==> IsSpace(s[i])
  }

  /** Leading whitespace does not change what `StripLeft` keeps. */
  lemma {:induction false} StripLeftSpaces(a: string, x: string)
    requires AllSpace(a)
    ensures StripLeft(a + x) == StripLeft(x)
    decreases |a|
  {
    if |a| > 0 {
      assert (a + x)[0] == a[0] && (a + x)[1..] == a[1..] + x;
      assert StripLeft(a + x) == StripLeft(a[1..] + x);
      StripLeftSpaces(a[1..], x);
    } else {
      assert a + x == x;
    }
  }

  /** Trailing whitespace does not change what `StripRight` keeps. */
  lemma {:induction false} StripRightSpaces(x: string, b: string)
    requires AllSpace(b)
    ensures StripRight(x + b) == StripRight(x)
    decreases |b|
  {
    if |b| > 0 {
      var b0 := b[..|b| - 1];
      assert (x + b)[|x + b| - 1] == b[|b| - 1] && (x + b)[..|x + b| - 1] == x + b0;
      assert StripRight(x + b) == StripRight(x + b0);
      StripRightSpaces(x, b0);
    } else {
      assert x + b == x;
    }
  }

  /** A stripped text padded with whitespace strips back to itself. */
  lemma StripPadded(a: string, c: string, b: string)
    requires AllSpace(a) && IsStripped(c) && AllSpace(b)
    ensures Strip(a + c + b) == c
  {
    assert a + c + b == a + (c + b);
    StripLeftSpaces(a, c + b);
    if c == "" {
      assert c + b == b + "";
      StripLeftSpaces(b, "");
    } else {
      assert StripLeft(c + b) == c + b;
      StripRightSpaces(c, b);
    }
  }

  /** Every element stripped: `[x.strip() for x in xs]`. */
  function StripEach(xs: seq<string>): (r: seq<string>)
    ensures |r| == |xs|
    ensures forall i :: 0 <= i < |r| ==> r[i] == Strip(xs[i]) && IsStripped(r[i])
  {
    seq(|xs|, i requires 0 <= i < |xs| => Strip(xs[i]))
  }

  /** Python `str.rstrip(c)` for a single character `c`. */
  function RStripChar(s: string, c: char): (r: string)
    ensures |r| <= |s| && r == s[..|r|]
    ensures |r| == 0 || r[|r| - 1] != c
    ensures forall i :: |r| <= i < |s| ==> s[i] == c
  {
    if |s| > 0 && s[|s| - 1] == c then RStripChar(s[..|s| - 1], c) else s
  }

  // ---------------------------------------------------------------------------
  // split and join
  // ---------------------------------------------------------------------------

  /** Python `s.split(sep)` for a one-character separator: always at least one
      piece, and no piece contains the separator. */
  function Split(s: string, sep: char): (r: seq<string>)
    ensures |r| >= 1
    ensures forall i :: 0 <= i < |r| ==> sep !in r[i]
    decreases |s|
  {
    if |s| == 0 then [""]
    else
      var rest := Split(s[1..], sep);
      if s[0] == sep then [""] + rest
      else [[s[0]] + rest[0]] + rest[1..]
  }

  /** `xs.index(x)`: the first position holding `x`. */
  function IndexOf<T(==)>(xs: seq<T>, x: T): (k: nat)
    requires x in xs
    ensures k < |xs| && xs[k] == x && x !in xs[..k]
  {
    if xs[0] == x then 0
    else
      var k := IndexOf(xs[1..], x) + 1;
      assert xs[..k] == [xs[0]] + xs[1..][..k - 1];
      k
  }

  /** The first position holding `x` is the one `IndexOf` finds. */
  lemma {:induction false} IndexOfAt<T>(xs: seq<T>, x: T, f: nat)
    requires f < |xs| && xs[f] == x && x !in xs[..f]
    ensures IndexOf(xs, x) == f
    decreases f
  {
    if f > 0 {
      assert xs[..f][0] == xs[0];
      assert xs[1..][..f - 1] == xs[1..f];
      assert forall y :: y in xs[1..f] ==> y in xs[..f];
      IndexOfAt(xs[1..], x, f - 1);
    }
  }

  /** Python `s.split(sep, maxSplit)`: at most `maxSplit` cuts, made at the
      leftmost separators; the last piece keeps the rest of the text. */
  function SplitN(s: string, sep: char, maxSplit: nat): (r: seq<string>)
    ensures 1 <= |r| <= maxSplit + 1
    ensures forall i :: 0 <= i < |r| - 1 ==> sep !in r[i]
    decreases maxSplit
  {
    if maxSplit == 0 || sep !in s then [s]
    else
      var k := IndexOf(s, sep);
      [s[..k]] + SplitN(s[k + 1..], sep, maxSplit - 1)
  }

  /** When a cut is allowed, the first piece is the text before the first
      separator. */
  lemma SplitNFirst(s: string, sep: char, maxSplit: nat)
    requires maxSplit > 0
    ensures var first := SplitN(s, sep, maxSplit)[0];
      sep !in first && |first| <= |s| && first == s[..|first|]
  {
  }

  /** Three fields joined with the separator, the first two free of it, are
      recovered by splitting at most twice. */
  lemma SplitNThree(a: string, b: string, c: string, sep: char)
    requires sep !in a && sep !in b
    ensures SplitN(a + [sep] + b + [sep] + c, sep, 2) == [a, b, c]
  {
    var s := a + [sep] + b + [sep] + c;
    assert s[|a|] == sep;
    assert s[..|a|] == a;
    var t := s[|a| + 1..];
    assert t == b + [sep] + c;
    assert t[|b|] == sep;
    assert t[..|b|] == b;
    assert t[|b| + 1..] == c;
  }

  /** Python `sep.join(parts)`. */
  function Join(parts: seq<string>, sep: string): string
    decreases |parts|
  {
    if |parts| == 0 then ""
    else if |parts| == 1 then parts[0]
    else parts[0] + sep + Join(parts[1..], sep)
  }

  /** The lines of a text (`text.split('\n')`). */
  function Lines(s: string): (r: seq<string>)
    ensures |r| >= 1
  {
    Split(s, '\n')
  }

  /** The pieces lower-cased one by one. */
  function LowerEach(xs: seq<string>): (r: seq<string>)
    ensures |r| == |xs|
    ensures forall i :: 0 <= i < |xs| ==> r[i] == Lower(xs[i])
  {
    seq(|xs|, i requires 0 <= i < |xs| => Lower(xs[i]))
  }

  /** Lower-casing a joined text lower-cases every piece; a separator
      without upper-case letters is kept. */
  lemma {:induction false} LowerJoin(xs: seq<string>, sep: string)
    requires forall k :: 0 <= k < |sep| ==> !IsUpper(sep[k])
    ensures Lower(Join(xs, sep)) == Join(LowerEach(xs), sep)
    decreases |xs|
  {
    if |xs| > 1 {
      LowerJoin(xs[1..], sep);
      LowerAppend(xs[0] + sep, Join(xs[1..], sep));
      LowerAppend(xs[0], sep);
      assert Lower(sep) == sep;
      assert LowerEach(xs)[1..] == LowerEach(xs[1..]);
    }
  }

  /** A joined text contains whatever one of its pieces contains. */
  lemma {:induction false} ContainsInJoin(xs: seq<string>, sep: string, i: nat, p: string)
    requires i < |xs| && Contains(xs[i], p)
    ensures Contains(Join(xs, sep), p)
    decreases |xs|
  {
    if |xs| > 1 {
      if i == 0 {
        ContainsBefore(xs[0], sep + Join(xs[1..], sep), p);
        assert xs[0] + sep + Join(xs[1..], sep) == xs[0] + (sep + Join(xs[1..], sep));
      } else {
        ContainsInJoin(xs[1..], sep, i - 1, p);
        ContainsAfter(xs[0] + sep, Join(xs[1..], sep), p);
      }
    }
  }

  /** Joining the pieces again restores the text. */
  lemma {:induction false} JoinSplit(s: string, sep: char)
    ensures Join(Split(s, sep), [sep]) == s
    decreases |s|
  {
    if |s| > 0 {
      var rest := Split(s[1..], sep);
      JoinSplit(s[1..], sep);
      if s[0] == sep {
        assert Split(s, sep) == [""] + rest;
        assert ([""] + rest)[1..] == rest;
      } else {
        var r := [[s[0]] + rest[0]] + rest[1..];
        assert Split(s, sep) == r;
        if |rest| == 1 {
          assert Join(rest, [sep]) == rest[0];
        } else {
          assert r[1..] == rest[1..];
          assert Join(rest, [sep]) == rest[0] + [sep] + Join(rest[1..], [sep]);
        }
      }
    }
  }

  /** Splitting at the separator placed between two texts splits each of them. */
  lemma {:induction false} SplitAppend(x: string, y: string, sep: char)
    ensures Split(x + [sep] + y, sep) == Split(x, sep) + Split(y, sep)
    decreases |x|
  {
    var z := x + [sep] + y;
    if |x| == 0 {
      assert z == [sep] + y;
      assert z[1..] == y;
    } else {
      var t := x[1..];
      assert z[1..] == t + [sep] + y;
      assert z[0] == x[0];
      SplitAppend(t, y, sep);
      if x[0] != sep {
        JoinFirstPiece(x[0], Split(t, sep), Split(y, sep));
      }
    }
  }

  /** A character glued onto the first piece of `a + b` lands in `a`'s first
      piece. */
  lemma JoinFirstPiece(c: char, a: seq<string>, b: seq<string>)
    requires |a| >= 1
    ensures [[c] + (a + b)[0]] + (a + b)[1..] == [[c] + a[0]] + a[1..] + b
  {
    assert (a + b)[0] == a[0];
    assert (a + b)[1..] == a[1..] + b;
  }

  /** A text without the separator is one piece. */
  lemma {:induction false} SplitNoSep(s: string, sep: char)
    requires sep !in s
    ensures Split(s, sep) == [s]
    decreases |s|
  {
    if |s| > 0 {
      SplitNoSep(s[1..], sep);
      assert s[0] != sep;
      assert [s[0]] + s[1..] == s;
    }
  }

  /** A text ending in the separator has an empty last piece; the pieces of
      what follows are appended after the others. */
  lemma SplitAfterSep(x: string, y: string, sep: char)
    requires |x| > 0 && x[|x| - 1] == sep
    ensures var px := Split(x, sep);
      px[|px| - 1] == "" && Split(x + y, sep) == px[..|px| - 1] + Split(y, sep)
  {
    var x0 := x[..|x| - 1];
    assert x == x0 + [sep] + "";
    SplitAppend(x0, "", sep);
    assert x + y == x0 + [sep] + y;
    SplitAppend(x0, y, sep);
    var p0 := Split(x0, sep);
    assert Split(x, sep) == p0 + [""];
    assert (p0 + [""])[..|p0|] == p0;
  }

  /** The number of lines is the number of separators plus one, so
      `len(s.split('\n')) == s.count('\n') + 1`. */
  lemma {:induction false} SplitCount(s: string, sep: char)
    ensures |Split(s, sep)| == Count(s, sep) + 1
    decreases |s|
  {
    if |s| > 0 {
      SplitCount(s[1..], sep);
    }
  }

  /** Joining two non-empty runs of pieces puts the separator between them. */
  lemma {:induction false} JoinAppend(a: seq<string>, b: seq<string>, sep: string)
    requires |a| >= 1 && |b| >= 1
    ensures Join(a + b, sep) == Join(a, sep) + sep + Join(b, sep)
    decreases |a|
  {
    if |a| == 1 {
      assert (a + b)[1..] == b;
    } else {
      assert (a + b)[1..] == a[1..] + b;
      JoinAppend(a[1..], b, sep);
    }
  }

  // ---------------------------------------------------------------------------
  // Python slices and prefixes
  // ---------------------------------------------------------------------------

  /** Python `xs[lo:hi]` for non-negative bounds: out-of-range bounds are
      clamped and a reversed range is empty. */
  function Slice<T>(xs: seq<T>, lo: nat, hi: nat): (r: seq<T>)
    ensures |r| <= |xs|
    ensures lo <= hi <= |xs| ==> r == xs[lo..hi]
  {
    var h := if hi <= |xs| then hi else |xs|;
    if lo >= h then [] else xs[lo..h]
  }

  /** Python `xs[:n]`. */
  function Take<T>(xs: seq<T>, n: nat): (r: seq<T>)
    ensures |r| == if n <= |xs| then n else |xs|
    ensures forall i :: 0 <= i < |r| ==> r[i] == xs[i]
  {
    if n <= |xs| then xs[..n] else xs
  }

  /** Python `s * n`. */
  function Repeat(s: string, n: nat): string {
    if n == 0 then "" else s + Repeat(s, n - 1)
  }

  /** A character absent from the block is absent from its repetition. */
  lemma {:induction false} RepeatAvoids(s: string, n: nat, c: char)
    requires c !in s
    ensures c !in Repeat(s, n)
  {
    if n > 0 {
      RepeatAvoids(s, n - 1, c);
    }
  }

  // ---------------------------------------------------------------------------
  // Integers as decimal text
  // ---------------------------------------------------------------------------

  function DigitChar(d: nat): (c: char)
    requires d < 10
    ensures IsDigit(c)
  {
    ('0' as int + d) as char
  }

  /** Python `str(n)` for a natural number. */
  function NatToString(n: nat): (r: string)
    ensures |r| >= 1
    ensures AllDigits(r)
  {
    if n < 10 then [DigitChar(n)] else NatToString(n / 10) + [DigitChar(n % 10)]
  }

  /** Python `int(s)` for a string of ASCII digits (leading zeros allowed). */
  function DigitsValue(s: string): nat
    requires AllDigits(s)
  {
    if |s| == 0 then 0
    else DigitsValue(s[..|s| - 1]) * 10 + (s[|s| - 1] as int - '0' as int)
  }

  /** Printing a number and reading it back gives the number. */
  lemma {:induction false} DigitsValueOfString(n: nat)
    ensures DigitsValue(NatToString(n)) == n
  {
    if n >= 10 {
      var s := NatToString(n);
      assert s[..|s| - 1] == NatToString(n / 10);
      DigitsValueOfString(n / 10);
    }
  }

  /** Python `a // b`: the quotient rounded towards negative infinity. */
  function FloorDiv(a: int, b: int): (q: int)
    requires b != 0
    ensures b > 0 ==> q * b <= a < (q + 1) * b
    ensures b < 0 ==> (q + 1) * b < a <= q * b
  {
    if b > 0 then a / b else (-a) / (-b)
  }

  /** The quotient of a count by a positive rate is at most one exactly when
      the count is below twice the rate; by a negative rate it is never
      positive. */
  lemma FloorDivSmall(a: nat, b: int)
    requires b != 0
    ensures b > 0 ==> (FloorDiv(a, b) <= 1 <==> a < 2 * b)
    ensures b < 0 ==> FloorDiv(a, b) <= 0
  {
    var q := FloorDiv(a, b);
    if b > 0 {
      if q <= 1 {
        assert (q + 1) * b <= 2 * b;
      } else {
        assert q * b >= 2 * b;
      }
    } else {
      NegativeMultiple(q, b);
    }
  }

  /** A positive multiple of a negative number is negative. */
  lemma NegativeMultiple(q: int, b: int)
    requires b < 0
    ensures q >= 1 ==> q * b < 0
  {
    if q >= 1 {
      assert q * b == b + (q - 1) * b;
    }
  }

  /** Python `f"{n:02d}"`: at least two digits, zero-padded. */
  function Pad2(n: nat): (r: string)
    ensures |r| >= 2
    ensures AllDigits(r)
    ensures DigitsValue(r) == n
  {
    DigitsValueOfString(n);
    if n < 10 then
      var r := "0" + NatToString(n);
      assert r[..|r| - 1] == "0";
      r
    else
      assert NatToString(n) == NatToString(n / 10) + [DigitChar(n % 10)];
      NatToString(n)
  }

  // ---------------------------------------------------------------------------
  // Whitespace-separated words (`len(s.split())`)
  // ---------------------------------------------------------------------------

  /** Counts the starts of maximal non-whitespace runs; `afterSpace` says
      whether the character before `s` was whitespace (or absent). */
  function WordsFrom(s: string, afterSpace: bool): nat
    decreases |s|
  {
    if |s| == 0 then 0
    else (if !IsSpace(s[0]) && afterSpace then 1 else 0) + WordsFrom(s[1..], IsSpace(s[0]))
  }

  /** `len(s.split())`: the number of whitespace-separated tokens. */
  function WordCount(s: string): nat {
    WordsFrom(s, true)
  }

  /** Word counts add up across a boundary that follows whitespace. */
  lemma {:induction false} WordsAppend(a: string, b: string, afterSpace: bool)
    requires |a| > 0 && IsSpace(a[|a| - 1])
    ensures WordsFrom(a + b, afterSpace) == WordsFrom(a, afterSpace) + WordsFrom(b, true)
    decreases |a|
  {
    assert (a + b)[0] == a[0];
    assert (a + b)[1..] == a[1..] + b;
    if |a| > 1 {
      WordsAppend(a[1..], b, IsSpace(a[0]));
    } else {
      assert a[1..] + b == b;
    }
  }

  /** Repeating a block that ends in whitespace repeats its words. */
  lemma {:induction false} WordsRepeat(u: string, n: nat)
    requires |u| > 0 && IsSpace(u[|u| - 1])
    ensures WordCount(Repeat(u, n)) == n * WordCount(u)
  {
    if n > 0 {
      WordsAppend(u, Repeat(u, n - 1), true);
      WordsRepeat(u, n - 1);
    }
  }
}
