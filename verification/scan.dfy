/** Hand-written scanners for the fixed regular expressions the scripts apply
    to LaTeX text. Each `...At` function decides whether its pattern matches
    starting exactly at index `i`, the way a regex engine tries one start
    position; the `Search...`, `FindAll...` and `Sub...` functions then
    implement `re.search`, `re.findall` and `re.sub` on top of it (leftmost
    start, left-to-right non-overlapping matches). */
module Scan {
  import opened Wrappers
  import opened Text

  // ---------------------------------------------------------------------------
  // Runs and single characters
  // ---------------------------------------------------------------------------

  /** End of the maximal run of ASCII letters starting at `i` (`[a-zA-Z]*`). */
  function LetterRunEnd(s: string, i: nat): (j: nat)
    requires i <= |s|
    ensures i <= j <= |s|
    ensures forall k :: i <= k < j ==> IsLetter(s[k])
    ensures j == |s| || !IsLetter(s[j])
    decreases |s| - i
  {
    if i < |s| && IsLetter(s[i]) then LetterRunEnd(s, i + 1) else i
  }

  /** End of the maximal run of whitespace starting at `i` (`\s*`). */
  function SpaceRunEnd(s: string, i: nat): (j: nat)
    requires i <= |s|
    ensures i <= j <= |s|
    ensures forall k :: i <= k < j ==> IsSpace(s[k])
    ensures j == |s| || !IsSpace(s[j])
    decreases |s| - i
  {
    if i < |s| && IsSpace(s[i]) then SpaceRunEnd(s, i + 1) else i
  }

  /** The first index at or after `i` holding `c`. */
  function FindChar(s: string, c: char, i: nat): (r: Option<nat>)
    requires i <= |s|
    ensures r.Some? ==> i <= r.value < |s| && s[r.value] == c
    ensures r.Some? ==> forall k :: i <= k < r.value ==> s[k] != c
    ensures r.None? ==> forall k :: i <= k < |s| ==> s[k] != c
    decreases |s| - i
  {
    if i == |s| then None
    else if s[i] == c then Some(i)
    else FindChar(s, c, i + 1)
  }

  /** `s[i..]` starts with `p`. */
  predicate At(s: string, i: nat, p: string) {
    i + |p| <= |s| && s[i..i + |p|] == p
  }

  // ---------------------------------------------------------------------------
  // `\name\*?\s*\{` and `\name\*?\s*\{([^}]+)\}`
  // ---------------------------------------------------------------------------

  /** Matches `\name`, then an optional `*` when `star`, then whitespace when
      `space`, then `{`; yields the index of the `{`. */
  function OpenAt(s: string, i: nat, name: string, star: bool, space: bool): (r: Option<nat>)
    ensures r.Some? ==> i + 1 + |name| <= r.value < |s| && s[r.value] == '{'
    ensures r.Some? ==> At(s, i, "\\" + name)
    ensures r.Some? ==> i < |s| && s[i] == '\\'
  {
    if !At(s, i, "\\" + name) then None
    else
      var j := i + 1 + |name|;
      var j1 := if star && j < |s| && s[j] == '*' then j + 1 else j;
      var j2 := if space then SpaceRunEnd(s, j1) else j1;
      if j2 < |s| && s[j2] == '{' then Some(j2) else None
  }

  /** Matches `OpenAt` followed by a non-empty group of non-`}` characters and
      the closing `}`; yields the group and the end of the match. */
  function ArgAt(s: string, i: nat, name: string, star: bool, space: bool): (r: Option<(string, nat)>)
    ensures r.Some? ==> r.value.0 != [] && '}' !in r.value.0
    ensures r.Some? ==> i < r.value.1 <= |s| && s[r.value.1 - 1] == '}'
    ensures r.Some? ==> i < |s| && s[i] == '\\'
  {
    match OpenAt(s, i, name, star, space)
    case None => None
    case Some(b) =>
      match FindChar(s, '}', b + 1)
      case None => None
      case Some(k) =>
        if k == b + 1 then None
        else
          Some((s[b + 1..k], k + 1))
  }

  /** Alternation `\(?:n1|n2|...)`: the first name that matches at `i`. */
  function ArgAnyAt(s: string, i: nat, names: seq<string>, star: bool, space: bool): (r: Option<(string, nat)>)
    ensures r.Some? ==> exists n :: n in names && ArgAt(s, i, n, star, space) == r
    ensures r.None? ==> forall n :: n in names ==> ArgAt(s, i, n, star, space).None?
    ensures r.Some? ==> i < |s| && s[i] == '\\'
    decreases |names|
  {
    if |names| == 0 then None
    else
      var m := ArgAt(s, i, names[0], star, space);
      if m.Some? then m else ArgAnyAt(s, i, names[1..], star, space)
  }

  /** The group of an alternation match is a non-empty run without `}`. */
  lemma ArgAnyAtGroup(s: string, i: nat, names: seq<string>, star: bool, space: bool)
    ensures var r := ArgAnyAt(s, i, names, star, space);
      r.Some? ==> r.value.0 != [] && '}' !in r.value.0 && i < r.value.1 <= |s|
  {
  }

  /** When none of the first `k` names can start at `i`, the alternation
      behaves as the one starting at the `k`-th name. */
  lemma {:induction false} ArgAnyAtFrom(s: string, i: nat, names: seq<string>, k: nat, star: bool, space: bool)
    requires k <= |names|
    requires forall j :: 0 <= j < k ==> !At(s, i, "\\" + names[j])
    ensures ArgAnyAt(s, i, names, star, space) == ArgAnyAt(s, i, names[k..], star, space)
    decreases k
  {
    if k > 0 {
      assert ArgAt(s, i, names[0], star, space).None?;
      assert names[1..][k - 1..] == names[k..];
      ArgAnyAtFrom(s, i, names[1..], k - 1, star, space);
    }
  }

  /** `\name{` after a prefix starts with `\name`. */
  lemma OpenAtCommand(pre: string, name: string, arg: string, rest: string, star: bool, space: bool)
    ensures At(pre + "\\" + name + "{" + arg + "}" + rest, |pre|, "\\" + name)
  {
    var s := pre + "\\" + name + "{" + arg + "}" + rest;
    assert s[|pre|..|pre| + 1 + |name|] == "\\" + name;
  }

  /** `\name` from `i` to `j`, `{` at `j`, a non-empty `arg` free of `}`
      up to `k` and `}` at `k`: a match with group `arg` ending at `e`. */
  lemma ArgAtSpan(s: string, i: nat, j: nat, k: nat, e: nat, name: string, arg: string, star: bool, space: bool)
    requires j == i + 1 + |name| && k == j + 1 + |arg| && e == k + 1 && k < |s|
    requires arg != [] && '}' !in arg
    requires s[i..j] == "\\" + name && s[j] == '{' && s[j + 1..k] == arg && s[k] == '}'
    ensures ArgAt(s, i, name, star, space) == Some((arg, e))
  {
    OpenAtSpan(s, i, j, name, star, space);
    CloseAtSpan(s, j, k, arg);
  }

  /** `\\name` from `i` to `j` and `{` at `j`: the command opens at `j`. */
  lemma OpenAtSpan(s: string, i: nat, j: nat, name: string, star: bool, space: bool)
    requires j == i + 1 + |name| && j < |s|
    requires s[i..j] == "\\" + name && s[j] == '{'
    ensures OpenAt(s, i, name, star, space) == Some(j)
  {
    assert SpaceRunEnd(s, j) == j;
  }

  /** A group free of `}` from `j + 1` to `k`, closed at `k`: the first `}`
      after `j` is at `k`. */
  lemma CloseAtSpan(s: string, j: nat, k: nat, arg: string)
    requires k == j + 1 + |arg| && k < |s|
    requires '}' !in arg && s[j + 1..k] == arg && s[k] == '}'
    ensures FindChar(s, '}', j + 1) == Some(k)
  {
    assert forall m :: j + 1 <= m < k ==> s[m] == arg[m - j - 1];
  }

  /** `\name{arg}` after a prefix, with a non-empty `arg` free of `}`,
      matches at the end of the prefix with group `arg`. */
  lemma ArgAtCommand(pre: string, name: string, arg: string, rest: string, star: bool, space: bool)
    requires arg != [] && '}' !in arg
    ensures var s := pre + "\\" + name + "{" + arg + "}" + rest;
      ArgAt(s, |pre|, name, star, space) == Some((arg, |pre| + |name| + |arg| + 3))
  {
    var s := pre + "\\" + name + "{" + arg + "}" + rest;
    assert s[|pre|..|pre| + 1 + |name|] == "\\" + name;
    assert s[|pre| + 1 + |name|] == '{';
    assert s[|pre| + 1 + |name| + 1..|pre| + 1 + |name| + 1 + |arg|] == arg;
    assert s[|pre| + 1 + |name| + 1 + |arg|] == '}';
    ArgAtSpan(s, |pre|, |pre| + 1 + |name|, |pre| + 1 + |name| + 1 + |arg|, |pre| + |name| + |arg| + 3,
              name, arg, star, space);
  }

  /** `re.search` for `OpenAt`: the `{` of the leftmost match at or after `i`. */
  function SearchOpen(s: string, name: string, star: bool, space: bool, i: nat): (r: Option<nat>)
    requires i <= |s|
    ensures r.Some? ==> (exists k :: i <= k < |s| && OpenAt(s, k, name, star, space) == r
                          && forall k' :: i <= k' < k ==> OpenAt(s, k', name, star, space).None?)
    ensures r.None? ==> forall k :: i <= k <= |s| ==> OpenAt(s, k, name, star, space).None?
    decreases |s| - i
  {
    if i == |s| then None
    else
      var m := OpenAt(s, i, name, star, space);
      if m.Some? then m else SearchOpen(s, name, star, space, i + 1)
  }

  /** Two command names that differ at a position both have: neither can
      match where the other does. */
  predicate Differ(a: string, b: string) {
    exists m :: 0 <= m < |a| && m < |b| && a[m] != b[m]
  }

  /** A command name that differs from `b` does not start where `\\b` does. */
  lemma DifferMiss(s: string, i: nat, a: string, b: string)
    requires At(s, i, "\\" + b) && Differ(a, b)
    ensures !At(s, i, "\\" + a)
  {
    var m :| 0 <= m < |a| && m < |b| && a[m] != b[m];
    var p := "\\" + a;
    assert s[i + 1 + m] == ("\\" + b)[1 + m] == b[m];
    assert p[1 + m] == a[m];
    if i + |p| <= |s| {
      assert s[i..i + |p|][1 + m] != p[1 + m];
    }
  }

  /** No name that differs from `name` starts where `\\name{` stands. */
  lemma EarlierNamesMiss(s: string, i: nat, names: seq<string>, k: nat)
    requires k < |names| && At(s, i, "\\" + names[k])
    requires forall j :: 0 <= j < k ==> Differ(names[j], names[k])
    ensures forall j :: 0 <= j < k ==> !At(s, i, "\\" + names[j])
  {
    forall j | 0 <= j < k ensures !At(s, i, "\\" + names[j]) {
      DifferMiss(s, i, names[j], names[k]);
    }
  }

  /** Any command of a list whose names pairwise differ, with its argument,
      is matched by the alternation. */
  lemma ArgAnyAtMember(pre: string, names: seq<string>, name: string, arg: string, rest: string, star: bool, space: bool)
    requires name in names && arg != [] && '}' !in arg
    requires forall j, k :: 0 <= j < k < |names| ==> Differ(names[j], names[k])
    ensures ArgAnyAt(pre + "\\" + name + "{" + arg + "}" + rest, |pre|, names, star, space)
      == Some((arg, |pre| + |name| + |arg| + 3))
  {
    var k :| 0 <= k < |names| && names[k] == name;
    var s := pre + "\\" + name + "{" + arg + "}" + rest;
    ArgAtCommand(pre, name, arg, rest, star, space);
    OpenAtCommand(pre, name, arg, rest, star, space);
    ArgAnyAtPick(s, |pre|, names, k, star, space);
  }

  /** A match of `names[k]` at `i` is the alternation's match when every
      earlier name differs from it. */
  lemma ArgAnyAtPick(s: string, i: nat, names: seq<string>, k: nat, star: bool, space: bool)
    requires k < |names| && At(s, i, "\\" + names[k]) && ArgAt(s, i, names[k], star, space).Some?
    requires forall j :: 0 <= j < k ==> Differ(names[j], names[k])
    ensures ArgAnyAt(s, i, names, star, space) == ArgAt(s, i, names[k], star, space)
  {
    EarlierNamesMiss(s, i, names, k);
    ArgAnyAtFrom(s, i, names, k, star, space);
    ArgAnyAtHead(s, i, names[k..], star, space);
  }

  /** The first alternative that matches is taken. */
  lemma ArgAnyAtHead(s: string, i: nat, names: seq<string>, star: bool, space: bool)
    requires |names| > 0 && ArgAt(s, i, names[0], star, space).Some?
    ensures ArgAnyAt(s, i, names, star, space) == ArgAt(s, i, names[0], star, space)
  {
  }

  /** `re.search(...).group(1)` for the alternation `ArgAnyAt`: the group of
      the leftmost match. */
  function SearchArgAny(s: string, names: seq<string>, star: bool, space: bool, i: nat): (r: Option<string>)
    requires i <= |s|
    ensures r.Some? ==> r.value != [] && '}' !in r.value
    decreases |s| - i
  {
    if i == |s| then None
    else
      var m := ArgAnyAt(s, i, names, star, space);
      if m.Some? then
        ArgAnyAtGroup(s, i, names, star, space);
        Some(m.value.0)
      else SearchArgAny(s, names, star, space, i + 1)
  }

  /** The search reports the match at the first position where one starts,
      and nothing when no position has one. */
  lemma SearchArgAnyLeftmost(s: string, names: seq<string>, star: bool, space: bool, i: nat, k: nat)
    requires i <= k < |s|
    requires forall k' :: i <= k' < k ==> ArgAnyAt(s, k', names, star, space).None?
    ensures ArgAnyAt(s, k, names, star, space).Some? ==>
      SearchArgAny(s, names, star, space, i) == Some(ArgAnyAt(s, k, names, star, space).value.0)
    ensures ArgAnyAt(s, k, names, star, space).None? ==>
      SearchArgAny(s, names, star, space, i) == SearchArgAny(s, names, star, space, k + 1)
  {
    SearchArgAnyPast(s, names, star, space, i, k);
    SearchArgAnyStep(s, names, star, space, k);
  }

  /** Positions without a match are passed over. */
  lemma {:induction false} SearchArgAnyPast(s: string, names: seq<string>, star: bool, space: bool, i: nat, k: nat)
    requires i <= k <= |s|
    requires forall k' :: i <= k' < k ==> ArgAnyAt(s, k', names, star, space).None?
    ensures SearchArgAny(s, names, star, space, i) == SearchArgAny(s, names, star, space, k)
    decreases k - i
  {
    if i < k {
      SearchArgAnyPast(s, names, star, space, i + 1, k);
    }
  }

  /** The search from `k` stops at `k` exactly when a match starts there. */
  lemma SearchArgAnyStep(s: string, names: seq<string>, star: bool, space: bool, k: nat)
    requires k < |s|
    ensures ArgAnyAt(s, k, names, star, space).Some? ==>
      SearchArgAny(s, names, star, space, k) == Some(ArgAnyAt(s, k, names, star, space).value.0)
    ensures ArgAnyAt(s, k, names, star, space).None? ==>
      SearchArgAny(s, names, star, space, k) == SearchArgAny(s, names, star, space, k + 1)
  {
  }

  /** A stretch without backslashes holds no match and is skipped. */
  lemma {:induction false} SearchArgAnySkip(s: string, names: seq<string>, star: bool, space: bool, i: nat, j: nat)
    requires i <= j <= |s|
    requires forall k :: i <= k < j ==> s[k] != '\\'
    ensures SearchArgAny(s, names, star, space, i) == SearchArgAny(s, names, star, space, j)
    decreases j - i
  {
    if i < j {
      SearchArgAnySkip(s, names, star, space, i + 1, j);
    }
  }

  /** A text whose only backslash, at `i`, does not begin `\\name` has no
      match of that command. */
  lemma SearchArgAbsent(s: string, name: string, star: bool, space: bool, i: nat)
    requires i < |s| && !At(s, i, "\\" + name)
    requires forall k :: 0 <= k < |s| && k != i ==> s[k] != '\\'
    ensures SearchArgAny(s, [name], star, space, 0).None?
  {
    SearchArgAnySkip(s, [name], star, space, 0, i);
    SearchArgAnyStep(s, [name], star, space, i);
    SearchArgAnySkip(s, [name], star, space, i + 1, |s|);
  }

  /** `re.search(r'\\label\{([^}]+)\}', s).group(1)`, if any. */
  function FirstLabel(s: string): (r: Option<string>)
    ensures r.Some? ==> r.value != [] && '}' !in r.value
  {
    SearchArgAny(s, ["label"], false, false, 0)
  }

  /** `re.findall` for the alternation `ArgAnyAt`: the groups of all
      non-overlapping matches, left to right. */
  function FindAllArgs(s: string, names: seq<string>, star: bool, space: bool, i: nat): (r: seq<string>)
    requires i <= |s|
    ensures forall k :: 0 <= k < |r| ==> r[k] != [] && '}' !in r[k]
    decreases |s| - i
  {
    if i == |s| then []
    else
      match ArgAnyAt(s, i, names, star, space)
      case Some(m) => [m.0] + FindAllArgs(s, names, star, space, m.1)
      case None => FindAllArgs(s, names, star, space, i + 1)
  }

  /** No pattern that begins with a backslash can match in a text without one. */
  lemma {:induction false} FindAllArgsNoBackslash(s: string, names: seq<string>, star: bool, space: bool, i: nat)
    requires i <= |s|
    requires forall k :: i <= k < |s| ==> s[k] != '\\'
    ensures FindAllArgs(s, names, star, space, i) == []
    decreases |s| - i
  {
    if i < |s| {
      FindAllArgsNoBackslash(s, names, star, space, i + 1);
    }
  }

  /** A stretch without backslashes holds no match and is skipped. */
  lemma {:induction false} FindAllArgsSkip(s: string, names: seq<string>, star: bool, space: bool, i: nat, j: nat)
    requires i <= j <= |s|
    requires forall k :: i <= k < j ==> s[k] != '\\'
    ensures FindAllArgs(s, names, star, space, i) == FindAllArgs(s, names, star, space, j)
    decreases j - i
  {
    if i < j {
      FindAllArgsSkip(s, names, star, space, i, j - 1);
      FindAllArgsStep(s, names, star, space, j - 1);
    }
  }

  /** A position without a backslash starts no match and is passed over. */
  lemma FindAllArgsStep(s: string, names: seq<string>, star: bool, space: bool, i: nat)
    requires i < |s| && s[i] != '\\'
    ensures FindAllArgs(s, names, star, space, i) == FindAllArgs(s, names, star, space, i + 1)
  {
    assert ArgAnyAt(s, i, names, star, space).None?;
  }

  /** When no backslash comes before `i`, the first match `re.findall`
      reports is the one at `i`, if any. */
  lemma FindAllArgsAt(s: string, names: seq<string>, star: bool, space: bool, i: nat, arg: string, end: nat)
    requires i <= |s| && forall k :: 0 <= k < i ==> s[k] != '\\'
    requires ArgAnyAt(s, i, names, star, space) == Some((arg, end))
    ensures end <= |s|
    ensures FindAllArgs(s, names, star, space, 0) == [arg] + FindAllArgs(s, names, star, space, end)
  {
    ArgAnyAtGroup(s, i, names, star, space);
    FindAllArgsSkip(s, names, star, space, 0, i);
  }

  /** A command of the list after a backslash-free prefix is the first
      match `re.findall` reports. */
  lemma FindAllArgsMember(pre: string, names: seq<string>, name: string, arg: string, post: string, star: bool, space: bool, e: nat)
    requires '\\' !in pre && name in names && arg != [] && '}' !in arg
    requires forall j, k :: 0 <= j < k < |names| ==> Differ(names[j], names[k])
    requires e == |pre| + |name| + |arg| + 3
    ensures var s := pre + "\\" + name + "{" + arg + "}" + post;
      e <= |s| && FindAllArgs(s, names, star, space, 0) == [arg] + FindAllArgs(s, names, star, space, e)
  {
    var s := pre + "\\" + name + "{" + arg + "}" + post;
    ArgAnyAtMember(pre, names, name, arg, post, star, space);
    assert forall k :: 0 <= k < |pre| ==> s[k] != '\\' by {
      forall k | 0 <= k < |pre| ensures s[k] != '\\' {
        assert s[k] == pre[k];
      }
    }
    FindAllArgsAt(s, names, star, space, |pre|, arg, e);
  }

  // ---------------------------------------------------------------------------
  // Command removal: `\\[a-zA-Z]+\{[^}]*\}` and `\\[a-zA-Z]+`
  // ---------------------------------------------------------------------------

  /** Matches `\\[a-zA-Z]+\{[^}]*\}` at `i`; yields the start of the argument
      and the index of the closing `}`. */
  function CommandWithArgAt(s: string, i: nat): (r: Option<(nat, nat)>)
    requires i <= |s|
    ensures r.Some? ==> i + 2 < r.value.0 <= r.value.1 < |s| && s[r.value.1] == '}'
    ensures r.Some? ==> s[i] == '\\'
    ensures r.Some? ==> forall k :: r.value.0 <= k < r.value.1 ==> s[k] != '}'
  {
    if i + 1 < |s| && s[i] == '\\' && IsLetter(s[i + 1]) then
      var j := LetterRunEnd(s, i + 1);
      if j < |s| && s[j] == '{' then
        match FindChar(s, '}', j + 1)
        case Some(k) => Some((j + 1, k))
        case None => None
      else None
    else None
  }

  /** `re.sub(r'\\[a-zA-Z]+\{[^}]*\}', repl, s[i..])` where `repl` is the
      argument (`r'\1'`) when `keepArg` holds and the empty string otherwise. */
  function SubArgCommands(s: string, keepArg: bool, i: nat): (r: string)
    requires i <= |s|
    ensures |r| <= |s| - i
    decreases |s| - i
  {
    if i == |s| then ""
    else
      match CommandWithArgAt(s, i)
      case Some(m) => (if keepArg then s[m.0..m.1] else "") + SubArgCommands(s, keepArg, m.1 + 1)
      case None => [s[i]] + SubArgCommands(s, keepArg, i + 1)
  }

  /** Matches `\\[a-zA-Z]+` at `i`; yields the end of the letter run. */
  function BareCommandAt(s: string, i: nat): (r: Option<nat>)
    requires i <= |s|
    ensures r.Some? ==> i + 2 <= r.value <= |s| && s[i] == '\\'
    ensures r.Some? ==> r.value == |s| || !IsLetter(s[r.value])
    ensures r.None? ==> i == |s| || s[i] != '\\' || i + 1 == |s| || !IsLetter(s[i + 1])
  {
    if i + 1 < |s| && s[i] == '\\' && IsLetter(s[i + 1]) then Some(LetterRunEnd(s, i + 1)) else None
  }

  /** No backslash in the text is directly followed by a letter. */
  predicate NoBareCommand(s: string) {
    forall k :: 0 <= k < |s| - 1 && s[k] == '\\' ==> !IsLetter(s[k + 1])
  }

  /** Any stretch of a text without bare commands has none either. */
  lemma NoBareCommandSlice(s: string, a: nat, b: nat)
    requires a <= b <= |s| && NoBareCommand(s)
    ensures NoBareCommand(s[a..b])
  {
    var t := s[a..b];
    forall k | 0 <= k < |t| - 1 && t[k] == '\\' ensures !IsLetter(t[k + 1]) {
      assert t[k] == s[a + k] && t[k + 1] == s[a + k + 1];
    }
  }

  /** `re.sub(r'\\[a-zA-Z]+', '', s[i..])`. Whenever the scan starts on a
      non-letter, the result starts on a non-letter too, so a kept backslash
      is never followed by a letter. */
  function DropBareCommands(s: string, i: nat): (r: string)
    requires i <= |s|
    ensures |r| <= |s| - i
    ensures (i == |s| || !IsLetter(s[i])) ==> (|r| == 0 || !IsLetter(r[0]))
    ensures NoBareCommand(r)
    decreases |s| - i
  {
    if i == |s| then ""
    else
      match BareCommandAt(s, i)
      case Some(j) => DropBareCommands(s, j)
      case None =>
        var rest := DropBareCommands(s, i + 1);
        assert s[i] == '\\' ==> |rest| == 0 || !IsLetter(rest[0]);
        [s[i]] + rest
  }

  /** The two-pass command removal applied to titles and to reading-time text:
      drop `\cmd{...}` groups, then bare `\cmd` words. */
  function StripCommands(s: string): (r: string)
    ensures |r| <= |s|
    ensures NoBareCommand(r)
  {
    var t := SubArgCommands(s, false, 0);
    DropBareCommands(t, 0)
  }

  /** Both passes leave a text without backslashes unchanged. */
  lemma {:induction false} CommandPassesIdentity(s: string, keepArg: bool, i: nat)
    requires i <= |s|
    requires forall k :: i <= k < |s| ==> s[k] != '\\'
    ensures SubArgCommands(s, keepArg, i) == s[i..]
    ensures DropBareCommands(s, i) == s[i..]
    decreases |s| - i
  {
    if i < |s| {
      CommandPassesIdentity(s, keepArg, i + 1);
      assert s[i..] == [s[i]] + s[i + 1..];
    }
  }

  /** Without a closing brace no `\cmd{...}` group can match, so the first
      pass copies the text. */
  lemma {:induction false} SubArgWithoutClose(s: string, keepArg: bool, i: nat)
    requires i <= |s|
    requires forall k :: i <= k < |s| ==> s[k] != '}'
    ensures SubArgCommands(s, keepArg, i) == s[i..]
    decreases |s| - i
  {
    if i < |s| {
      assert CommandWithArgAt(s, i).None?;
      SubArgWithoutClose(s, keepArg, i + 1);
      assert s[i..] == [s[i]] + s[i + 1..];
    }
  }

  lemma StripCommandsIdentity(s: string)
    requires '\\' !in s
    ensures StripCommands(s) == s
  {
    CommandPassesIdentity(s, false, 0);
    CommandPassesIdentity(SubArgCommands(s, false, 0), false, 0);
  }
}
