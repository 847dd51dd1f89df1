/** After scripts/download_arxiv.py: reading an arXiv identifier out of a
    bare ID or an `arxiv.org` URL, and choosing the main `.tex` file of an
    extracted source tree. Downloading and unpacking are not modelled. */
module ArXiv {
  import opened Wrappers
  import opened Text
  import opened Paths

  // ---------------------------------------------------------------------------
  // Identifier shapes
  // ---------------------------------------------------------------------------

  /** New-style identifiers (`2312.07511`) and old-style ones (`hep-th/9901001`). */
  datatype IdStyle = NewStyle | OldStyle

  /** The character classes the patterns use: `\d` and `[a-z-]`, both ASCII. */
  datatype CharClass = DigitClass | SlugClass

  predicate InClass(c: char, k: CharClass) {
    match k
    case DigitClass => IsDigit(c)
    case SlugClass => IsLowerLetter(c) || c == '-'
  }

  /** The class of the part before the separator. */
  function Lead(style: IdStyle): CharClass {
    match style
    case NewStyle => DigitClass
    case OldStyle => SlugClass
  }

  /** The separator: `.` for new-style identifiers, `/` for old-style ones. */
  function Sep(style: IdStyle): (c: char)
    ensures !InClass(c, Lead(style)) && !IsDigit(c)
  {
    match style
    case NewStyle => '.'
    case OldStyle => '/'
  }

  /** `x` splits at `k` into a non-empty lead, the separator and a
      non-empty run of digits. */
  predicate IdSplit(x: string, style: IdStyle, k: nat) {
    && 0 < k < |x| - 1
    && x[k] == Sep(style)
    && (forall j :: 0 <= j < k ==> InClass(x[j], Lead(style)))
    && (forall j :: k < j < |x| ==> IsDigit(x[j]))
  }

  /** `x` is an identifier of the given style: `\d+\.\d+` or `[a-z-]+/\d+`. */
  predicate IsId(x: string, style: IdStyle) {
    exists k :: 0 <= k < |x| && IdSplit(x, style, k)
  }

  // ---------------------------------------------------------------------------
  // Greedy matching
  // ---------------------------------------------------------------------------

  /** End of the run of class `k` starting at `i`. */
  function RunEnd(s: string, i: nat, k: CharClass): (j: nat)
    requires i <= |s|
    ensures i <= j <= |s|
    ensures forall m :: i <= m < j ==> InClass(s[m], k)
    ensures j == |s| || !InClass(s[j], k)
    decreases |s| - i
  {
    if i < |s| && InClass(s[i], k) then RunEnd(s, i + 1, k) else i
  }

  /** A run from `i` up to a character outside the class ends there. */
  lemma {:induction false} RunEndAt(s: string, i: nat, j: nat, k: CharClass)
    requires i <= j <= |s|
    requires forall m :: i <= m < j ==> InClass(s[m], k)
    requires j == |s| || !InClass(s[j], k)
    ensures RunEnd(s, i, k) == j
    decreases j - i
  {
    if i < j {
      RunEndAt(s, i + 1, j, k);
    }
  }

  /** Where the identifier pattern of `style`, tried at `i`, stops: both
      runs are greedy, so the match is the longest identifier there. */
  function IdEnd(s: string, i: nat, style: IdStyle): (r: Option<nat>)
    requires i <= |s|
    ensures r.Some? ==> i < r.value <= |s| && IsId(s[i..r.value], style)
    ensures r.Some? ==> r.value == |s| || !IsDigit(s[r.value])
  {
    var a := RunEnd(s, i, Lead(style));
    if i < a < |s| && s[a] == Sep(style) then
      var b := RunEnd(s, a + 1, DigitClass);
      if b > a + 1 then
        assert IdSplit(s[i..b], style, a - i);
        Some(b)
      else None
    else None
  }

  /** An identifier written at `i` and not followed by a digit is matched
      exactly. */
  lemma IdEndOf(s: string, i: nat, x: string, style: IdStyle)
    requires i + |x| <= |s| && s[i..i + |x|] == x && IsId(x, style)
    requires i + |x| == |s| || !IsDigit(s[i + |x|])
    ensures IdEnd(s, i, style) == Some(i + |x|)
  {
    var k :| 0 <= k < |x| && IdSplit(x, style, k);
    forall m | i <= m < i + |x|
      ensures s[m] == x[m - i]
    {
      assert s[i..i + |x|][m - i] == s[m];
    }
    RunEndAt(s, i, i + k, Lead(style));
    RunEndAt(s, i + k + 1, i + |x|, DigitClass);
  }

  /** `arxiv.org/abs/`, `arxiv.org/src/` or `arxiv.org/pdf/` starts at `p`. */
  predicate UrlPrefixAt(s: string, p: nat) {
    && p + 14 <= |s|
    && s[p..p + 10] == "arxiv.org/"
    && (s[p + 10..p + 13] == "abs" || s[p + 10..p + 13] == "src" || s[p + 10..p + 13] == "pdf")
    && s[p + 13] == '/'
  }

  /** No URL prefix starts where the first character is not an `a` or the
      sixth is not a dot. */
  lemma NoPrefixAt(s: string, p: nat)
    requires (p < |s| ==> s[p] != 'a') || (p + 5 < |s| ==> s[p + 5] != '.')
    ensures !UrlPrefixAt(s, p)
  {
    if p + 14 <= |s| {
      assert s[p..p + 10][0] == s[p] && s[p..p + 10][5] == s[p + 5];
    }
  }

  /** The identifier a URL pattern captures when tried at `p`. */
  function UrlHitAt(s: string, p: nat, style: IdStyle): (r: Option<string>)
    requires p <= |s|
    ensures r.Some? ==> UrlPrefixAt(s, p) && IdEnd(s, p + 14, style) == Some(p + 14 + |r.value|)
    ensures r.Some? ==> r.value == s[p + 14..p + 14 + |r.value|]
    ensures r.Some? ==> IsId(r.value, style) && Contains(s, r.value)
    ensures UrlPrefixAt(s, p) && IdEnd(s, p + 14, style).Some? ==> r.Some?
  {
    if UrlPrefixAt(s, p) then
      match IdEnd(s, p + 14, style)
      case Some(j) => ContainsSlice(s, p + 14, j); Some(s[p + 14..j])
      case None => None
    else None
  }

  function UrlHits(s: string, style: IdStyle): (h: seq<Option<string>>)
    ensures |h| == |s| + 1
    ensures forall p :: 0 <= p <= |s| ==> h[p] == UrlHitAt(s, p, style)
  {
    seq(|s| + 1, p requires 0 <= p <= |s| => UrlHitAt(s, p, style))
  }

  /** `re.search` of a URL pattern: the capture at the leftmost position
      where the pattern matches. */
  function SearchUrl(s: string, style: IdStyle): (r: Option<string>)
    ensures r.Some? ==> IsId(r.value, style) && Contains(s, r.value)
  {
    match FirstHit(UrlHits(s, style), 0)
    case Some(hit) => Some(hit.1)
    case None => None
  }

  /** `re.search` of an anchored pattern `^(...)$`: the whole input, or
      the whole input but a final newline, which `$` lets through. */
  function WholeMatch(s: string, style: IdStyle): (r: Option<string>)
    ensures r.Some? ==> IsId(r.value, style)
    ensures r.Some? ==> s == r.value || s == r.value + "\n"
  {
    match IdEnd(s, 0, style)
    case Some(j) =>
      if j == |s| then
        assert s[..j] == s;
        Some(s)
      else if j + 1 == |s| && s[j] == '\n' then
        assert s == s[..j] + "\n";
        Some(s[..j])
      else None
    case None => None
  }

  const ParseErrorPrefix := "Cannot parse arXiv ID from: "

  /** `parse_arxiv_id`: the four patterns in order, URLs first. */
  function ParseArxivId(s: string): (r: Result<string, string>)
    ensures r.Success? ==> (IsId(r.value, NewStyle) || IsId(r.value, OldStyle)) && Contains(s, r.value)
    ensures r.Failure? ==> r.error == ParseErrorPrefix + s
  {
    match SearchUrl(s, NewStyle)
    case Some(x) => Success(x)
    case None =>
      match SearchUrl(s, OldStyle)
      case Some(x) => Success(x)
      case None =>
        match WholeMatch(s, NewStyle)
        case Some(x) => ContainsSlice(s, 0, |x|); assert s[0..|x|] == x; Success(x)
        case None =>
          match WholeMatch(s, OldStyle)
          case Some(x) => ContainsSlice(s, 0, |x|); assert s[0..|x|] == x; Success(x)
          case None => Failure(ParseErrorPrefix + s)
  }

  // ---------------------------------------------------------------------------
  // Properties of the parser
  // ---------------------------------------------------------------------------

  /** No URL pattern matches in a string without a dot. */
  lemma NoUrlWithoutDot(s: string, style: IdStyle)
    requires '.' !in s
    ensures SearchUrl(s, style).None?
  {
    forall p | 0 <= p <= |s|
      ensures UrlHitAt(s, p, style).None?
    {
      NoPrefixAt(s, p);
    }
  }

  /** An identifier given bare parses to itself. */
  lemma BareId(x: string, style: IdStyle)
    requires IsId(x, style)
    ensures ParseArxivId(x) == Success(x)
  {
    var k :| 0 <= k < |x| && IdSplit(x, style, k);
    forall p | 0 <= p <= |x|
      ensures UrlHitAt(x, p, NewStyle).None? && UrlHitAt(x, p, OldStyle).None?
    {
      if style == NewStyle {
        NoPrefixAt(x, p);
      } else {
        assert p + 5 < |x| ==> x[p + 5] != '.';
        NoPrefixAt(x, p);
      }
    }
    assert SearchUrl(x, NewStyle).None? && SearchUrl(x, OldStyle).None?;
    IdEndOf(x, 0, x, style);
    assert x[0..|x|] == x;
    if style == OldStyle {
      assert !IsDigit(x[0]);
    }
  }

  /** Parsing is idempotent: what it returns parses to itself. */
  lemma ParseFixedPoint(s: string)
    requires ParseArxivId(s).Success?
    ensures ParseArxivId(ParseArxivId(s).value) == ParseArxivId(s)
  {
    var x := ParseArxivId(s).value;
    if IsId(x, NewStyle) {
      BareId(x, NewStyle);
    } else {
      BareId(x, OldStyle);
    }
  }

  /** A string parses to itself exactly when it is an identifier. */
  lemma ParseIdentity(x: string)
    ensures ParseArxivId(x) == Success(x) <==> IsId(x, NewStyle) || IsId(x, OldStyle)
  {
    if IsId(x, NewStyle) {
      BareId(x, NewStyle);
    } else if IsId(x, OldStyle) {
      BareId(x, OldStyle);
    }
  }

  /** Without a dot or a slash nothing can be read: `not-an-arxiv-id` is
      refused. */
  lemma NoSeparatorFails(s: string)
    requires '.' !in s && '/' !in s
    ensures ParseArxivId(s) == Failure(ParseErrorPrefix + s)
  {
    NoUrlWithoutDot(s, NewStyle);
    NoUrlWithoutDot(s, OldStyle);
    var a := RunEnd(s, 0, DigitClass);
    var b := RunEnd(s, 0, SlugClass);
    assert a < |s| ==> s[a] != '.';
    assert b < |s| ==> s[b] != '/';
  }

  /** Before a URL prefix written after a dot-free `pre`, no prefix starts. */
  lemma NoPrefixBefore(pre: string, t: string, p: nat)
    requires '.' !in pre && |t| >= 10 && t[..10] == "arxiv.org/" && p < |pre|
    ensures !UrlPrefixAt(pre + t, p)
  {
    var s := pre + t;
    if p + 5 < |pre| {
      assert s[p + 5] == pre[p + 5];
    } else {
      assert s[p + 5] == t[..10][p + 5 - |pre|];
    }
    NoPrefixAt(s, p);
  }

  /** The host name leads the text that follows `pre`. */
  lemma HostFirst(rest: string)
    requires |rest| >= 4 && rest[..4] == "org/"
    ensures ("arxiv." + rest)[..10] == "arxiv.org/"
  {
  }

  /** With no dot after position `d`, no prefix starts after `d - 5`. */
  lemma NoPrefixAfter(s: string, d: nat, p: nat)
    requires forall q :: d < q < |s| ==> s[q] != '.'
    requires d < p + 5
    ensures !UrlPrefixAt(s, p)
  {
    NoPrefixAt(s, p);
  }

  /** An old-style identifier holds no dot. */
  lemma OldIdNoDot(x: string)
    requires IsId(x, OldStyle)
    ensures '.' !in x
  {
    var k :| 0 <= k < |x| && IdSplit(x, OldStyle, k);
    forall j | 0 <= j < |x|
      ensures x[j] != '.'
    {
    }
  }

  /** The URL written as `pre arxiv.org/<kind>/<id> post`. */
  function UrlOf(pre: string, kind: string, x: string, post: string): string {
    pre + ("arxiv." + ("org/" + (kind + ("/" + (x + post)))))
  }

  /** What a well-formed URL needs around the identifier: no dot before the
      host name, one of the three path kinds, and no digit straight after. */
  predicate UrlContext(pre: string, kind: string, post: string) {
    && '.' !in pre
    && (kind == "abs" || kind == "src" || kind == "pdf")
    && (post == "" || !IsDigit(post[0]))
  }

  /** The layout of the URL: the prefix at the host name, the identifier
      after it, and what follows the identifier. */
  lemma UrlLayout(pre: string, kind: string, x: string, post: string)
    requires kind == "abs" || kind == "src" || kind == "pdf"
    ensures var s := UrlOf(pre, kind, x, post);
      && UrlPrefixAt(s, |pre|)
      && |s| == |pre| + 14 + |x| + |post|
      && s[|pre| + 14..|pre| + 14 + |x|] == x
      && (post != "" ==> s[|pre| + 14 + |x|] == post[0])
      && (UrlContext(pre, kind, post) ==> |pre| + 14 + |x| == |s| || !IsDigit(s[|pre| + 14 + |x|]))
  {
    var s := UrlOf(pre, kind, x, post);
    var P := |pre|;
    assert s[P..P + 10] == "arxiv.org/";
    assert s[P + 10..P + 13] == kind;
    assert s[P + 13] == '/';
    assert s[P + 14..P + 14 + |x|] == x;
    if post != "" {
      assert s[P + 14 + |x|] == post[0];
    }
  }

  /** A URL prefix at `p` followed by an identifier the pattern matches
      exactly gives that identifier. */
  lemma HitOfIdEnd(s: string, p: nat, x: string, style: IdStyle)
    requires UrlPrefixAt(s, p) && p + 14 + |x| <= |s| && s[p + 14..p + 14 + |x|] == x
    requires IdEnd(s, p + 14, style) == Some(p + 14 + |x|)
    ensures UrlHitAt(s, p, style) == Some(x)
  {
  }

  /** A URL prefix followed by an identifier and then no digit: the pattern
      matches there and captures the identifier. */
  lemma HitAtLayout(s: string, p: nat, x: string, style: IdStyle)
    requires UrlPrefixAt(s, p) && p + 14 + |x| <= |s| && s[p + 14..p + 14 + |x|] == x && IsId(x, style)
    requires p + 14 + |x| == |s| || !IsDigit(s[p + 14 + |x|])
    ensures UrlHitAt(s, p, style) == Some(x)
  {
    IdEndOf(s, p + 14, x, style);
    HitOfIdEnd(s, p, x, style);
  }

  /** The URL pattern of `style` matches at the host name and captures the
      identifier. */
  lemma UrlHitAtHost(pre: string, kind: string, x: string, post: string, style: IdStyle)
    requires UrlContext(pre, kind, post) && IsId(x, style)
    ensures UrlHitAt(UrlOf(pre, kind, x, post), |pre|, style) == Some(x)
  {
    UrlLayout(pre, kind, x, post);
    HitAtLayout(UrlOf(pre, kind, x, post), |pre|, x, style);
  }

  /** No URL prefix starts before the host name when `pre` has no dot. */
  lemma NoPrefixBeforeHost(pre: string, kind: string, x: string, post: string)
    requires '.' !in pre
    ensures forall p :: 0 <= p < |pre| ==> !UrlPrefixAt(UrlOf(pre, kind, x, post), p)
  {
    var rest := "org/" + (kind + ("/" + (x + post)));
    assert rest[..4] == "org/";
    HostFirst(rest);
    forall p | 0 <= p < |pre|
      ensures !UrlPrefixAt(pre + ("arxiv." + rest), p)
    {
      NoPrefixBefore(pre, "arxiv." + rest, p);
    }
  }

  /** With no dot in the identifier or after it, no URL prefix starts after
      the host name. */
  lemma NoPrefixAfterHost(pre: string, kind: string, x: string, post: string)
    requires (kind == "abs" || kind == "src" || kind == "pdf") && '.' !in x && '.' !in post
    ensures forall p :: |pre| < p ==> !UrlPrefixAt(UrlOf(pre, kind, x, post), p)
  {
    var s := UrlOf(pre, kind, x, post);
    var P := |pre|;
    UrlLayout(pre, kind, x, post);
    var u := "org/" + (kind + ("/" + (x + post)));
    assert '.' !in u;
    forall q | P + 5 < q < |s|
      ensures s[q] != '.'
    {
      assert s[q] == u[q - P - 6];
    }
    forall p | P < p
      ensures !UrlPrefixAt(s, p)
    {
      NoPrefixAfter(s, P + 5, p);
    }
  }

  /** The leftmost hit is the one at `P` when no prefix starts before it. */
  lemma LeftmostHit(s: string, P: nat, x: string, style: IdStyle)
    requires P <= |s| && UrlHitAt(s, P, style) == Some(x)
    requires forall p :: 0 <= p < P ==> !UrlPrefixAt(s, p)
    ensures SearchUrl(s, style) == Some(x)
  {
    FirstHitAt(UrlHits(s, style), 0, P);
  }

  /** Where the only prefix is followed by something other than a digit,
      the new-style URL pattern matches nowhere. */
  lemma NoNewStyleHit(s: string, P: nat)
    requires P + 14 < |s| && !IsDigit(s[P + 14])
    requires forall p :: 0 <= p <= |s| && p != P ==> !UrlPrefixAt(s, p)
    ensures SearchUrl(s, NewStyle).None?
  {
    assert RunEnd(s, P + 14, DigitClass) == P + 14;
    assert forall p :: 0 <= p <= |s| ==> UrlHitAt(s, p, NewStyle).None?;
  }

  /** A new-style identifier in an `arxiv.org/abs|src|pdf/` URL is read out
      of it. */
  lemma UrlNewId(pre: string, kind: string, x: string, post: string)
    requires UrlContext(pre, kind, post) && IsId(x, NewStyle)
    ensures ParseArxivId(UrlOf(pre, kind, x, post)) == Success(x)
  {
    UrlHitAtHost(pre, kind, x, post, NewStyle);
    NoPrefixBeforeHost(pre, kind, x, post);
    LeftmostHit(UrlOf(pre, kind, x, post), |pre|, x, NewStyle);
  }

  /** So is an old-style identifier, when no dot follows the host name: the
      new-style URL pattern, tried first, then matches nowhere. */
  lemma UrlOldId(pre: string, kind: string, x: string, post: string)
    requires UrlContext(pre, kind, post) && IsId(x, OldStyle) && '.' !in post
    ensures ParseArxivId(UrlOf(pre, kind, x, post)) == Success(x)
  {
    var s := UrlOf(pre, kind, x, post);
    var P := |pre|;
    UrlHitAtHost(pre, kind, x, post, OldStyle);
    NoPrefixBeforeHost(pre, kind, x, post);
    OldIdNoDot(x);
    NoPrefixAfterHost(pre, kind, x, post);
    UrlLayout(pre, kind, x, post);
    var k :| 0 <= k < |x| && IdSplit(x, OldStyle, k);
    assert s[P + 14] == x[0];
    NoNewStyleHit(s, P);
    LeftmostHit(s, P, x, OldStyle);
  }

  /** A bare new-style identifier. */
  lemma ExampleBareNew()
    ensures ParseArxivId("2312.07511") == Success("2312.07511")
  {
    assert IdSplit("2312.07511", NewStyle, 4);
    BareId("2312.07511", NewStyle);
  }

  /** A bare old-style identifier. */
  lemma ExampleBareOld()
    ensures ParseArxivId("hep-th/9901001") == Success("hep-th/9901001")
  {
    assert IdSplit("hep-th/9901001", OldStyle, 6);
    BareId("hep-th/9901001", OldStyle);
  }

  /** `https://arxiv.org/abs/2312.07511`, a URL holding a new-style identifier. */
  lemma ExampleUrlNew()
    ensures ParseArxivId(UrlOf("https://", "abs", "2312.07511", "")) == Success("2312.07511")
  {
    assert IdSplit("2312.07511", NewStyle, 4);
    assert UrlContext("https://", "abs", "");
    UrlNewId("https://", "abs", "2312.07511", "");
  }

  /** `https://arxiv.org/abs/hep-th/9901001`, a URL holding an old-style identifier. */
  lemma ExampleUrlOld()
    ensures ParseArxivId(UrlOf("https://", "abs", "hep-th/9901001", "")) == Success("hep-th/9901001")
  {
    assert IdSplit("hep-th/9901001", OldStyle, 6);
    assert UrlContext("https://", "abs", "");
    UrlOldId("https://", "abs", "hep-th/9901001", "");
  }

  /** A word with no identifier in it is refused. */
  lemma ExampleRefused()
    ensures ParseArxivId("not-an-arxiv-id").Failure?
  {
    NoSeparatorFails("not-an-arxiv-id");
  }

  // ---------------------------------------------------------------------------
  // The main file
  // ---------------------------------------------------------------------------

  /** A `.tex` file found under the source directory, in the order the
      directory walk yields them; `content` is `None` when reading fails. */
  datatype TexFile = TexFile(path: string, content: Option<string>)

  /** The conventional main file names, by priority. */
  const MainNames: seq<string> :=
    ["main.tex", "main_v2.tex", "main_v1.tex", "paper.tex", "article.tex", "manuscript.tex", "book.tex"]

  /** The files' own names, lower-cased, in file order. */
  function Keys(files: seq<TexFile>): (keys: seq<string>)
    ensures |keys| == |files|
    ensures forall j :: 0 <= j < |files| ==> keys[j] == Lower(BaseName(files[j].path))
  {
    seq(|files|, j requires 0 <= j < |files| => Lower(BaseName(files[j].path)))
  }

  /** The first of `names` from the `k`-th on that some key equals, ignoring
      case, with the first position holding it. */
  function ByName(keys: seq<string>, names: seq<string>, k: nat): (r: Option<(nat, nat)>)
    requires k <= |names|
    ensures r.Some? ==> k <= r.value.0 < |names| && r.value.1 < |keys|
    ensures r.Some? ==> keys[r.value.1] == Lower(names[r.value.0]) && Lower(names[r.value.0]) !in keys[..r.value.1]
    ensures r.Some? ==> forall n :: k <= n < r.value.0 ==> Lower(names[n]) !in keys
    ensures r.None? ==> forall n :: k <= n < |names| ==> Lower(names[n]) !in keys
    decreases |names| - k
  {
    if k == |names| then None
    else if Lower(names[k]) in keys then Some((k, IndexOf(keys, Lower(names[k]))))
    else ByName(keys, names, k + 1)
  }

  /** A readable file that declares `\documentclass`. */
  predicate IsCandidate(f: TexFile) {
    f.content.Some? && Contains(f.content.value, "\\documentclass")
  }

  /** How often `\input` occurs in a readable file. */
  function InputCount(f: TexFile): nat
    requires f.content.Some?
  {
    CountOcc(f.content.value, "\\input")
  }

  /** The candidate from `i` on with the most `\input`s, the earliest of
      those when several tie: the head of the candidates sorted by that count,
      largest first, by a stable sort. */
  function BestCandidate(files: seq<TexFile>, i: nat): (r: Option<nat>)
    requires i <= |files|
    ensures r.Some? ==> i <= r.value < |files| && IsCandidate(files[r.value])
    ensures r.Some? ==> forall j :: i <= j < |files| && IsCandidate(files[j]) ==> InputCount(files[j]) <= InputCount(files[r.value])
    ensures r.Some? ==> forall j :: i <= j < r.value && IsCandidate(files[j]) ==> InputCount(files[j]) < InputCount(files[r.value])
    ensures r.None? <==> forall j :: i <= j < |files| ==> !IsCandidate(files[j])
    decreases |files| - i
  {
    if i == |files| then None
    else
      var rest := BestCandidate(files, i + 1);
      if !IsCandidate(files[i]) then rest
      else match rest
        case None => Some(i)
        case Some(j) => if InputCount(files[i]) >= InputCount(files[j]) then Some(i) else Some(j)
  }

  const NoTexPrefix := "No .tex files found in "

  /** The selection of `find_main_tex` for the name list `names`: the first
      name some file carries, then the `\\documentclass` file with the most
      `\\input`s, then the first file. */
  function SelectMain(srcDir: string, files: seq<TexFile>, names: seq<string>): (r: Result<string, string>)
    ensures r.Failure? <==> |files| == 0
    ensures r.Failure? ==> r.error == NoTexPrefix + srcDir
    ensures r.Success? ==> exists f :: 0 <= f < |files| && files[f].path == r.value
  {
    if |files| == 0 then Failure(NoTexPrefix + srcDir)
    else match ByName(Keys(files), names, 0)
      case Some(hit) => Success(files[hit.1].path)
      case None =>
        match BestCandidate(files, 0)
        case Some(f) => Success(files[f].path)
        case None => Success(files[0].path)
  }

  /** `find_main_tex`, with the conventional names. */
  function FindMainTex(srcDir: string, files: seq<TexFile>): (r: Result<string, string>)
    ensures r.Failure? <==> |files| == 0
    ensures r.Success? ==> exists f :: 0 <= f < |files| && files[f].path == r.value
  {
    SelectMain(srcDir, files, MainNames)
  }

  /** The earliest name present wins, and among the files carrying it the
      first. */
  lemma NameChosen(srcDir: string, files: seq<TexFile>, names: seq<string>, k: nat, f: nat)
    requires k < |names| && f < |files| && Keys(files)[f] == Lower(names[k])
    requires forall n :: 0 <= n < k ==> Lower(names[n]) !in Keys(files)
    requires Lower(names[k]) !in Keys(files)[..f]
    ensures SelectMain(srcDir, files, names) == Success(files[f].path)
  {
    var keys := Keys(files);
    var x := Lower(names[k]);
    assert x in keys;
    var r := ByName(keys, names, 0);
    assert r.Some? && r.value.0 == k;
    IndexOfAt(keys, x, f);
    IndexOfAt(keys, x, r.value.1);
  }

  /** Without a name present, the candidate with the most `\\input`s wins,
      the earliest among ties. */
  lemma MostInputsChosen(srcDir: string, files: seq<TexFile>, names: seq<string>, f: nat)
    requires forall n :: 0 <= n < |names| ==> Lower(names[n]) !in Keys(files)
    requires f < |files| && IsCandidate(files[f])
    requires forall j :: 0 <= j < |files| && IsCandidate(files[j]) ==> InputCount(files[j]) <= InputCount(files[f])
    requires forall j :: 0 <= j < f && IsCandidate(files[j]) ==> InputCount(files[j]) < InputCount(files[f])
    ensures SelectMain(srcDir, files, names) == Success(files[f].path)
  {
    var b := BestCandidate(files, 0);
    assert b == Some(f);
  }

  /** With no name present and no `\\documentclass`, the first file is
      taken. */
  lemma FirstFileFallback(srcDir: string, files: seq<TexFile>, names: seq<string>)
    requires |files| > 0
    requires forall n :: 0 <= n < |names| ==> Lower(names[n]) !in Keys(files)
    requires forall j :: 0 <= j < |files| ==> !IsCandidate(files[j])
    ensures SelectMain(srcDir, files, names) == Success(files[0].path)
  {
  }

  /** A file named `main.tex`, in any case, is the main file; the first one
      when there are several. */
  lemma MainTexChosen(srcDir: string, files: seq<TexFile>, f: nat)
    requires f < |files| && Keys(files)[f] == "main.tex" && "main.tex" !in Keys(files)[..f]
    ensures FindMainTex(srcDir, files) == Success(files[f].path)
  {
    var name := MainNames[0];
    assert name == "main.tex";
    assert Lower(name) == name;
    NameChosen(srcDir, files, MainNames, 0, f);
  }
}
