/** The per-file index of a split paper (scripts/build_index.py): counts of
    equation, figure and table environments, emphasised and defined key
    terms, a reading-time estimate, the metadata recovered from the file
    name, and the totals over all files. */
module BuildIndex {
  import opened Wrappers
  import opened Text
  import opened Scan
  import opened Terms
  import opened Order
  import Paths
  import Writer
  import Sections

  // ---------------------------------------------------------------------------
  // Environment counters
  // ---------------------------------------------------------------------------

  lemma BeginEquationFacts()
    ensures EquationCommand("\\begin{equation}") && EquationStarts("\\begin{equation}") == 1
  {
    assert "\\begin{equation}"[7] != "\\begin{align"[7];
    assert "\\begin{equation}"[9] != "\\begin{eqnarray"[9];
    assert "\\begin{equation}"[0] != "$$"[0];
    assert "\\begin{equation}"[1] != "\\["[1];
  }

  /** `count_equations`: the non-overlapping occurrences of the five
      literal prefixes, added up. */
  function CountEquations(content: string): (n: nat)
    ensures '\\' !in content && '$' !in content ==> n == 0
  {
    assert '\\' !in content && '$' !in content ==>
      CountOcc(content, "\\begin{equation") + CountOcc(content, "\\begin{align")
        + CountOcc(content, "\\begin{eqnarray") + CountOcc(content, "$$") + CountOcc(content, "\\[") == 0 by {
      if '\\' !in content && '$' !in content {
        CountOccAbsent(content, "\\begin{equation");
        CountOccAbsent(content, "\\begin{align");
        CountOccAbsent(content, "\\begin{eqnarray");
        CountOccAbsent(content, "$$");
        CountOccAbsent(content, "\\[");
      }
    }
    CountOcc(content, "\\begin{equation") + CountOcc(content, "\\begin{align")
      + CountOcc(content, "\\begin{eqnarray") + CountOcc(content, "$$") + CountOcc(content, "\\[")
  }

  const FigurePattern: string := "\\begin{figure"
  const TablePattern: string := "\\begin{table"

  function CountFigures(content: string): (n: nat)
    ensures '\\' !in content ==> n == 0
  {
    assert '\\' !in content ==> CountOcc(content, FigurePattern) == 0 by {
      if '\\' !in content { CountOccAbsent(content, FigurePattern); }
    }
    CountOcc(content, FigurePattern)
  }

  function CountTables(content: string): (n: nat)
    ensures '\\' !in content ==> n == 0
  {
    assert '\\' !in content ==> CountOcc(content, TablePattern) == 0 by {
      if '\\' !in content { CountOccAbsent(content, TablePattern); }
    }
    CountOcc(content, TablePattern)
  }

  /** Each equation pattern can begin inside `c` only at its first
      character (see `Text.Command`). */
  predicate EquationCommand(c: string) {
    && Command(c, "\\begin{equation") && Command(c, "\\begin{align")
    && Command(c, "\\begin{eqnarray") && Command(c, "$$") && Command(c, "\\[")
  }

  /** How many of the equation patterns `c` starts with. */
  function EquationStarts(c: string): nat {
    (if StartsWith(c, "\\begin{equation") then 1 else 0) + (if StartsWith(c, "\\begin{align") then 1 else 0)
      + (if StartsWith(c, "\\begin{eqnarray") then 1 else 0) + (if StartsWith(c, "$$") then 1 else 0)
      + (if StartsWith(c, "\\[") then 1 else 0)
  }

  /** Text free of backslashes and dollar signs: a body between commands. */
  predicate Plain(t: string) { '\\' !in t && '$' !in t }

  /** A plain prefix, a command and a plain body contribute exactly the
      patterns the command starts with. */
  lemma CountEquationsCons(pre: string, c: string, body: string, rest: string)
    requires Plain(pre) && Plain(body) && EquationCommand(c)
    ensures CountEquations(pre + c + body + rest) == EquationStarts(c) + CountEquations(rest)
  {
    var t := c + body + rest;
    assert pre + c + body + rest == pre + t;
    CountOccSkip(pre, t, "\\begin{equation");
    CountOccSkip(pre, t, "\\begin{align");
    CountOccSkip(pre, t, "\\begin{eqnarray");
    CountOccSkip(pre, t, "$$");
    CountOccSkip(pre, t, "\\[");
    CountOccCommand(c, body, rest, "\\begin{equation");
    CountOccCommand(c, body, rest, "\\begin{align");
    CountOccCommand(c, body, rest, "\\begin{eqnarray");
    CountOccCommand(c, body, rest, "$$");
    CountOccCommand(c, body, rest, "\\[");
  }

  /** A backslash-free prefix, a command and a backslash-free body
      contribute one figure exactly when the command opens a figure. */
  lemma CountFiguresCons(pre: string, c: string, body: string, rest: string)
    requires '\\' !in pre && '\\' !in body && Command(c, FigurePattern)
    ensures CountFigures(pre + c + body + rest)
      == (if StartsWith(c, FigurePattern) then 1 else 0) + CountFigures(rest)
  {
    CountOccCons(pre, c, body, rest, FigurePattern);
  }

  /** A backslash-free prefix, a command and a backslash-free body
      contribute one table exactly when the command opens a table. */
  lemma CountTablesCons(pre: string, c: string, body: string, rest: string)
    requires '\\' !in pre && '\\' !in body && Command(c, TablePattern)
    ensures CountTables(pre + c + body + rest)
      == (if StartsWith(c, TablePattern) then 1 else 0) + CountTables(rest)
  {
    CountOccCons(pre, c, body, rest, TablePattern);
  }

  // ---------------------------------------------------------------------------
  // The environment counts of the test suite's examples
  // ---------------------------------------------------------------------------

  /** A command whose second character is neither `b` nor `[`, with no
      further backslash or dollar sign (`\end{...}`, `\]`), starts none of
      the equation patterns. */
  lemma ClosingFacts(c: string)
    requires |c| >= 2 && c[0] == '\\' && c[1] != 'b' && c[1] != '['
    requires '\\' !in c[1..] && '$' !in c[1..]
    ensures EquationCommand(c) && EquationStarts(c) == 0
  {
    assert c[1] != "\\begin{equation"[1] && c[1] != "\\begin{align"[1];
    assert c[1] != "\\begin{eqnarray"[1] && c[1] != "\\["[1] && c[0] != "$$"[0];
  }

  /** `\begin{equation}` opens one equation. */
  lemma BeginEquationStep(pre: string, body: string, rest: string)
    requires Plain(pre) && Plain(body)
    ensures CountEquations(pre + "\\begin{equation}" + body + rest) == 1 + CountEquations(rest)
  {
    BeginEquationFacts();
    CountEquationsCons(pre, "\\begin{equation}", body, rest);
  }

  /** A closing command (`\\end{...}`, `\\]`) counts nothing. */
  lemma ClosingStep(c: string, pre: string, body: string, rest: string)
    requires |c| >= 2 && c[0] == '\\' && c[1] != 'b' && c[1] != '['
    requires '\\' !in c[1..] && '$' !in c[1..]
    requires Plain(pre) && Plain(body)
    ensures CountEquations(pre + c + body + rest) == CountEquations(rest)
  {
    ClosingFacts(c);
    CountEquationsCons(pre, c, body, rest);
  }

  lemma BeginAlignFacts()
    ensures EquationCommand("\\begin{align}") && EquationStarts("\\begin{align}") == 1
  {
    assert "\\begin{align}"[7] != "\\begin{equation"[7];
    assert "\\begin{align}"[7] != "\\begin{eqnarray"[7];
    assert "\\begin{align}"[0] != "$$"[0];
    assert "\\begin{align}"[1] != "\\["[1];
  }

  /** `\begin{align}` opens one equation. */
  lemma BeginAlignStep(pre: string, body: string, rest: string)
    requires Plain(pre) && Plain(body)
    ensures CountEquations(pre + "\\begin{align}" + body + rest) == 1 + CountEquations(rest)
  {
    BeginAlignFacts();
    CountEquationsCons(pre, "\\begin{align}", body, rest);
  }

  lemma DoubleDollarFacts()
    ensures EquationCommand("$$") && EquationStarts("$$") == 1
  {
    assert "$$"[0] != "\\begin{equation"[0];
    assert "$$"[0] != "\\begin{align"[0];
    assert "$$"[0] != "\\begin{eqnarray"[0];
    assert "$$"[0] != "\\["[0];
  }

  /** Each `$$`, opening or closing, counts one. */
  lemma DoubleDollarStep(pre: string, body: string, rest: string)
    requires Plain(pre) && Plain(body)
    ensures CountEquations(pre + "$$" + body + rest) == 1 + CountEquations(rest)
  {
    DoubleDollarFacts();
    CountEquationsCons(pre, "$$", body, rest);
  }

  lemma OpenBracketFacts()
    ensures EquationCommand("\\[") && EquationStarts("\\[") == 1
  {
    assert "\\["[1] != "\\begin{equation"[1];
    assert "\\["[1] != "\\begin{align"[1];
    assert "\\["[1] != "\\begin{eqnarray"[1];
    assert "\\["[0] != "$$"[0];
  }

  /** `\[` counts one. */
  lemma OpenBracketStep(pre: string, body: string, rest: string)
    requires Plain(pre) && Plain(body)
    ensures CountEquations(pre + "\\[" + body + rest) == 1 + CountEquations(rest)
  {
    OpenBracketFacts();
    CountEquationsCons(pre, "\\[", body, rest);
  }

  /** An `equation` environment adds one. */
  lemma EquationPair(pre: string, body: string, post: string, rest: string)
    requires Plain(pre) && Plain(body) && Plain(post)
    ensures CountEquations(pre + "\\begin{equation}" + body + "\\end{equation}" + post + rest) == 1 + CountEquations(rest)
  {
    ClosingStep("\\end{equation}", "", post, rest);
    EmptyLeft("\\end{equation}");
    BeginEquationStep(pre, body, "\\end{equation}" + post + rest);
    Regroup3(pre + "\\begin{equation}" + body, "\\end{equation}", post, rest);
  }

  /** An `align` environment adds one. */
  lemma AlignPair(pre: string, body: string, post: string, rest: string)
    requires Plain(pre) && Plain(body) && Plain(post)
    ensures CountEquations(pre + "\\begin{align}" + body + "\\end{align}" + post + rest) == 1 + CountEquations(rest)
  {
    ClosingStep("\\end{align}", "", post, rest);
    EmptyLeft("\\end{align}");
    BeginAlignStep(pre, body, "\\end{align}" + post + rest);
    Regroup3(pre + "\\begin{align}" + body, "\\end{align}", post, rest);
  }

  /** A `$$...$$` pair adds two. */
  lemma DollarPair(pre: string, body: string, post: string, rest: string)
    requires Plain(pre) && Plain(body) && Plain(post)
    ensures CountEquations(pre + "$$" + body + "$$" + post + rest) == 2 + CountEquations(rest)
  {
    DoubleDollarStep("", post, rest);
    EmptyLeft("$$");
    DoubleDollarStep(pre, body, "$$" + post + rest);
    Regroup3(pre + "$$" + body, "$$", post, rest);
  }

  /** A `\[...\]` pair adds one. */
  lemma BracketPair(pre: string, body: string, post: string, rest: string)
    requires Plain(pre) && Plain(body) && Plain(post)
    ensures CountEquations(pre + "\\[" + body + "\\]" + post + rest) == 1 + CountEquations(rest)
  {
    ClosingStep("\\]", "", post, rest);
    EmptyLeft("\\]");
    OpenBracketStep(pre, body, "\\]" + post + rest);
    Regroup3(pre + "\\[" + body, "\\]", post, rest);
  }

  /** One `equation` environment between plain text counts once. */
  lemma EquationEnvironmentCountsOnce(pre: string, body: string, post: string)
    requires Plain(pre) && Plain(body) && Plain(post)
    ensures CountEquations(pre + "\\begin{equation}" + body + "\\end{equation}" + post) == 1
  {
    EquationPair(pre, body, post, "");
    assert pre + "\\begin{equation}" + body + "\\end{equation}" + post + "" == pre + "\\begin{equation}" + body + "\\end{equation}" + post;
  }

  /** One `align` environment between plain text counts once. */
  lemma AlignEnvironmentCountsOnce(pre: string, body: string, post: string)
    requires Plain(pre) && Plain(body) && Plain(post)
    ensures CountEquations(pre + "\\begin{align}" + body + "\\end{align}" + post) == 1
  {
    AlignPair(pre, body, post, "");
    assert pre + "\\begin{align}" + body + "\\end{align}" + post + "" == pre + "\\begin{align}" + body + "\\end{align}" + post;
  }

  /** `$$a$$ b \[c\] d`: each `$$` counts, and so does `\[`. */
  lemma DisplayMathCounts(a: string, b: string, c: string, d: string)
    requires Plain(a) && Plain(b) && Plain(c) && Plain(d)
    ensures CountEquations("$$" + a + "$$" + b + "\\[" + c + "\\]" + d) == 3
  {
    var t := "\\[" + c + "\\]" + d;
    BracketPair("", c, d, "");
    EmptyLeft("\\[");
    EmptyRight(t);
    DollarPair("", a, b, t);
    EmptyLeft("$$");
    Regroup4("$$" + a + "$$" + b, "\\[", c, "\\]", d);
  }

  /** An equation, an align environment and a `$$` pair count four. */
  lemma MixedEnvironmentsCount(pre: string, a: string, b: string, c: string, post: string)
    requires Plain(pre) && Plain(a) && Plain(b) && Plain(c) && Plain(post)
    ensures CountEquations(pre + "\\begin{equation}" + a + "\\end{equation}" + "\n" + "\\begin{align}" + b
                           + "\\end{align}" + "\n" + "$$" + c + "$$" + post) == 4
  {
    var t2 := "$$" + c + "$$" + post;
    DollarPair("", c, post, "");
    EmptyLeft("$$");
    EmptyRight(t2);
    var t1 := "\\begin{align}" + b + "\\end{align}" + "\n" + t2;
    AlignPair("", b, "\n", t2);
    EmptyLeft("\\begin{align}");
    EquationPair(pre, a, "\n", t1);
    var x := pre + "\\begin{equation}" + a + "\\end{equation}" + "\n";
    Regroup5(x, "\\begin{align}", b, "\\end{align}", "\n", t2);
    Regroup4(x + "\\begin{align}" + b + "\\end{align}" + "\n", "$$", c, "$$", post);
  }

  // ---------------------------------------------------------------------------
  // Figure and table counts of the test suite's examples
  // ---------------------------------------------------------------------------

  lemma FigureFacts()
    ensures Command("\\begin{figure}", FigurePattern) && StartsWith("\\begin{figure}", FigurePattern)
    ensures Command("\\end{figure}", FigurePattern) && !StartsWith("\\end{figure}", FigurePattern)
  {
    assert "\\end{figure}"[1] != FigurePattern[1];
  }

  /** A figure environment between backslash-free text adds one. */
  lemma FigurePair(pre: string, body: string, post: string, rest: string)
    requires '\\' !in pre && '\\' !in body && '\\' !in post
    ensures CountFigures(pre + "\\begin{figure}" + body + "\\end{figure}" + post + rest) == 1 + CountFigures(rest)
  {
    FigureFacts();
    CountOccCons("", "\\end{figure}", post, rest, FigurePattern);
    EmptyLeft("\\end{figure}");
    CountOccCons(pre, "\\begin{figure}", body, "\\end{figure}" + post + rest, FigurePattern);
    Regroup3(pre + "\\begin{figure}" + body, "\\end{figure}", post, rest);
  }

  /** Two figure environments count two. */
  lemma TwoFiguresCountTwo(pre: string, a: string, b: string, c: string, d: string)
    requires '\\' !in pre && '\\' !in a && '\\' !in b && '\\' !in c && '\\' !in d
    ensures CountFigures(pre + "\\begin{figure}" + a + "\\end{figure}" + b
                         + "\\begin{figure}" + c + "\\end{figure}" + d) == 2
  {
    var t := "\\begin{figure}" + c + "\\end{figure}" + d;
    FigurePair("", c, d, "");
    EmptyLeft("\\begin{figure}");
    EmptyRight(t);
    FigurePair(pre, a, b, t);
    Regroup4(pre + "\\begin{figure}" + a + "\\end{figure}" + b, "\\begin{figure}", c, "\\end{figure}", d);
  }

  lemma TableFacts()
    ensures Command("\\begin{table}", TablePattern) && StartsWith("\\begin{table}", TablePattern)
    ensures Command("\\end{table}", TablePattern) && !StartsWith("\\end{table}", TablePattern)
  {
    assert "\\end{table}"[1] != TablePattern[1];
  }

  /** `\begin{tabular}` first differs from the table prefix at its eleventh
      character, so it is not counted. */
  lemma TabularFacts()
    ensures Command("\\begin{tabular}", TablePattern) && !StartsWith("\\begin{tabular}", TablePattern)
    ensures Command("\\end{tabular}", TablePattern) && !StartsWith("\\end{tabular}", TablePattern)
  {
    assert "\\begin{tabular}"[10] != TablePattern[10];
    assert "\\end{tabular}"[1] != TablePattern[1];
  }

  /** A tabular environment and a closing `\end{table}` count nothing. */
  lemma TableTailCountsNothing(b: string, c: string, d: string)
    requires '\\' !in b && '\\' !in c && '\\' !in d
    ensures CountTables("\\begin{tabular}" + b + "\\end{tabular}" + c + "\\end{table}" + d) == 0
  {
    TableFacts();
    TabularFacts();
    var t3 := "\\end{table}" + d;
    CountOccCons("", "\\end{table}", d, "", TablePattern);
    EmptyLeft("\\end{table}");
    EmptyRight(t3);
    var t2 := "\\end{tabular}" + c + t3;
    CountOccCons("", "\\end{tabular}", c, t3, TablePattern);
    EmptyLeft("\\end{tabular}");
    CountOccCons("", "\\begin{tabular}", b, t2, TablePattern);
    EmptyLeft("\\begin{tabular}");
    Regroup3("\\begin{tabular}" + b, "\\end{tabular}", c, t3);
    Regroup2("\\begin{tabular}" + b + "\\end{tabular}" + c, "\\end{table}", d);
  }

  /** A table wrapping a tabular counts once. */
  lemma TableWithTabularCountsOne(pre: string, a: string, b: string, c: string, d: string)
    requires '\\' !in pre && '\\' !in a && '\\' !in b && '\\' !in c && '\\' !in d
    ensures CountTables(pre + "\\begin{table}" + a + "\\begin{tabular}" + b + "\\end{tabular}" + c
                        + "\\end{table}" + d) == 1
  {
    TableFacts();
    var t := "\\begin{tabular}" + b + "\\end{tabular}" + c + "\\end{table}" + d;
    TableTailCountsNothing(b, c, d);
    CountOccCons(pre, "\\begin{table}", a, t, TablePattern);
    Regroup6(pre + "\\begin{table}" + a, "\\begin{tabular}", b, "\\end{tabular}", c, "\\end{table}", d);
  }

  // ---------------------------------------------------------------------------
  // Key terms
  // ---------------------------------------------------------------------------

  /** The commands whose argument is a candidate term, in the order of the
      alternation `\\(?:textbf|emph|textit)\{([^}]+)\}`. */
  const EmphasisCommands: seq<string> := ["textbf", "emph", "textit"]

  /** The words that introduce a defined term. */
  const DefiningWords: seq<string> := ["called", "denoted", "defined as", "known as"]

  /** The end of the first of `words` found at `i`. */
  function DefiningWordAt(s: string, i: nat, words: seq<string>): (r: Option<nat>)
    requires forall w :: w in words ==> w != ""
    ensures r.Some? ==> i < r.value <= |s|
    ensures r.Some? ==> exists w :: w in words && At(s, i, w) && r.value == i + |w|
    ensures r.None? ==> forall w :: w in words ==> !At(s, i, w)
    decreases |words|
  {
    if |words| == 0 then None
    else if At(s, i, words[0]) then
      assert words[0] in words;
      Some(i + |words[0]|)
    else
      assert forall w :: w in words[1..] ==> w in words;
      DefiningWordAt(s, i, words[1..])
  }

  /** End of the run of lower-case letters starting at `i` (`[a-z]*`). */
  function LowerRunEnd(s: string, i: nat): (j: nat)
    requires i <= |s|
    ensures i <= j <= |s|
    ensures forall k :: i <= k < j ==> IsLowerLetter(s[k])
    ensures j == |s| || !IsLowerLetter(s[j])
    decreases |s| - i
  {
    if i < |s| && IsLowerLetter(s[i]) then LowerRunEnd(s, i + 1) else i
  }

  /** `[A-Z][a-z]+` at `i`, taking every following lower-case letter. */
  function CapWordAt(s: string, i: nat): (r: Option<nat>)
    requires i <= |s|
    ensures r.Some? ==> i + 2 <= r.value <= |s| && IsUpper(s[i])
    ensures r.Some? ==> forall k :: i < k < r.value ==> IsLowerLetter(s[k])
    ensures r.Some? ==> r.value == |s| || !IsLowerLetter(s[r.value])
    ensures r.None? <==> !(i + 1 < |s| && IsUpper(s[i]) && IsLowerLetter(s[i + 1]))
  {
    if i + 1 < |s| && IsUpper(s[i]) && IsLowerLetter(s[i + 1]) then Some(LowerRunEnd(s, i + 1)) else None
  }

  /** One capitalised word: `[A-Z][a-z]+`. */
  predicate CapWord(w: string) {
    |w| >= 2 && IsUpper(w[0]) && forall k :: 1 <= k < |w| ==> IsLowerLetter(w[k])
  }

  /** Capitalised words separated by whitespace: what a defined phrase
      looks like. */
  predicate PhraseShape(t: string) {
    && |t| >= 2 && IsUpper(t[0]) && IsLowerLetter(t[|t| - 1])
    && forall k :: 0 <= k < |t| ==> IsLetter(t[k]) || IsSpace(t[k])
  }

  /** `(?:\s+[A-Z][a-z]+)*` after a word ending at `j`: as many further
      words as follow. */
  function PhraseEnd(s: string, j: nat): (e: nat)
    requires j <= |s|
    ensures j <= e <= |s|
    ensures forall k :: j <= k < e ==> IsLetter(s[k]) || IsSpace(s[k])
    ensures e > j ==> IsLowerLetter(s[e - 1])
    decreases |s| - j
  {
    var a := SpaceRunEnd(s, j);
    if a == j then j
    else
      match CapWordAt(s, a)
      case Some(b) => PhraseEnd(s, b)
      case None => j
  }

  /** A capitalised word at `b` and the words that follow it form a phrase. */
  lemma PhraseShapeAt(s: string, b: nat, c: nat)
    requires b <= |s| && CapWordAt(s, b) == Some(c)
    ensures b < PhraseEnd(s, c) && PhraseShape(s[b..PhraseEnd(s, c)])
  {
    PhraseShapeOf(s, b, c, PhraseEnd(s, c));
  }

  /** A capitalised word from `b` to `c`, then letters and whitespace up to
      `e` ending in a lower-case letter, form a phrase. */
  lemma PhraseShapeOf(s: string, b: nat, c: nat, e: nat)
    requires b + 2 <= c <= e <= |s| && IsUpper(s[b])
    requires forall k :: b < k < c ==> IsLowerLetter(s[k])
    requires forall k :: c <= k < e ==> IsLetter(s[k]) || IsSpace(s[k])
    requires e > c ==> IsLowerLetter(s[e - 1])
    ensures PhraseShape(s[b..e])
  {
    var t := s[b..e];
    assert t[0] == s[b];
    assert t[|t| - 1] == s[e - 1];
    assert IsLowerLetter(s[e - 1]) by {
      if e == c {
        assert b < c - 1;
      }
    }
    forall k | b <= k < e ensures IsLetter(s[k]) || IsSpace(s[k]) {
      if b < k < c {
        assert IsLowerLetter(s[k]);
      }
    }
    LettersOfSlice(s, b, e);
  }

  /** A stretch of letters and whitespace, cut out. */
  lemma LettersOfSlice(s: string, b: nat, e: nat)
    requires b <= e <= |s|
    requires forall k :: b <= k < e ==> IsLetter(s[k]) || IsSpace(s[k])
    ensures forall m :: 0 <= m < e - b ==> IsLetter(s[b..e][m]) || IsSpace(s[b..e][m])
  {
    forall m | 0 <= m < e - b ensures IsLetter(s[b..e][m]) || IsSpace(s[b..e][m]) {
      assert s[b..e][m] == s[b + m];
    }
  }

  /** `(?:called|denoted|defined as|known as)\s+(?:the\s+)?([A-Z][a-z]+(?:\s+[A-Z][a-z]+)*)`
      tried at `i`: the phrase and the end of the match. `the` is skipped
      only when whitespace follows it; if no capitalised word follows,
      there is no match at `i`. */
  function DefinedAt(s: string, i: nat): (r: Option<(string, nat)>)
    requires i <= |s|
    ensures r.Some? ==> i < r.value.1 <= |s| && PhraseShape(r.value.0)
  {
    match DefiningWordAt(s, i, DefiningWords)
    case None => None
    case Some(k) =>
      var a := SpaceRunEnd(s, k);
      if a == k then None else PhraseAt(s, PhraseStart(s, a))
  }

  /** `(?:the\s+)?` at `a`: where the phrase starts. */
  function PhraseStart(s: string, a: nat): (b: nat)
    requires a <= |s|
    ensures a <= b <= |s|
  {
    if At(s, a, "the") && SpaceRunEnd(s, a + 3) > a + 3 then SpaceRunEnd(s, a + 3) else a
  }

  /** `[A-Z][a-z]+(?:\s+[A-Z][a-z]+)*` at `b`: the phrase and its end. */
  function PhraseAt(s: string, b: nat): (r: Option<(string, nat)>)
    requires b <= |s|
    ensures r.Some? ==> b < r.value.1 <= |s| && PhraseShape(r.value.0)
  {
    match CapWordAt(s, b)
    case None => None
    case Some(c) =>
      var e := PhraseEnd(s, c);
      PhraseShapeAt(s, b, c);
      Some((s[b..e], e))
  }

  /** `re.findall` of the defining pattern from `i`: the phrases of all
      non-overlapping matches, left to right. */
  function FindAllDefined(s: string, i: nat): (r: seq<string>)
    requires i <= |s|
    ensures |r| <= |s| - i
    decreases |s| - i
  {
    if i == |s| then []
    else
      match DefinedAt(s, i)
      case Some(m) => [m.0] + FindAllDefined(s, m.1)
      case None => FindAllDefined(s, i + 1)
  }

  /** Every phrase found is capitalised words separated by whitespace. */
  lemma {:induction false} FindAllDefinedShape(s: string, i: nat)
    requires i <= |s|
    ensures forall k :: 0 <= k < |FindAllDefined(s, i)| ==> PhraseShape(FindAllDefined(s, i)[k])
    decreases |s| - i
  {
    if i < |s| {
      match DefinedAt(s, i)
      case Some(m) =>
        FindAllDefinedShape(s, m.1);
        ShapedCons(m.0, FindAllDefined(s, m.1));
        assert FindAllDefined(s, i) == [m.0] + FindAllDefined(s, m.1);
      case None =>
        FindAllDefinedShape(s, i + 1);
        assert FindAllDefined(s, i) == FindAllDefined(s, i + 1);
    }
  }

  /** A phrase of the right shape in front of phrases of the right shape. */
  lemma ShapedCons(x: string, rest: seq<string>)
    requires PhraseShape(x) && forall k :: 0 <= k < |rest| ==> PhraseShape(rest[k])
    ensures forall k :: 0 <= k < |[x] + rest| ==> PhraseShape(([x] + rest)[k])
  {
    var r := [x] + rest;
    forall k | 0 <= k < |r| ensures PhraseShape(r[k]) {
      if k > 0 { assert r[k] == rest[k - 1]; }
    }
  }

  /** `called ` at `i` is the first defining word, ending at `k`; one space
      follows, and the phrase starts right after it, at `a`, when a capital
      letter comes next. */
  lemma CalledWordAt(s: string, i: nat, k: nat, a: nat)
    requires k == i + 6 && a == k + 1 && a < |s|
    requires s[i..a] == "called " && IsUpper(s[a])
    ensures DefiningWordAt(s, i, DefiningWords) == Some(k)
    ensures SpaceRunEnd(s, k) == a && PhraseStart(s, a) == a
  {
    assert !At(s, a, "the") by { assert s[a] != 't'; }
    assert s[i..k] == s[i..a][..6] == "called";
    assert s[k] == s[i..a][6] == ' ';
    assert SpaceRunEnd(s, a) == a;
  }

  /** A capitalised word at `b` followed by a character that cannot
      continue the phrase is a whole phrase. */
  lemma LoneCapWord(s: string, b: nat, e: nat, w: string)
    requires CapWord(w)
    requires e == b + |w| && e < |s| && s[b..e] == w
    requires !IsSpace(s[e]) && !IsLowerLetter(s[e])
    ensures PhraseAt(s, b) == Some((w, e))
  {
    assert forall k :: b <= k < e ==> s[k] == w[k - b];
    assert LowerRunEnd(s, b + 1) == e;
    assert CapWordAt(s, b) == Some(e);
    assert PhraseEnd(s, e) == e;
  }

  /** After a defining word ending at `k` and whitespace up to `a`, the
      match is the phrase from the start `PhraseStart` finds. */
  lemma DefinedAtStep(s: string, i: nat, k: nat, a: nat)
    requires i <= |s| && DefiningWordAt(s, i, DefiningWords) == Some(k)
    requires SpaceRunEnd(s, k) == a && a != k
    ensures DefinedAt(s, i) == PhraseAt(s, PhraseStart(s, a))
  {
  }

  /** `called`, one space and a capitalised word from `a` to `e`, followed
      by a character that cannot continue the phrase: the word is the
      phrase. */
  lemma CalledAt(s: string, i: nat, a: nat, e: nat, w: string)
    requires CapWord(w)
    requires a == i + 7 && e == a + |w| && e < |s|
    requires s[i..a] == "called " && s[a..e] == w
    requires !IsSpace(s[e]) && !IsLowerLetter(s[e])
    ensures DefinedAt(s, i) == Some((w, e))
  {
    assert s[a] == w[0];
    CalledWordAt(s, i, i + 6, a);
    LoneCapWord(s, a, e, w);
    DefinedAtStep(s, i, i + 6, a);
  }

  /** A defining word, one space and a capitalised word followed by a
      character that cannot continue the phrase: the word is the phrase. */
  lemma CalledNamesWord(pre: string, w: string, post: string)
    requires CapWord(w)
    requires |post| > 0 && !IsSpace(post[0]) && !IsLowerLetter(post[0])
    ensures var m := DefinedAt(pre + "called " + w + post, |pre|);
      m.Some? && m.value.0 == w && m.value.1 == |pre| + 7 + |w|
  {
    var s := pre + "called " + w + post;
    assert s[|pre|..|pre| + 7] == "called ";
    assert s[|pre| + 7..|pre| + 7 + |w|] == w;
    assert s[|pre| + 7 + |w|] == post[0];
    CalledAt(s, |pre|, |pre| + 7, |pre| + 7 + |w|, w);
  }

  /** The candidate terms in the order they are considered: every
      emphasised argument, then every defined phrase, each stripped. */
  function Candidates(content: string): (cs: seq<string>)
    ensures forall i :: 0 <= i < |cs| ==> IsStripped(cs[i])
  {
    StripEach(FindAllArgs(content, EmphasisCommands, false, false, 0) + FindAllDefined(content, 0))
  }

  /** `extract_key_terms(content, max_terms)`: the first occurrence of each
      case-insensitively new candidate with at least three characters, up
      to the cap, which is checked only after a term is added. */
  function ExtractKeyTerms(content: string, maxTerms: int): (r: seq<string>)
    ensures |r| <= Room(maxTerms, 0)
    ensures maxTerms >= 1 ==> |r| <= maxTerms
    ensures forall i :: 0 <= i < |r| ==> IsStripped(r[i]) && |r[i]| >= 3 && r[i] in Candidates(content)
    ensures forall i, j :: 0 <= i < j < |r| ==> Lower(r[i]) != Lower(r[j])
  {
    FirstTerms(Candidates(content), maxTerms)
  }

  /** No emphasis command is a prefix of a later one. */
  lemma EmphasisNamesDiffer()
    ensures forall j, k :: 0 <= j < k < |EmphasisCommands| ==> Differ(EmphasisCommands[j], EmphasisCommands[k])
  {
    var names := EmphasisCommands;
    assert Differ(names[0], names[1]) by { assert names[0][0] != names[1][0]; }
    assert Differ(names[0], names[2]) by { assert names[0][4] != names[2][4]; }
    assert Differ(names[1], names[2]) by { assert names[1][0] != names[2][0]; }
  }

  /** The emphasis alternation matches a `\\textbf`, `\\emph` or `\\textit`
      command with its argument. */
  lemma EmphasisMatch(pre: string, name: string, term: string, post: string)
    requires name in EmphasisCommands
    requires term != [] && '}' !in term
    ensures ArgAnyAt(pre + "\\" + name + "{" + term + "}" + post, |pre|, EmphasisCommands, false, false)
      == Some((term, |pre| + |name| + |term| + 3))
  {
    EmphasisNamesDiffer();
    ArgAnyAtMember(pre, EmphasisCommands, name, term, post, false, false);
  }

  lemma EmphasisAt(pre: string, name: string, term: string, post: string, e: nat)
    requires name in EmphasisCommands
    requires term != [] && '}' !in term && '\\' !in pre
    requires e == |pre| + |name| + |term| + 3
    ensures var s := pre + "\\" + name + "{" + term + "}" + post;
      e <= |s| && FindAllArgs(s, EmphasisCommands, false, false, 0) == [term] + FindAllArgs(s, EmphasisCommands, false, false, e)
  {
    EmphasisNamesDiffer();
    FindAllArgsMember(pre, EmphasisCommands, name, term, post, false, false, e);
  }

  /** A `\textbf`, `\emph` or `\textit` argument that is stripped and at
      least three characters long, after backslash-free text, is the first
      key term, whatever the cap. */
  lemma FirstEmphasisIsKeyTerm(pre: string, name: string, term: string, post: string, maxTerms: int)
    requires name in EmphasisCommands
    requires |term| >= 3 && IsStripped(term) && '}' !in term && '\\' !in pre
    ensures var terms := ExtractKeyTerms(pre + "\\" + name + "{" + term + "}" + post, maxTerms);
      |terms| > 0 && terms[0] == term
  {
    var s := pre + "\\" + name + "{" + term + "}" + post;
    EmphasisAt(pre, name, term, post, |pre| + |name| + |term| + 3);
    var cs := Candidates(s);
    StrippedFixed(term);
    assert cs[0] == term;
    FirstTermsHead(cs, maxTerms);
  }

  // ---------------------------------------------------------------------------
  // Reading time
  // ---------------------------------------------------------------------------

  /** The words left once `\cmd{...}` groups and then bare `\cmd` words are
      removed. */
  function ReadableWords(content: string): nat {
    WordCount(StripCommands(content))
  }

  /** `estimate_reading_time(content, wpm)`: whole minutes, rounded down,
      and never less than one. */
  function EstimateReadingTime(content: string, wpm: int): (r: nat)
    requires wpm != 0
    ensures r >= 1
    ensures wpm > 0 ==> (r == 1 <==> ReadableWords(content) < 2 * wpm)
    ensures wpm > 0 && r > 1 ==> r * wpm <= ReadableWords(content) < (r + 1) * wpm
    ensures wpm < 0 ==> r == 1
  {
    var q := FloorDiv(ReadableWords(content), wpm);
    FloorDivSmall(ReadableWords(content), wpm);
    if q >= 1 then q else 1
  }

  /** Text without commands is counted as it stands. */
  lemma ReadableRepeat(u: string, n: nat)
    requires '\\' !in u && |u| > 0 && IsSpace(u[|u| - 1])
    ensures ReadableWords(Repeat(u, n)) == n * WordCount(u)
  {
    RepeatAvoids(u, n, '\\');
    StripCommandsIdentity(Repeat(u, n));
    WordsRepeat(u, n);
  }

  lemma TestBlockWords()
    ensures WordCount("Hello world. ") == 2
    ensures WordCount("Word ") == 1
  {
  }

  /** A hundred copies of a two-word block (200 words) take one minute. */
  lemma TwoHundredWordsTakeOneMinute(u: string)
    requires '\\' !in u && |u| > 0 && IsSpace(u[|u| - 1]) && WordCount(u) == 2
    ensures EstimateReadingTime(Repeat(u, 100), 200) == 1
  {
    ReadableRepeat(u, 100);
  }

  /** A thousand copies of a one-word block take five minutes. */
  lemma ThousandWordsTakeFiveMinutes(u: string)
    requires '\\' !in u && |u| > 0 && IsSpace(u[|u| - 1]) && WordCount(u) == 1
    ensures EstimateReadingTime(Repeat(u, 1000), 200) == 5
  {
    ReadableRepeat(u, 1000);
  }

  // ---------------------------------------------------------------------------
  // Titles and file-name metadata
  // ---------------------------------------------------------------------------

  /** The commands searched for a title, with an optional `*` and spaces
      before the brace. */
  const TitleCommands: seq<string> := ["section", "chapter", "part"]

  /** The title recorded for a file: the argument of its first sectioning
      command, else the slug with `_` read as a space and title-cased; then
      bare commands are removed and the ends stripped. */
  function SectionTitle(content: string, slug: string): (r: string)
    ensures IsStripped(r) && NoBareCommand(r)
  {
    var raw := match SearchArgAny(content, TitleCommands, true, true, 0)
      case Some(t) => t
      case None => TitleCase(ReplaceChar(slug, '_', ' '));
    BareFreeTitle(raw)
  }

  /** Bare commands removed, then the ends stripped. */
  function BareFreeTitle(raw: string): (r: string)
    ensures IsStripped(r) && NoBareCommand(r)
  {
    var d := DropBareCommands(raw, 0);
    var r := Strip(d);
    assert NoBareCommand(r) by {
      var l := StripLeft(d);
      NoBareCommandSlice(d, |d| - |l|, |d|);
      NoBareCommandSlice(l, 0, |StripRight(l)|);
    }
    r
  }

  /** No sectioning command is a prefix of a later one. */
  lemma TitleNamesDiffer()
    ensures forall j, k :: 0 <= j < k < |TitleCommands| ==> Differ(TitleCommands[j], TitleCommands[k])
  {
    var names := TitleCommands;
    assert Differ(names[0], names[1]) by { assert names[0][0] != names[1][0]; }
    assert Differ(names[0], names[2]) by { assert names[0][0] != names[2][0]; }
    assert Differ(names[1], names[2]) by { assert names[1][0] != names[2][0]; }
  }

  /** The title alternation matches a `\\section`, `\\chapter` or `\\part`
      command with its argument. */
  lemma TitleMatch(pre: string, name: string, title: string, post: string)
    requires name in TitleCommands
    requires title != [] && '}' !in title
    ensures ArgAnyAt(pre + "\\" + name + "{" + title + "}" + post, |pre|, TitleCommands, true, true)
      == Some((title, |pre| + |name| + |title| + 3))
  {
    TitleNamesDiffer();
    ArgAnyAtMember(pre, TitleCommands, name, title, post, true, true);
  }

  /** A sectioning command after backslash-free text names the title. */
  lemma TitleFromHeading(pre: string, name: string, title: string, post: string, slug: string)
    requires name in TitleCommands
    requires '\\' !in pre && '\\' !in title && '}' !in title && title != [] && IsStripped(title)
    ensures SectionTitle(pre + "\\" + name + "{" + title + "}" + post, slug) == title
  {
    var s := pre + "\\" + name + "{" + title + "}" + post;
    var i := |pre|;
    TitleMatch(pre, name, title, post);
    SearchArgAnySkip(s, TitleCommands, true, true, 0, i);
    CommandPassesIdentity(title, false, 0);
    StrippedFixed(title);
  }

  /** Without any sectioning command, a slug free of backslashes becomes
      the title: underscores read as spaces, words capitalised. */
  lemma TitleFromSlug(content: string, slug: string)
    requires '\\' !in content && '\\' !in slug
    ensures SectionTitle(content, slug) == Strip(TitleCase(ReplaceChar(slug, '_', ' ')))
  {
    SearchArgAnySkip(content, TitleCommands, true, true, 0, |content|);
    var raw := TitleCase(ReplaceChar(slug, '_', ' '));
    assert '\\' !in raw by {
      forall k | 0 <= k < |raw| ensures raw[k] != '\\' {
        assert raw[k] == TitleChar(ReplaceChar(slug, '_', ' '), k);
      }
    }
    CommandPassesIdentity(raw, false, 0);
  }

  /** `stem.split('_', 2)` read as number, level and slug, with the defaults
      for missing parts. */
  function NameParts(stem: string): (r: (string, string, string))
    ensures '_' !in r.0
    ensures |r.0| <= |stem| && r.0 == stem[..|r.0|]
    ensures '_' !in stem ==> r == (stem, "section", stem)
  {
    var parts := SplitN(stem, '_', 2);
    assert '_' !in stem ==> parts == [stem];
    assert '_' !in parts[0] && parts[0] == stem[..|parts[0]|] by { SplitNFirst(stem, '_', 2); }
    (parts[0], if |parts| > 1 then parts[1] else "section", if |parts| > 2 then parts[2] else stem)
  }

  // ---------------------------------------------------------------------------
  // Records and the index
  // ---------------------------------------------------------------------------

  datatype SectionRecord = SectionRecord(
    number: string, level: string, title: string, file: string, lines: nat,
    equations: nat, figures: nat, tables: nat, readingTime: nat, keyTerms: seq<string>)

  const WordsPerMinute: int := 200
  const MaxKeyTerms: int := 10

  /** The record of one section file named `name` with text `content`. */
  function Record(name: string, content: string): (r: SectionRecord)
    ensures r.file == name
    ensures r.lines == |Lines(content)|
    ensures r.equations == CountEquations(content) && r.figures == CountFigures(content)
    ensures r.tables == CountTables(content)
    ensures r.readingTime >= 1 && |r.keyTerms| <= MaxKeyTerms
    ensures IsStripped(r.title)
  {
    SplitCount(content, '\n');
    var parts := NameParts(Paths.Stem(name));
    SectionRecord(parts.0, parts.1, SectionTitle(content, parts.2), name, Count(content, '\n') + 1,
                  CountEquations(content), CountFigures(content), CountTables(content),
                  EstimateReadingTime(content, WordsPerMinute), ExtractKeyTerms(content, MaxKeyTerms))
  }

  /** The name of a file written for the `position`-th unit carries the
      unit's metadata: the record reads back the padded position, the level
      name and, when the text has no heading command, a title built from
      the slug. */
  lemma RecordOfWrittenName(position: nat, levelName: string, title: string, content: string)
    requires '_' !in levelName && '.' !in levelName && levelName != ""
    ensures var slug := Writer.SanitizeFilename(title, Writer.DefaultMaxLength);
      var r := Record(Writer.FileName(position, levelName, slug), content);
      && r.number == Pad2(position) && DigitsValue(r.number) == position
      && r.level == levelName
      && ('\\' !in content ==> r.title == Strip(TitleCase(ReplaceChar(slug, '_', ' '))))
  {
    var slug := Writer.SanitizeFilename(title, Writer.DefaultMaxLength);
    var name := Writer.FileName(position, levelName, slug);
    Writer.FileNameFields(position, levelName, title);
    RecordNameFields(name, content);
    var parts := NameParts(Paths.Stem(name));
    assert parts.0 == Pad2(position) && parts.1 == levelName && parts.2 == slug;
    if '\\' !in content {
      Writer.SlugPunctuation(slug);
      TitleFromSlug(content, slug);
    }
  }

  /** The fields of a record that come from its file name. */
  lemma RecordNameFields(name: string, content: string)
    ensures var parts := NameParts(Paths.Stem(name));
      var r := Record(name, content);
      r.number == parts.0 && r.level == parts.1 && r.title == SectionTitle(content, parts.2)
  {
  }

  /** The line count of a record equals the one in the manifest written
      with the file. */
  lemma RecordLinesMatchManifest(sections: seq<Sections.Section>, minLevel: int, i: nat)
    requires i < |Writer.WriteSections(sections, minLevel)|
    ensures var w := Writer.WriteSections(sections, minLevel)[i];
      Record(w.file, w.content).lines == w.lines
  {
  }

  /** The per-record quantities that are totalled. */
  datatype Metric = LineCount | EquationCount | FigureCount | ReadingMinutes

  function Field(r: SectionRecord, m: Metric): nat {
    match m
    case LineCount => r.lines
    case EquationCount => r.equations
    case FigureCount => r.figures
    case ReadingMinutes => r.readingTime
  }

  /** The sum of one metric over the records. */
  function Total(rs: seq<SectionRecord>, m: Metric): nat
    decreases |rs|
  {
    if |rs| == 0 then 0 else Total(rs[..|rs| - 1], m) + Field(rs[|rs| - 1], m)
  }

  /** Appending a record adds its field to the total. */
  lemma TotalSnoc(rs: seq<SectionRecord>, r: SectionRecord)
    ensures forall m :: Total(rs + [r], m) == Total(rs, m) + Field(r, m)
  {
    assert (rs + [r])[..|rs|] == rs;
  }

  /** Totals add up over a concatenation. */
  lemma {:induction false} TotalAppend(a: seq<SectionRecord>, b: seq<SectionRecord>, m: Metric)
    ensures Total(a + b, m) == Total(a, m) + Total(b, m)
    decreases |b|
  {
    if |b| > 0 {
      assert (a + b)[..|a + b| - 1] == a + b[..|b| - 1];
      TotalAppend(a, b[..|b| - 1], m);
    } else {
      assert a + b == a;
    }
  }

  /** The `.tex` entries of a directory listing, in listing order. */
  function TexEntries(listing: Listing): (r: Listing)
    ensures forall e :: e in r <==> e in listing && EndsWith(e.0, ".tex")
    ensures |r| <= |listing|
    decreases |listing|
  {
    if |listing| == 0 then []
    else
      var rest := TexEntries(listing[1..]);
      assert forall e :: e in listing <==> e == listing[0] || e in listing[1..];
      if EndsWith(listing[0].0, ".tex") then [listing[0]] + rest else rest
  }

  /** One record per file, in order. */
  function Records(files: Listing): (rs: seq<SectionRecord>)
    ensures |rs| == |files|
    ensures forall i :: 0 <= i < |files| ==> rs[i] == Record(files[i].0, files[i].1)
  {
    seq(|files|, i requires 0 <= i < |files| => Record(files[i].0, files[i].1))
  }

  /** The running sums of the summary, accumulated record by record. */
  method Totals(rs: seq<SectionRecord>) returns (lines: nat, equations: nat, figures: nat, minutes: nat)
    ensures lines == Total(rs, LineCount) && equations == Total(rs, EquationCount)
    ensures figures == Total(rs, FigureCount) && minutes == Total(rs, ReadingMinutes)
  {
    lines, equations, figures, minutes := 0, 0, 0, 0;
    var i := 0;
    while i < |rs|
      invariant 0 <= i <= |rs|
      invariant lines == Total(rs[..i], LineCount) && equations == Total(rs[..i], EquationCount)
      invariant figures == Total(rs[..i], FigureCount) && minutes == Total(rs[..i], ReadingMinutes)
    {
      TotalSnoc(rs[..i], rs[i]);
      assert rs[..i + 1] == rs[..i] + [rs[i]];
      lines := lines + rs[i].lines;
      equations := equations + rs[i].equations;
      figures := figures + rs[i].figures;
      minutes := minutes + rs[i].readingTime;
      i := i + 1;
    }
    assert rs[..i] == rs;
  }

  datatype Summary = Summary(
    totalSections: nat, totalLines: nat, totalEquations: nat, totalFigures: nat, totalReadingMinutes: nat)

  datatype Index = Index(paperId: string, indexedAt: string, summary: Summary, sections: seq<SectionRecord>)

  function MissingSectionsMessage(paperDir: string): string {
    "No sections directory in " + paperDir + ". Run split_sections.py first."
  }

  /** `build_index(paper_dir)`: `listing` is the content of the `sections`
      directory (`None` when it does not exist) and `indexedAt` the clock
      reading. The files are read in sorted name order; each gives a
      record, and the lines, equations, figures and reading minutes are
      totalled. */
  method BuildIndex(paperDir: string, listing: Option<Listing>, indexedAt: string)
    returns (r: Result<Index, string>)
    ensures listing.None? ==> r == Failure(MissingSectionsMessage(paperDir))
    ensures listing.Some? ==> r.Success?
    ensures r.Success? ==>
      var files := SortByName(TexEntries(listing.value));
      var idx := r.value;
      && idx.paperId == Paths.BaseName(paperDir) && idx.indexedAt == indexedAt
      && |idx.sections| == |files| == idx.summary.totalSections
      && (forall i :: 0 <= i < |files| ==> idx.sections[i] == Record(files[i].0, files[i].1))
      && idx.summary.totalLines == Total(idx.sections, LineCount)
      && idx.summary.totalEquations == Total(idx.sections, EquationCount)
      && idx.summary.totalFigures == Total(idx.sections, FigureCount)
      && idx.summary.totalReadingMinutes == Total(idx.sections, ReadingMinutes)
  {
    if listing.None? {
      return Failure(MissingSectionsMessage(paperDir));
    }
    var files := SortByName(TexEntries(listing.value));
    var records := Records(files);
    var lines, equations, figures, minutes := Totals(records);
    var summary := Summary(|records|, lines, equations, figures, minutes);
    return Success(Index(Paths.BaseName(paperDir), indexedAt, summary, records));
  }
}
