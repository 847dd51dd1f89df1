/** The per-section taxonomy of scripts/build_taxonomy.py: the sectioning
    headings of one section file, its display equations and its emphasised
    key terms, each recorded with the 1-based line it starts on, together
    with the counts and the cache kept under the paper's `taxonomy`
    directory. */
module Taxonomy {
  import opened Wrappers
  import opened Text
  import opened Scan
  import opened Paths
  import Terms

  /** One taxonomy entry. The `children` list the script declares is never
      filled, so it is not part of the model. */
  datatype TaxonomyNode = TaxonomyNode(kind: string, title: string, labelName: Option<string>, line: nat)

  // ---------------------------------------------------------------------------
  // Hierarchy
  // ---------------------------------------------------------------------------

  /** The heading commands in the order they are tried on each line. */
  const HierarchyLevels: seq<string> := ["part", "chapter", "section", "subsection", "subsubsection", "paragraph"]

  /** No heading command is a prefix of another, so at most one can start at
      a given backslash. */
  lemma LevelsDiffer(j: nat, k: nat)
    requires j < k < |HierarchyLevels|
    ensures Differ(HierarchyLevels[j], HierarchyLevels[k])
  {
    var L := HierarchyLevels;
    if j == 0 { assert L[j][0] != L[k][0] || L[j][3] != L[k][3]; }
    else if j == 1 { assert L[j][0] != L[k][0]; }
    else if j == 2 { assert L[j][1] != L[k][1]; }
    else if j == 3 { assert L[j][0] != L[k][0] || L[j][4] != L[k][4]; }
    else { assert L[j][0] != L[k][0]; }
  }

  /** For each heading command, the group of its leftmost
      `\\name\*?\{([^}]+)\}` match on the line. */
  function LevelHits(line: string): (h: seq<Option<string>>)
    ensures |h| == |HierarchyLevels|
    ensures forall m :: 0 <= m < |h| ==> h[m] == SearchArgAny(line, [HierarchyLevels[m]], true, false, 0)
  {
    seq(|HierarchyLevels|, m requires 0 <= m < |HierarchyLevels| => SearchArgAny(line, [HierarchyLevels[m]], true, false, 0))
  }

  /** The first heading command (in level order) that matches the line, with
      its group: the loop over patterns that breaks at the first match. */
  function LevelOf(line: string): (r: Option<(nat, string)>)
    ensures r.Some? ==> (r.value.0 < |HierarchyLevels|
      && SearchArgAny(line, [HierarchyLevels[r.value.0]], true, false, 0) == Some(r.value.1))
    ensures r.Some? ==> forall m :: 0 <= m < r.value.0 ==> SearchArgAny(line, [HierarchyLevels[m]], true, false, 0).None?
    ensures r.None? <==> forall m :: 0 <= m < |HierarchyLevels| ==> SearchArgAny(line, [HierarchyLevels[m]], true, false, 0).None?
  {
    var h := LevelHits(line);
    FirstHitFirst(h, 0);
    FirstHit(h, 0)
  }

  /** A heading title: the group stripped, `\cmd{x}` replaced by `x`, then
      bare `\cmd` words removed (no final strip). */
  function HierarchyTitle(group: string): (r: string)
    ensures NoBareCommand(r)
  {
    DropBareCommands(SubArgCommands(Strip(group), true, 0), 0)
  }

  /** A matched group never holds `}`, so the `\cmd{x}` substitution never
      fires on it: only bare commands are removed from the stripped group. */
  lemma HierarchyTitleOfGroup(group: string)
    requires '}' !in group
    ensures HierarchyTitle(group) == DropBareCommands(Strip(group), 0)
  {
    var t := Strip(group);
    StripChars(group, '}');
    SubArgWithoutClose(t, true, 0);
  }

  /** The node line `i` of the file opens, if any: its level, its title, the
      first label on the NEXT line only, and its 1-based line number. */
  function HierarchyNodeAt(lines: seq<string>, i: nat): (r: Option<TaxonomyNode>)
    requires i < |lines|
    ensures r.Some? <==> LevelOf(lines[i]).Some?
    ensures r.Some? ==> (r.value.line == i + 1
      && r.value.kind == HierarchyLevels[LevelOf(lines[i]).value.0]
      && r.value.title == HierarchyTitle(LevelOf(lines[i]).value.1)
      && r.value.labelName == (if i + 1 < |lines| then FirstLabel(lines[i + 1]) else None))
  {
    match LevelOf(lines[i])
    case None => None
    case Some((m, g)) =>
      var found := if i + 1 < |lines| then FirstLabel(lines[i + 1]) else None;
      Some(TaxonomyNode(HierarchyLevels[m], HierarchyTitle(g), found, i + 1))
  }

  /** What every line of the file opens, if anything. */
  function HierarchyNodes(lines: seq<string>): (r: seq<Option<TaxonomyNode>>)
    ensures |r| == |lines|
    ensures forall m :: 0 <= m < |r| ==> r[m] == HierarchyNodeAt(lines, m)
  {
    seq(|lines|, m requires 0 <= m < |lines| => HierarchyNodeAt(lines, m))
  }

  /** A node recorded at position `m` sits on line `m + 1`. */
  predicate OnOwnLine(nodes: seq<Option<TaxonomyNode>>) {
    forall m :: 0 <= m < |nodes| && nodes[m].Some? ==> nodes[m].value.line == m + 1
  }

  /** The loop of `extract_hierarchy` from position `i`: the recorded
      nodes, at most one per line, in line order. */
  function CollectNodes(nodes: seq<Option<TaxonomyNode>>, i: nat): (r: seq<TaxonomyNode>)
    requires i <= |nodes| && OnOwnLine(nodes)
    ensures forall j :: 0 <= j < |r| ==> (i + 1 <= r[j].line <= |nodes| && nodes[r[j].line - 1] == Some(r[j]))
    ensures forall j, j' :: 0 <= j < j' < |r| ==> r[j].line < r[j'].line
    decreases |nodes| - i
  {
    if i == |nodes| then []
    else match nodes[i]
      case Some(n) => [n] + CollectNodes(nodes, i + 1)
      case None => CollectNodes(nodes, i + 1)
  }

  /** No recorded node is skipped. */
  lemma {:induction false} CollectNodesComplete(nodes: seq<Option<TaxonomyNode>>, i: nat, m: nat)
    requires i <= m < |nodes| && OnOwnLine(nodes) && nodes[m].Some?
    ensures nodes[m].value in CollectNodes(nodes, i)
    decreases m - i
  {
    if i < m {
      CollectNodesComplete(nodes, i + 1, m);
      match nodes[i]
      case Some(n) => assert CollectNodes(nodes, i) == [n] + CollectNodes(nodes, i + 1);
      case None =>
    }
  }

  /** `extract_hierarchy(content)`. */
  function ExtractHierarchy(content: string): (r: seq<TaxonomyNode>)
    ensures forall j :: 0 <= j < |r| ==> (1 <= r[j].line <= |Lines(content)|
      && HierarchyNodeAt(Lines(content), r[j].line - 1) == Some(r[j]))
    ensures forall j, j' :: 0 <= j < j' < |r| ==> r[j].line < r[j'].line
  {
    var nodes := HierarchyNodes(Lines(content));
    CollectNodes(nodes, 0)
  }

  /** Every heading line of the text appears in the hierarchy. */
  lemma HierarchyComplete(content: string, m: nat)
    requires m < |Lines(content)| && HierarchyNodeAt(Lines(content), m).Some?
    ensures HierarchyNodeAt(Lines(content), m).value in ExtractHierarchy(content)
  {
    CollectNodesComplete(HierarchyNodes(Lines(content)), 0, m);
  }

  /** The only backslash of a heading command written out in plain text is
      the one that starts it. */
  lemma HeadingBackslash(pre: string, name: string, title: string, post: string)
    requires '\\' !in pre && '\\' !in name && '\\' !in title && '\\' !in post
    ensures var s := pre + "\\" + name + "{" + title + "}" + post;
      forall k :: 0 <= k < |s| && k != |pre| ==> s[k] != '\\'
  {
    var s := pre + "\\" + name + "{" + title + "}" + post;
    forall k | 0 <= k < |s| && k != |pre| ensures s[k] != '\\' {
      if k < |pre| { assert s[k] == pre[k]; }
      else {
        var d := k - |pre| - 1;
        if d < |name| { assert s[k] == name[d]; }
        else if d == |name| { assert s[k] == '{'; }
        else if d < |name| + 1 + |title| { assert s[k] == title[d - |name| - 1]; }
        else if d == |name| + 1 + |title| { assert s[k] == '}'; }
        else { assert s[k] == post[d - |name| - 2 - |title|]; }
      }
    }
  }

  /** A heading command written out in plain text is no match for a
      command whose name differs from it. */
  lemma HeadingMissesOther(pre: string, name: string, other: string, title: string, post: string)
    requires Differ(other, name)
    requires '\\' !in pre && '\\' !in name && '\\' !in title && '\\' !in post
    ensures SearchArgAny(pre + "\\" + name + "{" + title + "}" + post, [other], true, false, 0).None?
  {
    var s := pre + "\\" + name + "{" + title + "}" + post;
    var i := |pre|;
    OpenAtCommand(pre, name, title, post, true, false);
    DifferMiss(s, i, other, name);
    HeadingBackslash(pre, name, title, post);
    SearchArgAbsent(s, other, true, false, i);
  }

  /** No heading command name holds a backslash. */
  lemma LevelPlain(m: nat)
    requires m < |HierarchyLevels|
    ensures '\\' !in HierarchyLevels[m]
  {
  }

  /** A heading command of a later level is not taken for an earlier one. */
  lemma HeadingMissesEarlier(pre: string, m: nat, title: string, post: string, j: nat)
    requires j < m < |HierarchyLevels|
    requires '\\' !in pre && '\\' !in title && '\\' !in post
    ensures SearchArgAny(pre + "\\" + HierarchyLevels[m] + "{" + title + "}" + post, [HierarchyLevels[j]], true, false, 0).None?
  {
    LevelsDiffer(j, m);
    LevelPlain(m);
    HeadingMissesOther(pre, HierarchyLevels[m], HierarchyLevels[j], title, post);
  }

  /** A heading command standing alone in a line of plain text is recognised
      at its own level, with its argument as the group. */
  lemma LevelOfHeading(pre: string, m: nat, title: string, post: string)
    requires m < |HierarchyLevels|
    requires '\\' !in pre && '\\' !in title && '\\' !in post && '}' !in title && title != []
    ensures LevelOf(pre + "\\" + HierarchyLevels[m] + "{" + title + "}" + post) == Some((m, title))
  {
    var name := HierarchyLevels[m];
    var s := pre + "\\" + name + "{" + title + "}" + post;
    var h := LevelHits(s);
    ArgAnyAtMember(pre, [name], name, title, post, true, false);
    SearchArgAnySkip(s, [name], true, false, 0, |pre|);
    SearchArgAnyStep(s, [name], true, false, |pre|);
    forall j | 0 <= j < m ensures h[j].None? {
      HeadingMissesEarlier(pre, m, title, post, j);
    }
    FirstHitAt(h, 0, m);
  }

  /** `\label{x}` alone on a line is found. */
  lemma LabelLine(name: string)
    requires name != [] && '}' !in name
    ensures FirstLabel("\\label{" + name + "}") == Some(name)
  {
    var s := "\\label{" + name + "}";
    assert s == "" + "\\" + "label" + "{" + name + "}" + "";
    ArgAnyAtMember("", ["label"], "label", name, "", false, false);
    SearchArgAnyStep(s, ["label"], false, false, 0);
  }

  /** A heading line followed by a `\label{...}` line opens a node of the
      heading's level, titled with its argument, carrying the label, on
      line `i + 1`. */
  lemma HeadingWithLabel(lines: seq<string>, i: nat, m: nat, title: string, lab: string)
    requires i + 1 < |lines| && m < |HierarchyLevels|
    requires '\\' !in title && '}' !in title && title != [] && IsStripped(title)
    requires lab != [] && '}' !in lab
    requires lines[i] == "\\" + HierarchyLevels[m] + "{" + title + "}"
    requires lines[i + 1] == "\\label{" + lab + "}"
    ensures HierarchyNodeAt(lines, i) == Some(TaxonomyNode(HierarchyLevels[m], title, Some(lab), i + 1))
  {
    assert lines[i] == "" + "\\" + HierarchyLevels[m] + "{" + title + "}" + "";
    LevelOfHeading("", m, title, "");
    HierarchyTitleOfGroup(title);
    StrippedFixed(title);
    CommandPassesIdentity(title, true, 0);
    LabelLine(lab);
  }

  // ---------------------------------------------------------------------------
  // Equations
  // ---------------------------------------------------------------------------

  /** The display environments tracked, in the order they are tried. */
  const EquationEnvs: seq<string> := ["equation", "align", "gather", "multline", "eqnarray"]

  function BeginMarker(env: string): string { "\\begin{" + env }

  function EndMarker(env: string): string { "\\end{" + env }

  /** What a line does to the environment tracking. */
  datatype EnvEvent = Begin | End | Neither

  /** The environments are tried in order; for each, an opening marker is
      looked for before a closing one, and the first hit decides. */
  function EnvEventFrom(line: string, k: nat): (e: EnvEvent)
    ensures e.Begin? ==> exists j :: k <= j < |EquationEnvs| && Contains(line, BeginMarker(EquationEnvs[j]))
    ensures e.End? ==> exists j :: k <= j < |EquationEnvs| && Contains(line, EndMarker(EquationEnvs[j]))
    ensures e.Neither? <==> forall j :: k <= j < |EquationEnvs| ==>
      !Contains(line, BeginMarker(EquationEnvs[j])) && !Contains(line, EndMarker(EquationEnvs[j]))
    decreases |EquationEnvs| - k
  {
    if k >= |EquationEnvs| then Neither
    else if Contains(line, BeginMarker(EquationEnvs[k])) then Begin
    else if Contains(line, EndMarker(EquationEnvs[k])) then End
    else EnvEventFrom(line, k + 1)
  }

  function EnvEventOf(line: string): EnvEvent { EnvEventFrom(line, 0) }

  /** The tracking state: inside an environment or not, the line it opened
      on (1-based), and the lines gathered so far. */
  datatype EqState = EqState(open: bool, start: nat, acc: seq<string>)

  /** The line an open environment records lies at or before the current one. */
  predicate ValidState(st: EqState, i: nat) { st.open ==> 1 <= st.start <= i }

  /** The node for a closed environment: the first label in its text, used
      as the title, or a title naming the opening line. */
  function EquationNode(start: nat, acc: seq<string>): (n: TaxonomyNode)
    ensures n.kind == "equation" && n.line == start
    ensures n.labelName == FirstLabel(Join(acc, "\n"))
    ensures n.labelName.Some? ==> n.title == n.labelName.value
    ensures n.labelName.None? ==> n.title == "Equation at line " + NatToString(start)
  {
    var found := FirstLabel(Join(acc, "\n"));
    var title := if found.Some? then found.value else "Equation at line " + NatToString(start);
    TaxonomyNode("equation", title, found, start)
  }

  /** One turn of the `extract_equations` loop on line `i` (0-based). An
      opening line is gathered twice: once when the environment opens and
      once by the append that follows the environment scan. */
  function Step(st: EqState, line: string, i: nat): (r: (EqState, Option<TaxonomyNode>))
    ensures r.1.Some? <==> st.open && EnvEventOf(line).End?
    ensures r.1.Some? ==> r.1.value == EquationNode(st.start, st.acc + [line])
    ensures r.0.open <==> EnvEventOf(line).Begin? || (st.open && EnvEventOf(line).Neither?)
    ensures r.0.open ==> r.0.start == (if EnvEventOf(line).Begin? then i + 1 else st.start)
    ensures r.0.open ==> r.0.acc == (if EnvEventOf(line).Begin? then [line, line] else st.acc + [line])
  {
    match EnvEventOf(line)
    case Begin => (EqState(true, i + 1, [line, line]), None)
    case End =>
      var node := if st.open then Some(EquationNode(st.start, st.acc + [line])) else None;
      (EqState(false, st.start, []), node)
    case Neither => (if st.open then EqState(true, st.start, st.acc + [line]) else st, None)
  }

  /** The loop from line `i` in state `st`: the equations emitted, in
      strictly increasing line order, each on a line at or before the line
      it closes on. */
  function EqFrom(lines: seq<string>, i: nat, st: EqState): (r: seq<TaxonomyNode>)
    requires i <= |lines| && ValidState(st, i)
    ensures forall k :: 0 <= k < |r| ==> r[k].kind == "equation" && 1 <= r[k].line <= |lines|
    ensures forall k :: 0 <= k < |r| ==> r[k].line > i || (st.open && r[k].line == st.start)
    ensures forall k, k' :: 0 <= k < k' < |r| ==> r[k].line < r[k'].line
    decreases |lines| - i
  {
    if i == |lines| then []
    else
      var step := Step(st, lines[i], i);
      var rest := EqFrom(lines, i + 1, step.0);
      match step.1
      case Some(node) => [node] + rest
      case None => rest
  }

  /** `extract_equations(content)`. */
  function ExtractEquations(content: string): (r: seq<TaxonomyNode>)
    ensures forall k :: 0 <= k < |r| ==> r[k].kind == "equation" && 1 <= r[k].line <= |Lines(content)|
    ensures forall k, k' :: 0 <= k < k' < |r| ==> r[k].line < r[k'].line
  {
    EqFrom(Lines(content), 0, EqState(false, 0, []))
  }

  /** One line without a marker inside an environment is gathered. */
  lemma GatherOne(lines: seq<string>, i: nat, start: nat, acc: seq<string>)
    requires i < |lines| && 1 <= start <= i && EnvEventOf(lines[i]).Neither?
    ensures EqFrom(lines, i, EqState(true, start, acc)) == EqFrom(lines, i + 1, EqState(true, start, acc + [lines[i]]))
  {
    assert Step(EqState(true, start, acc), lines[i], i) == (EqState(true, start, acc + [lines[i]]), None);
  }

  lemma AppendFirst(acc: seq<string>, xs: seq<string>, i: nat, e: nat)
    requires i < e <= |xs|
    ensures acc + [xs[i]] + xs[i + 1..e] == acc + xs[i..e]
  {
    assert xs[i..e] == [xs[i]] + xs[i + 1..e];
  }

  /** Inside an environment, lines with no marker are gathered one by one. */
  lemma {:induction false} OpenRun(lines: seq<string>, i: nat, e: nat, start: nat, acc: seq<string>)
    requires i <= e <= |lines| && 1 <= start <= i
    requires forall k :: i <= k < e ==> EnvEventOf(lines[k]).Neither?
    ensures EqFrom(lines, i, EqState(true, start, acc)) == EqFrom(lines, e, EqState(true, start, acc + lines[i..e]))
    decreases e - i
  {
    if i < e {
      GatherOne(lines, i, start, acc);
      OpenRun(lines, i + 1, e, start, acc + [lines[i]]);
      AppendFirst(acc, lines, i, e);
    } else {
      assert acc + lines[i..e] == acc;
    }
  }

  /** The text gathered for a block: the opening line twice, then the
      lines up to the closing one. */
  lemma BlockText(lines: seq<string>, b: nat, e: nat)
    requires b < e < |lines|
    ensures [lines[b], lines[b]] + lines[b + 1..e] + [lines[e]] == [lines[b]] + lines[b..e + 1]
  {
    assert lines[b..e + 1] == [lines[b]] + lines[b + 1..e] + [lines[e]];
  }

  /** An environment opened on line `b` and closed on line `e`, with no
      marker in between, yields one node on line `b + 1` whose text is the
      opening line (gathered twice) followed by the lines up to the closing
      one. */
  lemma EquationBlock(lines: seq<string>, b: nat, e: nat, st: EqState)
    requires b < e < |lines| && ValidState(st, b)
    requires EnvEventOf(lines[b]).Begin? && EnvEventOf(lines[e]).End?
    requires forall k :: b < k < e ==> EnvEventOf(lines[k]).Neither?
    ensures EqFrom(lines, b, st)
      == [EquationNode(b + 1, [lines[b]] + lines[b..e + 1])] + EqFrom(lines, e + 1, EqState(false, b + 1, []))
  {
    var acc := [lines[b], lines[b]];
    assert EqFrom(lines, b, st) == EqFrom(lines, b + 1, EqState(true, b + 1, acc));
    OpenRun(lines, b + 1, e, b + 1, acc);
    var gathered := acc + lines[b + 1..e];
    assert Step(EqState(true, b + 1, gathered), lines[e], e)
      == (EqState(false, b + 1, []), Some(EquationNode(b + 1, gathered + [lines[e]])));
    BlockText(lines, b, e);
  }

  /** A closing marker outside any environment emits nothing. */
  lemma StrayEnd(lines: seq<string>, i: nat, st: EqState)
    requires i < |lines| && !st.open && EnvEventOf(lines[i]).End?
    ensures EqFrom(lines, i, st) == EqFrom(lines, i + 1, EqState(false, st.start, []))
  {
  }

  /** An opening marker decides the line unless a closing marker of an
      environment tried earlier is present. */
  lemma {:induction false} BeginFirst(line: string, k: nat, j: nat)
    requires k <= j < |EquationEnvs| && Contains(line, BeginMarker(EquationEnvs[j]))
    requires forall j' :: k <= j' < j ==> !Contains(line, EndMarker(EquationEnvs[j']))
    ensures EnvEventFrom(line, k).Begin?
    decreases j - k
  {
    if k < j && !Contains(line, BeginMarker(EquationEnvs[k])) {
      BeginFirst(line, k + 1, j);
    }
  }

  /** A line holding both the opening and the closing marker of the same
      environment (and no closing marker of an environment tried before it)
      opens the environment and does not close it. */
  lemma BeginAndEndOnOneLine(st: EqState, line: string, i: nat, j: nat)
    requires j < |EquationEnvs|
    requires Contains(line, BeginMarker(EquationEnvs[j])) && Contains(line, EndMarker(EquationEnvs[j]))
    requires forall j' :: 0 <= j' < j ==> !Contains(line, EndMarker(EquationEnvs[j']))
    ensures Step(st, line, i).0.open && Step(st, line, i).1.None?
    ensures Step(st, line, i).0.start == i + 1
  {
    BeginFirst(line, 0, j);
  }

  /** Without any closing marker, no equation is ever emitted. */
  lemma {:induction false} NoEndNoEquations(lines: seq<string>, i: nat, st: EqState)
    requires i <= |lines| && ValidState(st, i)
    requires forall k :: i <= k < |lines| ==> !EnvEventOf(lines[k]).End?
    ensures EqFrom(lines, i, st) == []
    decreases |lines| - i
  {
    if i < |lines| {
      NoEndNoEquations(lines, i + 1, Step(st, lines[i], i).0);
    }
  }

  // ---------------------------------------------------------------------------
  // Key terms
  // ---------------------------------------------------------------------------

  /** The emphasis commands, in the order they are scanned on each line. */
  const TermCommands: seq<string> := ["textbf", "emph", "textit", "term", "define"]

  /** A candidate cleaned as the script does: stripped, `\cmd{x}` replaced
      by `x`, bare commands removed, stripped again. */
  function CleanTerm(group: string): (r: string)
    ensures IsStripped(r)
  {
    Strip(DropBareCommands(SubArgCommands(Strip(group), true, 0), 0))
  }

  /** The groups on one line: every match of each command in turn, from
      the `k`-th command on. */
  function LineGroups(line: string, k: nat): (r: seq<string>)
    decreases |TermCommands| - k
  {
    if k >= |TermCommands| then []
    else FindAllArgs(line, [TermCommands[k]], false, false, 0) + LineGroups(line, k + 1)
  }

  /** Cleaned candidates, each paired with line number `n`. */
  function Tagged(gs: seq<string>, n: nat): (r: seq<(string, nat)>)
    ensures |r| == |gs|
    ensures forall k :: 0 <= k < |r| ==> r[k] == (CleanTerm(gs[k]), n)
  {
    seq(|gs|, j requires 0 <= j < |gs| => (CleanTerm(gs[j]), n))
  }

  /** Appending candidates of later lines keeps the line numbers in order. */
  lemma TaggedThen(here: seq<(string, nat)>, rest: seq<(string, nat)>, n: nat, hi: nat)
    requires forall k :: 0 <= k < |here| ==> here[k].1 == n && IsStripped(here[k].0)
    requires forall k :: 0 <= k < |rest| ==> n + 1 <= rest[k].1 <= hi && IsStripped(rest[k].0)
    requires forall k, k' :: 0 <= k < k' < |rest| ==> rest[k].1 <= rest[k'].1
    requires n <= hi
    ensures var r := here + rest;
      && (forall k :: 0 <= k < |r| ==> n <= r[k].1 <= hi && IsStripped(r[k].0))
      && (forall k, k' :: 0 <= k < k' < |r| ==> r[k].1 <= r[k'].1)
  {
  }

  /** The cleaned candidates of lines `i..`, each with its 1-based line. */
  function TermCandidates(lines: seq<string>, i: nat): (r: seq<(string, nat)>)
    requires i <= |lines|
    ensures forall k :: 0 <= k < |r| ==> i + 1 <= r[k].1 <= |lines| && IsStripped(r[k].0)
    ensures LineOrdered(r)
    decreases |lines| - i
  {
    if i == |lines| then []
    else
      var here := Tagged(LineGroups(lines[i], 0), i + 1);
      var rest := TermCandidates(lines, i + 1);
      TaggedThen(here, rest, i + 1, |lines|);
      here + rest
  }

  /** The candidate texts alone. */
  function Texts(cs: seq<(string, nat)>): (ts: seq<string>)
    ensures |ts| == |cs|
    ensures forall k :: 0 <= k < |cs| ==> ts[k] == cs[k].0
  {
    seq(|cs|, k requires 0 <= k < |cs| => cs[k].0)
  }

  /** The term nodes for the candidates at the kept indices. */
  function TermNodes(cs: seq<(string, nat)>, idx: seq<nat>): (r: seq<TaxonomyNode>)
    requires forall j :: 0 <= j < |idx| ==> idx[j] < |cs|
    ensures |r| == |idx|
    ensures forall j :: 0 <= j < |idx| ==> r[j] == TaxonomyNode("term", cs[idx[j]].0, None, cs[idx[j]].1)
  {
    seq(|idx|, j requires 0 <= j < |idx| => TaxonomyNode("term", cs[idx[j]].0, None, cs[idx[j]].1))
  }

  /** Candidates whose line numbers never decrease. */
  predicate LineOrdered(cs: seq<(string, nat)>) {
    forall k, k' :: 0 <= k < k' < |cs| ==> cs[k].1 <= cs[k'].1
  }

  /** The filter applied to line-tagged candidates: the first occurrence of
      each candidate of three or more characters, compared
      case-insensitively, with no cap, keeping its line. */
  function FirstOccurrences(cs: seq<(string, nat)>): (r: seq<TaxonomyNode>)
    requires LineOrdered(cs)
    ensures forall j :: 0 <= j < |r| ==> (r[j].kind == "term" && r[j].labelName.None?
      && Terms.Eligible(r[j].title) && exists k :: 0 <= k < |cs| && cs[k] == (r[j].title, r[j].line))
    ensures forall j, j' :: 0 <= j < j' < |r| ==> Terms.Key(r[j].title) != Terms.Key(r[j'].title)
    ensures forall j, j' :: 0 <= j < j' < |r| ==> r[j].line <= r[j'].line
  {
    var idx := Terms.KeepFirst(Texts(cs), 0, {});
    var r := TermNodes(cs, idx);
    assert forall j :: 0 <= j < |r| ==> cs[idx[j]] == (r[j].title, r[j].line);
    r
  }

  /** Every candidate of three or more characters is represented: a term
      with the same lower-case form is kept, from the same line or an
      earlier one. */
  lemma FirstOccurrencesComplete(cs: seq<(string, nat)>, k: nat)
    requires LineOrdered(cs) && k < |cs| && Terms.Eligible(cs[k].0)
    ensures exists j :: (0 <= j < |FirstOccurrences(cs)|
      && Terms.Key(FirstOccurrences(cs)[j].title) == Terms.Key(cs[k].0)
      && FirstOccurrences(cs)[j].line <= cs[k].1)
  {
    var ts := Texts(cs);
    Terms.KeepFirstComplete(ts, 0, {}, k);
    var idx := Terms.KeepFirst(ts, 0, {});
    var j :| 0 <= j < |idx| && idx[j] <= k && Terms.Key(ts[idx[j]]) == Terms.Key(ts[k]);
    assert FirstOccurrences(cs)[j] == TaxonomyNode("term", cs[idx[j]].0, None, cs[idx[j]].1);
  }

  /** `extract_key_terms(content)`: the kept candidates of every line. */
  function ExtractTaxonomyTerms(content: string): (r: seq<TaxonomyNode>)
    ensures forall j :: 0 <= j < |r| ==> (r[j].kind == "term" && r[j].labelName.None?
      && Terms.Eligible(r[j].title) && IsStripped(r[j].title) && 1 <= r[j].line <= |Lines(content)|)
    ensures forall j, j' :: 0 <= j < j' < |r| ==> Terms.Key(r[j].title) != Terms.Key(r[j'].title)
    ensures forall j, j' :: 0 <= j < j' < |r| ==> r[j].line <= r[j'].line
  {
    FirstOccurrences(TermCandidates(Lines(content), 0))
  }

  // ---------------------------------------------------------------------------
  // The taxonomy document and its cache
  // ---------------------------------------------------------------------------

  /** `node_to_dict`: the label entry appears only for a non-empty label;
      `children` is always empty and never written. */
  datatype NodeDict = NodeDict(kind: string, title: string, line: nat, labelName: Option<string>)

  function NodeToDict(n: TaxonomyNode): (d: NodeDict)
    ensures d.kind == n.kind && d.title == n.title && d.line == n.line
    ensures d.labelName.Some? <==> n.labelName.Some? && n.labelName.value != ""
  {
    var found := if n.labelName.Some? && n.labelName.value != "" then n.labelName else None;
    NodeDict(n.kind, n.title, n.line, found)
  }

  function Dicts(ns: seq<TaxonomyNode>): (ds: seq<NodeDict>)
    ensures |ds| == |ns|
    ensures forall k :: 0 <= k < |ns| ==> ds[k] == NodeToDict(ns[k])
  {
    seq(|ns|, k requires 0 <= k < |ns| => NodeToDict(ns[k]))
  }

  /** Labels found by the scanner are never empty, so every node that has a
      label keeps it in its dictionary. */
  lemma HierarchyLabelsKept(content: string, k: nat)
    requires k < |ExtractHierarchy(content)|
    ensures NodeToDict(ExtractHierarchy(content)[k]).labelName == ExtractHierarchy(content)[k].labelName
  {
  }

  datatype Stats = Stats(sections: nat, equations: nat, keyTerms: nat, lines: nat)

  datatype TaxonomyDoc = TaxonomyDoc(file: string, hierarchy: seq<NodeDict>, equations: seq<NodeDict>,
                                     keyTerms: seq<NodeDict>, stats: Stats)

  /** `build_taxonomy`: the three lists, with counts that agree with them,
      and a line count of one more than the number of newlines. */
  function BuildTaxonomy(fileName: string, content: string): (t: TaxonomyDoc)
    ensures t.file == fileName
    ensures t.hierarchy == Dicts(ExtractHierarchy(content))
    ensures t.equations == Dicts(ExtractEquations(content))
    ensures t.keyTerms == Dicts(ExtractTaxonomyTerms(content))
    ensures t.stats == Stats(|t.hierarchy|, |t.equations|, |t.keyTerms|, Count(content, '\n') + 1)
  {
    SplitCount(content, '\n');
    var h := ExtractHierarchy(content);
    var e := ExtractEquations(content);
    var k := ExtractTaxonomyTerms(content);
    TaxonomyDoc(fileName, Dicts(h), Dicts(e), Dicts(k), Stats(|h|, |e|, |k|, |Lines(content)|))
  }

  /** The files of the data directory (path to text) and the cached
      taxonomies (path to document). */
  datatype Store = Store(files: map<string, string>, cache: map<string, TaxonomyDoc>)

  /** The section file: taken as given when absolute, else under `sections`. */
  function TexPath(dataDir: string, paperId: string, sectionFile: string): (p: string)
    ensures StartsWith(sectionFile, "/") ==> p == sectionFile
    ensures !StartsWith(sectionFile, "/") ==> p == JoinPath(JoinPath(PaperDir(dataDir, paperId), "sections"), sectionFile)
  {
    if StartsWith(sectionFile, "/") then sectionFile
    else JoinPath(JoinPath(PaperDir(dataDir, paperId), "sections"), sectionFile)
  }

  /** The cache file: `taxonomy/<stem>.taxonomy.json` under the paper. */
  function CacheFile(dataDir: string, paperId: string, texPath: string): string {
    JoinPath(JoinPath(PaperDir(dataDir, paperId), "taxonomy"), Stem(BaseName(texPath)) + ".taxonomy.json")
  }

  /** `get_or_build_taxonomy`: an error for a missing section file; the
      cached document unless a rebuild is forced; otherwise a fresh
      document, which is also cached. */
  function GetOrBuildTaxonomy(store: Store, dataDir: string, paperId: string, sectionFile: string, force: bool)
    : (r: (Result<TaxonomyDoc, string>, Store))
    ensures var path := TexPath(dataDir, paperId, sectionFile);
      path !in store.files ==> r == (Failure("Section file not found: " + path), store)
    ensures var path := TexPath(dataDir, paperId, sectionFile);
      var key := CacheFile(dataDir, paperId, path);
      path in store.files && key in store.cache && !force ==> r == (Success(store.cache[key]), store)
    ensures var path := TexPath(dataDir, paperId, sectionFile);
      var key := CacheFile(dataDir, paperId, path);
      path in store.files && (key !in store.cache || force) ==>
        && r.0 == Success(BuildTaxonomy(BaseName(path), store.files[path]))
        && r.1 == Store(store.files, store.cache[key := r.0.value])
  {
    var path := TexPath(dataDir, paperId, sectionFile);
    if path !in store.files then (Failure("Section file not found: " + path), store)
    else
      var key := CacheFile(dataDir, paperId, path);
      if key in store.cache && !force then (Success(store.cache[key]), store)
      else
        var t := BuildTaxonomy(BaseName(path), store.files[path]);
        (Success(t), Store(store.files, store.cache[key := t]))
  }

  /** A second request after a successful one, without forcing, returns the
      same document and leaves the store alone. */
  lemma SecondRequestHitsCache(store: Store, dataDir: string, paperId: string, sectionFile: string, force: bool)
    requires GetOrBuildTaxonomy(store, dataDir, paperId, sectionFile, force).0.Success?
    ensures var (r1, s1) := GetOrBuildTaxonomy(store, dataDir, paperId, sectionFile, force);
      GetOrBuildTaxonomy(s1, dataDir, paperId, sectionFile, false) == (r1, s1)
  {
  }
}
