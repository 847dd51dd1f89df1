/** Section discovery of scripts/split_sections.py: locating sectioning
    commands line by line, numbering them hierarchically, and cutting the
    document into the line ranges between consecutive commands. */
module Sections {
  import opened Wrappers
  import opened Text
  import opened Scan
  import Braces

  /** One sectioning command. `number` is 0 until numbering runs; `endLine`
      and `content` are empty until content extraction runs. The source's
      `children` list is never filled and is not modelled. */
  datatype Section = Section(
    level: nat,
    number: nat,
    title: string,
    labelName: Option<string>,
    startLine: nat,
    endLine: nat,
    content: string)

  /** The five sectioning commands, indexed by level. */
  const LevelNames: seq<string> := ["part", "chapter", "section", "subsection", "subsubsection"]

  /** Number of counters kept by the numbering pass. */
  const MaxLevels: nat := 10

  /** The `level_name` property. */
  function LevelName(level: nat): (r: string)
    ensures level < |LevelNames| ==> r == LevelNames[level]
    ensures level >= |LevelNames| ==> StartsWith(r, "level") && AllDigits(r[5..])
    ensures '_' !in r && '.' !in r
  {
    if level < |LevelNames| then LevelNames[level] else "level" + NatToString(level)
  }

  // ---------------------------------------------------------------------------
  // find_sections
  // ---------------------------------------------------------------------------

  /** For each level name, where its command `\name*?\s*{` first occurs on
      the line: the index of the occurrence's `{`. */
  function Hits(line: string, names: seq<string>): (h: seq<Option<nat>>)
    ensures |h| == |names|
    ensures forall m :: 0 <= m < |h| ==> h[m] == SearchOpen(line, names[m], true, true, 0)
  {
    seq(|names|, m requires 0 <= m < |names| => SearchOpen(line, names[m], true, true, 0))
  }

  /** The heading on a line: the shallowest level whose command occurs on it. */
  function HeadingOn(line: string): (r: Option<(nat, nat)>)
    ensures r.Some? ==> r.value.0 < |LevelNames| && r.value.1 < |line| && line[r.value.1] == '{'
    ensures r.Some? ==> forall m :: 0 <= m < r.value.0 ==> SearchOpen(line, LevelNames[m], true, true, 0).None?
    ensures r.None? <==> forall m :: 0 <= m < |LevelNames| ==> SearchOpen(line, LevelNames[m], true, true, 0).None?
  {
    var h := Hits(line, LevelNames);
    FirstHitFirst(h, 0);
    FirstHit(h, 0)
  }

  /** Title clean-up: commands with an argument are dropped whole, then bare
      commands, then surrounding whitespace. */
  function CleanTitle(raw: string): (r: string)
    ensures IsStripped(r)
    ensures '\\' !in raw ==> r == Strip(raw)
  {
    var bare := StripCommands(raw);
    assert '\\' !in raw ==> bare == raw by {
      if '\\' !in raw { StripCommandsIdentity(raw); }
    }
    Strip(bare)
  }

  /** The first `\label{...}` on line `k`, else the first one on line `k+1`. */
  function LabelNear(lines: seq<string>, k: nat): (r: Option<string>)
    requires k < |lines|
    ensures FirstLabel(lines[k]).Some? ==> r == FirstLabel(lines[k])
    ensures FirstLabel(lines[k]).None? && k + 1 < |lines| ==> r == FirstLabel(lines[k + 1])
    ensures FirstLabel(lines[k]).None? && k + 1 == |lines| ==> r.None?
  {
    var same := FirstLabel(lines[k]);
    if same.Some? then same
    else if k + 1 < |lines| then FirstLabel(lines[k + 1])
    else None
  }

  /** The section that line `k` opens, if any, before numbering. */
  function NodeAt(lines: seq<string>, k: nat): (r: Option<Section>)
    requires k < |lines|
    ensures r.Some? <==> HeadingOn(lines[k]).Some?
    ensures r.Some? ==> (r.value.startLine == k && r.value.level < |LevelNames|
      && r.value.number == 0 && r.value.endLine == 0 && r.value.content == ""
      && r.value.labelName == LabelNear(lines, k) && IsStripped(r.value.title))
    ensures r.Some? ==> r.value.level == HeadingOn(lines[k]).value.0
    ensures r.Some? ==>
      r.value.title == CleanTitle(Braces.ExtractBraceContent(lines[k], HeadingOn(lines[k]).value.1).0)
  {
    match HeadingOn(lines[k])
    case None => None
    case Some((level, brace)) =>
      var raw := Braces.ExtractBraceContent(lines[k], brace).0;
      Some(Section(level, 0, CleanTitle(raw), LabelNear(lines, k), k, 0, ""))
  }

  /** What every line of the document opens, if anything. */
  function Nodes(lines: seq<string>): (r: seq<Option<Section>>)
    ensures |r| == |lines|
    ensures forall m :: 0 <= m < |r| ==> r[m] == NodeAt(lines, m)
  {
    seq(|lines|, m requires 0 <= m < |lines| => NodeAt(lines, m))
  }

  /** Line `m` of a classification opens the section recorded there. */
  ghost predicate Classified(nodes: seq<Option<Section>>) {
    forall m :: 0 <= m < |nodes| && nodes[m].Some? ==> nodes[m].value.startLine == m
  }

  /** The loop of `find_sections` from line `k`, over the classified lines:
      the recorded sections in increasing line order. */
  function CollectFrom(nodes: seq<Option<Section>>, k: nat): (r: seq<Section>)
    requires k <= |nodes| && Classified(nodes)
    ensures forall j :: 0 <= j < |r| ==> (k <= r[j].startLine < |nodes| && nodes[r[j].startLine] == Some(r[j]))
    ensures forall j, j' :: 0 <= j < j' < |r| ==> r[j].startLine < r[j'].startLine
    decreases |nodes| - k
  {
    if k == |nodes| then []
    else if nodes[k].Some? then [nodes[k].value] + CollectFrom(nodes, k + 1)
    else CollectFrom(nodes, k + 1)
  }

  /** No recorded section is skipped by the loop. */
  lemma {:induction false} CollectComplete(nodes: seq<Option<Section>>, k: nat, m: nat)
    requires k <= m < |nodes| && Classified(nodes) && nodes[m].Some?
    ensures exists j :: 0 <= j < |CollectFrom(nodes, k)| && CollectFrom(nodes, k)[j].startLine == m
    decreases m - k
  {
    var r := CollectFrom(nodes, k);
    if m == k {
      assert r[0].startLine == m;
    } else {
      CollectComplete(nodes, k + 1, m);
      var rest := CollectFrom(nodes, k + 1);
      var j :| 0 <= j < |rest| && rest[j].startLine == m;
      if nodes[k].Some? {
        assert r[j + 1] == rest[j];
      }
    }
  }

  /** `find_sections(content)`. */
  function FindSections(content: string): (r: seq<Section>)
    ensures forall j :: 0 <= j < |r| ==> (r[j].startLine < |Lines(content)|
      && NodeAt(Lines(content), r[j].startLine) == Some(r[j]))
    ensures forall j :: 0 <= j < |r| ==> r[j].level < |LevelNames| && r[j].number == 0
    ensures forall j, j' :: 0 <= j < j' < |r| ==> r[j].startLine < r[j'].startLine
    ensures forall m :: 0 <= m < |Lines(content)| && NodeAt(Lines(content), m).Some? ==>
      exists j :: 0 <= j < |r| && r[j].startLine == m
  {
    var nodes := Nodes(Lines(content));
    var r := CollectFrom(nodes, 0);
    assert forall m :: 0 <= m < |nodes| && nodes[m].Some? ==> exists j :: 0 <= j < |r| && r[j].startLine == m by {
      forall m | 0 <= m < |nodes| && nodes[m].Some? {
        CollectComplete(nodes, 0, m);
      }
    }
    r
  }

  // ---------------------------------------------------------------------------
  // assign_section_numbers
  // ---------------------------------------------------------------------------

  /** How many sections at `level` occur in `s` since its last section of a
      shallower level: the hierarchical number of the newest one. */
  function SiblingCount(s: seq<Section>, level: nat): nat {
    if |s| == 0 then 0
    else if s[|s| - 1].level < level then 0
    else SiblingCount(s[..|s| - 1], level) + (if s[|s| - 1].level == level then 1 else 0)
  }

  /** The number `assign_section_numbers` gives to the `i`-th section. */
  function NumberOf(s: seq<Section>, i: nat): nat
    requires i < |s|
  {
    SiblingCount(s[..i + 1], s[i].level)
  }

  /** `assign_section_numbers`: ten counters; a section bumps the counter at
      its level and clears every deeper one. Levels of ten or more index past
      the counters in the source and are excluded. */
  method AssignSectionNumbers(sections: seq<Section>) returns (r: seq<Section>)
    requires forall i :: 0 <= i < |sections| ==> sections[i].level < MaxLevels
    ensures |r| == |sections|
    ensures forall i :: 0 <= i < |r| ==> r[i] == sections[i].(number := NumberOf(sections, i))
  {
    var counters: seq<nat> := seq(MaxLevels, _ => 0);
    r := [];
    var i := 0;
    while i < |sections|
      invariant 0 <= i <= |sections|
      invariant |counters| == MaxLevels
      invariant forall l :: 0 <= l < MaxLevels ==> counters[l] == SiblingCount(sections[..i], l)
      invariant |r| == i
      invariant forall j :: 0 <= j < i ==> r[j] == sections[j].(number := NumberOf(sections, j))
    {
      var level := sections[i].level;
      assert sections[..i + 1][..i] == sections[..i];
      counters := counters[level := counters[level] + 1];
      var l := level + 1;
      while l < MaxLevels
        invariant level + 1 <= l <= MaxLevels
        invariant |counters| == MaxLevels
        invariant forall m :: 0 <= m < level ==> counters[m] == SiblingCount(sections[..i + 1], m)
        invariant counters[level] == SiblingCount(sections[..i + 1], level)
        invariant forall m :: level < m < l ==> counters[m] == 0
        invariant forall m :: l <= m < MaxLevels ==> counters[m] == SiblingCount(sections[..i], m)
      {
        counters := counters[l := 0];
        l := l + 1;
      }
      r := r + [sections[i].(number := counters[level])];
      i := i + 1;
    }
  }

  /** Every numbered section gets a number of at least one. */
  lemma NumberPositive(s: seq<Section>, i: nat)
    requires i < |s|
    ensures NumberOf(s, i) >= 1
  {
    assert s[..i + 1][..i] == s[..i];
  }

  /** Sections deeper than `level` between `j` and `i` leave the count at
      `level` untouched. */
  lemma {:induction false} SkipDeeper(s: seq<Section>, j: nat, i: nat, level: nat)
    requires j < i <= |s|
    requires forall k :: j < k < i ==> s[k].level > level
    ensures SiblingCount(s[..i], level) == SiblingCount(s[..j + 1], level)
    decreases i - j
  {
    if i > j + 1 {
      assert s[..i][..i - 1] == s[..i - 1];
      SkipDeeper(s, j, i - 1, level);
    }
  }

  /** A section directly following (past deeper ones) a shallower section
      restarts at 1. */
  lemma NumberRestarts(s: seq<Section>, j: nat, i: nat)
    requires j < i < |s|
    requires s[j].level < s[i].level
    requires forall k :: j < k < i ==> s[k].level > s[i].level
    ensures NumberOf(s, i) == 1
  {
    assert s[..i + 1][..i] == s[..i];
    SkipDeeper(s, j, i, s[i].level);
    assert s[..j + 1][..j] == s[..j];
  }

  /** A section following (past deeper ones) a sibling at the same level gets
      that sibling's number plus one. */
  lemma NumberIncrements(s: seq<Section>, j: nat, i: nat)
    requires j < i < |s|
    requires s[j].level == s[i].level
    requires forall k :: j < k < i ==> s[k].level > s[i].level
    ensures NumberOf(s, i) == NumberOf(s, j) + 1
  {
    assert s[..i + 1][..i] == s[..i];
    SkipDeeper(s, j, i, s[i].level);
  }

  // ---------------------------------------------------------------------------
  // extract_section_content
  // ---------------------------------------------------------------------------

  /** The line where section `i`'s text stops: the next section's first line,
      or the end of the document for the last section. */
  function EndLineOf(sections: seq<Section>, i: nat, lineCount: nat): nat
    requires i < |sections|
  {
    if i + 1 < |sections| then sections[i + 1].startLine else lineCount
  }

  /** `extract_section_content`: each section receives the lines from its own
      command up to, not including, the next section's command. */
  function ExtractSectionContent(content: string, sections: seq<Section>): (r: seq<Section>)
    ensures |r| == |sections|
    ensures forall i :: 0 <= i < |r| ==>
      && r[i].(endLine := 0, content := "") == sections[i].(endLine := 0, content := "")
      && r[i].endLine == EndLineOf(sections, i, |Lines(content)|)
      && r[i].content == Join(Slice(Lines(content), r[i].startLine, r[i].endLine), "\n")
  {
    var lines := Lines(content);
    seq(|sections|, i requires 0 <= i < |sections| =>
      var end := EndLineOf(sections, i, |lines|);
      sections[i].(endLine := end, content := Join(Slice(lines, sections[i].startLine, end), "\n")))
  }

  /** Start lines strictly increasing and inside the document, as
      `FindSections` produces them. */
  predicate WellPlaced(sections: seq<Section>, lineCount: nat) {
    && (forall j :: 0 <= j < |sections| ==> sections[j].startLine < lineCount)
    && (forall j, j' :: 0 <= j < j' < |sections| ==> sections[j].startLine < sections[j'].startLine)
  }

  function Contents(s: seq<Section>): (r: seq<string>)
    ensures |r| == |s| && forall i :: 0 <= i < |s| ==> r[i] == s[i].content
  {
    seq(|s|, i requires 0 <= i < |s| => s[i].content)
  }

  /** Consecutive line ranges `[starts[j], starts[j+1])`, the last running
      to the end, joined piecewise and then together, give the lines from
      `starts[i]` on joined once. */
  lemma {:induction false} JoinRanges(lines: seq<string>, starts: seq<nat>, cs: seq<string>, i: nat)
    requires |cs| == |starts| && i < |starts|
    requires forall j :: 0 <= j < |starts| ==> starts[j] < |lines|
    requires forall j :: 0 <= j < |starts| - 1 ==> starts[j] < starts[j + 1]
    requires forall j :: 0 <= j < |starts| ==>
      cs[j] == Join(lines[starts[j]..if j + 1 < |starts| then starts[j + 1] else |lines|], "\n")
    ensures Join(cs[i..], "\n") == Join(lines[starts[i]..], "\n")
    decreases |starts| - i
  {
    var a := starts[i];
    var e := if i + 1 < |starts| then starts[i + 1] else |lines|;
    assert a < e <= |lines|;
    assert cs[i] == Join(lines[a..e], "\n");
    if i + 1 == |starts| {
      assert cs[i..] == [cs[i]];
      assert lines[a..|lines|] == lines[a..];
    } else {
      var b := starts[i + 1];
      JoinRanges(lines, starts, cs, i + 1);
      assert cs[i..] == [cs[i]] + cs[i + 1..];
      JoinAppend([cs[i]], cs[i + 1..], "\n");
      assert lines[a..] == lines[a..b] + lines[b..];
      JoinAppend(lines[a..b], lines[b..], "\n");
    }
  }

  function StartLines(s: seq<Section>): (r: seq<nat>)
    ensures |r| == |s| && forall i :: 0 <= i < |s| ==> r[i] == s[i].startLine
  {
    seq(|s|, i requires 0 <= i < |s| => s[i].startLine)
  }

  /** The extracted contents tile the document: joined back with newlines
      they give exactly the lines from the first section's command onward. */
  lemma ContentsTile(content: string, sections: seq<Section>)
    requires WellPlaced(sections, |Lines(content)|)
    requires |sections| > 0
    ensures Join(Contents(ExtractSectionContent(content, sections)), "\n")
      == Join(Lines(content)[sections[0].startLine..], "\n")
  {
    var lines := Lines(content);
    var r := ExtractSectionContent(content, sections);
    var cs := Contents(r);
    var starts := StartLines(sections);
    forall j | 0 <= j < |starts|
      ensures cs[j] == Join(lines[starts[j]..if j + 1 < |starts| then starts[j + 1] else |lines|], "\n")
    {
      assert r[j].startLine == starts[j];
    }
    JoinRanges(lines, starts, cs, 0);
    assert cs[0..] == cs;
  }

  /** When the first command is on the first line, the contents joined with
      newlines reproduce the document itself. */
  lemma ContentsRebuildDocument(content: string, sections: seq<Section>)
    requires WellPlaced(sections, |Lines(content)|)
    requires |sections| > 0 && sections[0].startLine == 0
    ensures Join(Contents(ExtractSectionContent(content, sections)), "\n") == content
  {
    ContentsTile(content, sections);
    assert Lines(content)[0..] == Lines(content);
    JoinSplit(content, '\n');
  }

  /** The numbering pass keeps the start lines and the levels, and gives
      every section a positive number. */
  method NumberFound(found: seq<Section>, lineCount: nat) returns (r: seq<Section>)
    requires WellPlaced(found, lineCount)
    requires forall i :: 0 <= i < |found| ==> found[i].level < |LevelNames|
    ensures |r| == |found| && WellPlaced(r, lineCount)
    ensures forall i :: 0 <= i < |r| ==> r[i].level < |LevelNames| && r[i].number >= 1
  {
    r := AssignSectionNumbers(found);
    forall i | 0 <= i < |found|
      ensures r[i].number >= 1
    {
      NumberPositive(found, i);
    }
  }

  /** Cutting the contents changes neither the level nor the number. */
  lemma CutKeeps(a: Section, b: Section)
    requires a.(endLine := 0, content := "") == b.(endLine := 0, content := "")
    ensures a.level == b.level && a.number == b.number && a.startLine == b.startLine
  {
    assert a.(endLine := 0, content := "").level == a.level;
    assert b.(endLine := 0, content := "").number == b.number;
  }

  /** The sections pass of the splitter: find, number, then cut. */
  method SplitDocument(content: string) returns (r: seq<Section>)
    ensures |r| == |FindSections(content)|
    ensures forall i :: 0 <= i < |r| ==> r[i].level < |LevelNames| && r[i].number >= 1
    ensures WellPlaced(r, |Lines(content)|)
    ensures |r| > 0 ==> Join(Contents(r), "\n") == Join(Lines(content)[r[0].startLine..], "\n")
  {
    var found := FindSections(content);
    var numbered := NumberFound(found, |Lines(content)|);
    r := ExtractSectionContent(content, numbered);
    forall i | 0 <= i < |r|
      ensures r[i].level == numbered[i].level && r[i].number == numbered[i].number
      ensures r[i].startLine == numbered[i].startLine
    {
      CutKeeps(r[i], numbered[i]);
    }
    if |r| > 0 {
      ContentsTile(content, numbered);
    }
  }
}
