/** The reading log of scripts/session_logger.py: daily session logs and the
    weekly notes of knowledge gaps and mastered concepts, kept as Markdown
    files under a data directory, and the weekly summary read back from the
    notes. The file system is a map from path to content; the date, time and
    week strings are parameters, as the clock is not modelled. */
module SessionLog {
  import opened Wrappers
  import opened Text
  import opened Paths

  // ---------------------------------------------------------------------------
  // Paths and headers
  // ---------------------------------------------------------------------------

  /** The two kinds of weekly note. */
  datatype NoteKind = Gap | Mastered

  /** `notes/<week>-gaps.md` or `notes/<week>-mastered.md`. */
  function NotePath(dataDir: string, week: string, kind: NoteKind): (p: string)
    ensures EndsWith(p, if kind == Gap then "-gaps.md" else "-mastered.md")
  {
    JoinPath(JoinPath(dataDir, "notes"), week + (if kind == Gap then "-gaps.md" else "-mastered.md"))
  }

  /** `sessions/<date>.md`. */
  function SessionPath(dataDir: string, date: string): (p: string)
    ensures EndsWith(p, date + ".md")
  {
    JoinPath(JoinPath(dataDir, "sessions"), date + ".md")
  }

  /** The first line of a new weekly note. */
  function Heading(week: string, kind: NoteKind): string {
    match kind
    case Gap => "# Knowledge Gaps: " + week
    case Mastered => "# Concepts Mastered: " + week
  }

  /** The line below the heading of a new weekly note. */
  function Blurb(kind: NoteKind): (b: string)
    ensures '\n' !in b && |b| > 4 && b[0] != '#'
  {
    match kind
    case Gap => "Concepts to revisit and strengthen."
    case Mastered => "New understandings and insights."
  }

  /** The header a new weekly note starts with. */
  function NoteHeader(week: string, kind: NoteKind): string {
    Heading(week, kind) + "\n\n" + Blurb(kind) + "\n\n"
  }

  /** The header a new daily log starts with. */
  function SessionHeader(date: string): string {
    "# Reading Session: " + date + "\n\n"
  }

  /** The check mark that opens a mastered entry's title. */
  const Check: char := '✓'

  // ---------------------------------------------------------------------------
  // Entries
  // ---------------------------------------------------------------------------

  /** ` (<paper>)` after a title when a paper is given and not empty. */
  function PaperRef(paperId: Option<string>): (r: string)
    ensures r == "" || r[0] == ' '
    ensures paperId.Some? && paperId.value != "" ==> r == " (" + paperId.value + ")"
  {
    match paperId
    case Some(p) => if p == "" then "" else " (" + p + ")"
    case None => ""
  }

  /** The title line of a note entry. */
  function TitleLine(concept: string, paperId: Option<string>, kind: NoteKind): string {
    match kind
    case Gap => "### " + concept + PaperRef(paperId)
    case Mastered => "### " + [Check] + " " + concept + PaperRef(paperId)
  }

  /** What follows an entry's title: the date in italics, the text and a
      rule. */
  function EntryBody(date: string, text: string): string {
    "*" + date + "*\n\n" + text + "\n\n---\n\n"
  }

  /** A weekly note entry. */
  function NoteEntry(concept: string, paperId: Option<string>, date: string, text: string, kind: NoteKind): string {
    TitleLine(concept, paperId, kind) + "\n" + EntryBody(date, text)
  }

  /** A daily log entry. */
  function SessionEntry(time: string, paperId: string, section: string, summary: string): string {
    "## " + time + " - " + paperId + " / " + section + "\n\n" + summary + "\n\n---\n\n"
  }

  // ---------------------------------------------------------------------------
  // Logging
  // ---------------------------------------------------------------------------

  /** What a log call leaves behind: the file it wrote and the new store. */
  datatype Logged = Logged(file: string, files: map<string, string>)

  /** The existing content of `path`, or `header` for a new file, with
      `entry` appended. */
  function Append(files: map<string, string>, path: string, header: string, entry: string): (r: Logged)
    ensures r.file == path && path in r.files
    ensures path in files ==> r.files[path] == files[path] + entry
    ensures path !in files ==> r.files[path] == header + entry
    ensures forall p :: p in files && p != path ==> p in r.files && r.files[p] == files[p]
    ensures r.files.Keys == files.Keys + {path}
  {
    var before := if path in files then files[path] else header;
    Logged(path, files[path := before + entry])
  }

  /** `log_session`. */
  function LogSession(files: map<string, string>, dataDir: string, date: string, time: string,
                      paperId: string, section: string, summary: string): (r: Logged)
    ensures r.file == SessionPath(dataDir, date) && r.file in r.files
    ensures var before := if r.file in files then files[r.file] else SessionHeader(date);
      r.files[r.file] == before + SessionEntry(time, paperId, section, summary)
    ensures forall q :: q in files && q != r.file ==> q in r.files && r.files[q] == files[q]
    ensures r.files.Keys == files.Keys + {r.file}
  {
    Append(files, SessionPath(dataDir, date), SessionHeader(date), SessionEntry(time, paperId, section, summary))
  }

  /** `log_gap` and `log_mastered`. */
  function LogNote(files: map<string, string>, dataDir: string, week: string, date: string,
                   concept: string, text: string, paperId: Option<string>, kind: NoteKind): (r: Logged)
    ensures r.file == NotePath(dataDir, week, kind) && r.file in r.files
    ensures var before := if r.file in files then files[r.file] else NoteHeader(week, kind);
      r.files[r.file] == before + NoteEntry(concept, paperId, date, text, kind)
    ensures forall q :: q in files && q != r.file ==> q in r.files && r.files[q] == files[q]
    ensures r.files.Keys == files.Keys + {r.file}
  {
    Append(files, NotePath(dataDir, week, kind), NoteHeader(week, kind), NoteEntry(concept, paperId, date, text, kind))
  }

  // ---------------------------------------------------------------------------
  // Reading the notes back
  // ---------------------------------------------------------------------------

  /** A title line the summary counts: for gaps `### ` but not `### ✓`, for
      mastered concepts `### ✓`. */
  predicate IsTitle(line: string, kind: NoteKind) {
    match kind
    case Gap => StartsWith(line, "### ") && !StartsWith(line, "### " + [Check])
    case Mastered => StartsWith(line, "### " + [Check])
  }

  /** The concept of a title line: what follows the marker, cut at the first
      `(`, stripped. */
  function ConceptOf(line: string, kind: NoteKind): string
    requires IsTitle(line, kind)
  {
    var skip := if kind == Gap then 4 else 5;
    Strip(Split(line[skip..], '(')[0])
  }

  /** The concepts of the title lines, in order. */
  function Concepts(lines: seq<string>, kind: NoteKind): (r: seq<string>)
    ensures |r| <= |lines|
    decreases |lines|
  {
    if |lines| == 0 then []
    else
      var rest := Concepts(lines[1..], kind);
      if IsTitle(lines[0], kind) then [ConceptOf(lines[0], kind)] + rest else rest
  }

  /** The concepts of a note's text, line by line. */
  function NoteConcepts(content: string, kind: NoteKind): seq<string> {
    Concepts(Split(content, '\n'), kind)
  }

  /** A count and its list, as the summary reports them. */
  datatype Tally = Tally(count: nat, concepts: seq<string>)

  /** The tally of one weekly note, zero when the file does not exist. */
  function TallyOf(files: map<string, string>, path: string, kind: NoteKind): (t: Tally)
    ensures t.count == |t.concepts|
    ensures path !in files ==> t == Tally(0, [])
    ensures path in files ==> t.concepts == NoteConcepts(files[path], kind)
  {
    if path in files then
      var cs := NoteConcepts(files[path], kind);
      Tally(|cs|, cs)
    else Tally(0, [])
  }

  datatype Summary = Summary(week: string, gaps: Tally, mastered: Tally)

  /** `get_weekly_summary` for a given week. */
  function WeeklySummary(files: map<string, string>, dataDir: string, week: string): (s: Summary)
    ensures s.week == week
    ensures s.gaps.count == |s.gaps.concepts| && s.mastered.count == |s.mastered.concepts|
    ensures s.gaps == TallyOf(files, NotePath(dataDir, week, Gap), Gap)
    ensures s.mastered == TallyOf(files, NotePath(dataDir, week, Mastered), Mastered)
  {
    Summary(week,
      TallyOf(files, NotePath(dataDir, week, Gap), Gap),
      TallyOf(files, NotePath(dataDir, week, Mastered), Mastered))
  }

  // ---------------------------------------------------------------------------
  // Reading back what was logged
  // ---------------------------------------------------------------------------

  /** The concepts of two runs of lines are those of each, in order. */
  lemma {:induction false} ConceptsAppend(a: seq<string>, b: seq<string>, kind: NoteKind)
    ensures Concepts(a + b, kind) == Concepts(a, kind) + Concepts(b, kind)
    decreases |a|
  {
    if |a| == 0 {
      assert a + b == b;
    } else {
      assert (a + b)[0] == a[0] && (a + b)[1..] == a[1..] + b;
      ConceptsAppend(a[1..], b, kind);
    }
  }

  /** Two texts joined by a line break: the concepts of each, in order. */
  lemma NoteConceptsJoin(x: string, y: string, kind: NoteKind)
    ensures NoteConcepts(x + "\n" + y, kind) == NoteConcepts(x, kind) + NoteConcepts(y, kind)
  {
    SplitAppend(x, y, '\n');
    ConceptsAppend(Split(x, '\n'), Split(y, '\n'), kind);
  }

  /** A single line counts exactly when it is a title. */
  lemma LineConcepts(line: string, kind: NoteKind)
    requires '\n' !in line
    ensures NoteConcepts(line, kind) == (if IsTitle(line, kind) then [ConceptOf(line, kind)] else [])
  {
    SplitNoSep(line, '\n');
    assert [line][1..] == [];
  }

  /** Every title starts with `### `. */
  lemma TitleHasMarker(line: string, kind: NoteKind)
    requires IsTitle(line, kind)
    ensures StartsWith(line, "### ")
  {
    if kind == Mastered {
      assert line[..4] == line[..5][..4];
    }
  }

  /** A line that does not start with `### ` holds no concept. */
  lemma PlainLine(line: string, kind: NoteKind)
    requires '\n' !in line && !StartsWith(line, "### ")
    ensures NoteConcepts(line, kind) == []
  {
    if IsTitle(line, kind) {
      TitleHasMarker(line, kind);
    }
    LineConcepts(line, kind);
  }

  /** A blank line between two texts adds no concept. */
  lemma JoinBlank(x: string, y: string, kind: NoteKind)
    ensures NoteConcepts(x + "\n\n" + y, kind) == NoteConcepts(x, kind) + NoteConcepts(y, kind)
  {
    assert x + "\n\n" + y == x + "\n" + ("" + "\n" + y);
    PlainLine("", kind);
    NoteConceptsJoin("", y, kind);
    NoteConceptsJoin(x, "" + "\n" + y, kind);
  }

  /** Two trailing line breaks add no concept. */
  lemma TrailingBlank(x: string, kind: NoteKind)
    ensures NoteConcepts(x + "\n\n", kind) == NoteConcepts(x, kind)
  {
    assert x + "\n\n" == x + "\n\n" + "";
    JoinBlank(x, "", kind);
    PlainLine("", kind);
  }

  /** No line of the text starts with `### `. */
  predicate NoTitleLines(text: string) {
    forall l :: l in Split(text, '\n') ==> !StartsWith(l, "### ")
  }

  /** Lines none of which starts with `### ` hold no concepts. */
  lemma {:induction false} ConceptsNone(lines: seq<string>, kind: NoteKind)
    requires forall l :: l in lines ==> !StartsWith(l, "### ")
    ensures Concepts(lines, kind) == []
    decreases |lines|
  {
    if |lines| > 0 {
      if IsTitle(lines[0], kind) {
        TitleHasMarker(lines[0], kind);
      }
      assert forall l :: l in lines[1..] ==> l in lines;
      ConceptsNone(lines[1..], kind);
    }
  }

  /** The date line, the text and the rule below a title add no concept. */
  lemma BodyConcepts(date: string, text: string, kind: NoteKind)
    requires '\n' !in date && NoTitleLines(text)
    ensures NoteConcepts(EntryBody(date, text), kind) == []
  {
    var d := "*" + date + "*";
    assert |d| >= 4 ==> d[..4][0] == d[0] == '*';
    assert EntryBody(date, text) == d + "\n\n" + text + "\n\n" + "---" + "\n\n";
    PlainLine(d, kind);
    PlainLine("---", kind);
    ConceptsNone(Split(text, '\n'), kind);
    JoinBlank(d, text, kind);
    JoinBlank(d + "\n\n" + text, "---", kind);
    TrailingBlank(d + "\n\n" + text + "\n\n" + "---", kind);
  }

  /** The header of a new note adds no concept. */
  lemma HeaderConcepts(week: string, kind: NoteKind)
    requires '\n' !in week
    ensures NoteConcepts(NoteHeader(week, kind), kind) == []
  {
    var h := Heading(week, kind);
    assert h[..4][1] == ' ';
    PlainLine(h, kind);
    assert Blurb(kind)[..4][0] == Blurb(kind)[0];
    PlainLine(Blurb(kind), kind);
    JoinBlank(h, Blurb(kind), kind);
    TrailingBlank(h + "\n\n" + Blurb(kind), kind);
  }

  /** Splitting a title's remainder at `(`: the paper reference is cut off,
      leaving one space behind when there was one. */
  lemma CutAtPaperRef(u: string, paperId: Option<string>)
    requires '(' !in u
    ensures Split(u + PaperRef(paperId), '(')[0] == u + (if PaperRef(paperId) == "" then "" else " ")
  {
    var ref := PaperRef(paperId);
    if ref == "" {
      assert u + ref == u;
      SplitNoSep(u, '(');
    } else {
      var id := paperId.value;
      assert u + ref == (u + " ") + ['('] + (id + ")");
      SplitAppend(u + " ", id + ")", '(');
      SplitNoSep(u + " ", '(');
    }
  }

  /** A line `### <u>` is a gap title unless `u` opens with the check mark. */
  lemma GapTitle(u: string)
    requires u == "" || u[0] != Check
    ensures IsTitle("### " + u, Gap) && ("### " + u)[4..] == u
  {
    var line := "### " + u;
    assert line[..4] == "### ";
    if |line| >= 5 {
      assert line[..5][4] == u[0];
    }
  }

  /** A line `### ✓<u>` is a mastered title. */
  lemma MasteredTitle(u: string)
    ensures IsTitle("### " + [Check] + u, Mastered) && ("### " + [Check] + u)[5..] == u
  {
    assert ("### " + [Check] + u)[..5] == "### " + [Check];
  }

  /** What a logged concept must look like to be read back unchanged: one
      line, no `(`, no surrounding whitespace, and for a gap no leading check
      mark. */
  predicate Readable(concept: string, kind: NoteKind) {
    && '\n' !in concept && '(' !in concept && IsStripped(concept)
    && (kind == Gap ==> concept == "" || concept[0] != Check)
  }

  /** A gap title is read back as its concept. */
  lemma GapTitleIsRead(concept: string, paperId: Option<string>)
    requires Readable(concept, Gap)
    ensures IsTitle(TitleLine(concept, paperId, Gap), Gap)
    ensures ConceptOf(TitleLine(concept, paperId, Gap), Gap) == concept
  {
    var ref := PaperRef(paperId);
    var pad := if ref == "" then "" else " ";
    assert TitleLine(concept, paperId, Gap) == "### " + (concept + ref);
    GapTitle(concept + ref);
    CutAtPaperRef(concept, paperId);
    StripPadded("", concept, pad);
    assert "" + concept + pad == concept + pad;
  }

  /** A mastered title is read back as its concept. */
  lemma MasteredTitleIsRead(concept: string, paperId: Option<string>)
    requires Readable(concept, Mastered)
    ensures IsTitle(TitleLine(concept, paperId, Mastered), Mastered)
    ensures ConceptOf(TitleLine(concept, paperId, Mastered), Mastered) == concept
  {
    var ref := PaperRef(paperId);
    var pad := if ref == "" then "" else " ";
    assert TitleLine(concept, paperId, Mastered) == "### " + [Check] + (" " + concept + ref);
    MasteredTitle(" " + concept + ref);
    CutAtPaperRef(" " + concept, paperId);
    StripPadded(" ", concept, pad);
  }

  /** The title of an entry is read back as its concept. */
  lemma TitleIsRead(concept: string, paperId: Option<string>, kind: NoteKind)
    requires Readable(concept, kind)
    ensures IsTitle(TitleLine(concept, paperId, kind), kind)
    ensures ConceptOf(TitleLine(concept, paperId, kind), kind) == concept
  {
    if kind == Gap {
      GapTitleIsRead(concept, paperId);
    } else {
      MasteredTitleIsRead(concept, paperId);
    }
  }

  /** The title of an entry yields its concept. */
  lemma TitleConcept(concept: string, paperId: Option<string>, kind: NoteKind)
    requires Readable(concept, kind)
    requires paperId.Some? ==> '\n' !in paperId.value
    ensures NoteConcepts(TitleLine(concept, paperId, kind), kind) == [concept]
  {
    assert '\n' !in PaperRef(paperId);
    assert '\n' !in TitleLine(concept, paperId, kind);
    TitleIsRead(concept, paperId, kind);
    LineConcepts(TitleLine(concept, paperId, kind), kind);
  }

  /** A logged entry yields exactly its concept. */
  lemma EntryConcepts(concept: string, paperId: Option<string>, date: string, text: string, kind: NoteKind)
    requires Readable(concept, kind)
    requires paperId.Some? ==> '\n' !in paperId.value
    requires '\n' !in date && NoTitleLines(text)
    ensures NoteConcepts(NoteEntry(concept, paperId, date, text, kind), kind) == [concept]
  {
    TitleConcept(concept, paperId, kind);
    BodyConcepts(date, text, kind);
    NoteConceptsJoin(TitleLine(concept, paperId, kind), EntryBody(date, text), kind);
  }

  /** Text appended after a line break (or to nothing) adds its concepts
      after those already there. */
  lemma AppendConcepts(before: string, entry: string, kind: NoteKind)
    requires before == "" || before[|before| - 1] == '\n'
    ensures NoteConcepts(before + entry, kind) == NoteConcepts(before, kind) + NoteConcepts(entry, kind)
  {
    PlainLine("", kind);
    if before == "" {
      assert before + entry == entry;
    } else {
      var b0 := before[..|before| - 1];
      assert before == b0 + "\n" + "";
      assert before + entry == b0 + "\n" + entry;
      NoteConceptsJoin(b0, "", kind);
      NoteConceptsJoin(b0, entry, kind);
    }
  }

  /** The gap and mastered notes of a week are different files. */
  lemma NotePathsDiffer(dataDir: string, week: string)
    ensures NotePath(dataDir, week, Gap) != NotePath(dataDir, week, Mastered)
  {
    var dir := JoinPath(dataDir, "notes");
    assert dir != "";
    assert |NotePath(dataDir, week, Gap)| == |dir| + 1 + |week| + 8;
    assert |NotePath(dataDir, week, Mastered)| == |dir| + 1 + |week| + 12;
  }

  /** Logging a readable concept adds it at the end of the concepts read
      back from its note, provided the note ends in a line break, as every
      note the logger writes does. */
  lemma LogNoteConcepts(files: map<string, string>, dataDir: string, week: string, date: string,
                        concept: string, text: string, paperId: Option<string>, kind: NoteKind)
    requires Readable(concept, kind)
    requires paperId.Some? ==> '\n' !in paperId.value
    requires '\n' !in date && '\n' !in week && NoTitleLines(text)
    requires var p := NotePath(dataDir, week, kind);
      p in files ==> files[p] == "" || files[p][|files[p]| - 1] == '\n'
    ensures var p := NotePath(dataDir, week, kind);
      var r := LogNote(files, dataDir, week, date, concept, text, paperId, kind);
      NoteConcepts(r.files[p], kind) == (if p in files then NoteConcepts(files[p], kind) else []) + [concept]
  {
    var p := NotePath(dataDir, week, kind);
    var before := if p in files then files[p] else NoteHeader(week, kind);
    if p !in files {
      HeaderConcepts(week, kind);
      var h := NoteHeader(week, kind);
      assert h[|h| - 1] == (Heading(week, kind) + "\n\n" + Blurb(kind) + "\n\n")[|h| - 1];
    }
    AppendConcepts(before, NoteEntry(concept, paperId, date, text, kind), kind);
    EntryConcepts(concept, paperId, date, text, kind);
  }

  /** What logging a gap (or a mastered concept) does to the weekly summary:
      its concept is added at the end of its list, and the other list does
      not change. */
  lemma LoggedNoteIsSummarized(files: map<string, string>, dataDir: string, week: string, date: string,
                               concept: string, text: string, paperId: Option<string>, kind: NoteKind)
    requires Readable(concept, kind)
    requires paperId.Some? ==> '\n' !in paperId.value
    requires '\n' !in date && '\n' !in week && NoTitleLines(text)
    requires var p := NotePath(dataDir, week, kind);
      p in files ==> files[p] == "" || files[p][|files[p]| - 1] == '\n'
    ensures var s0 := WeeklySummary(files, dataDir, week);
      var s1 := WeeklySummary(LogNote(files, dataDir, week, date, concept, text, paperId, kind).files, dataDir, week);
      && (kind == Gap ==> s1.gaps.concepts == s0.gaps.concepts + [concept] && s1.mastered == s0.mastered)
      && (kind == Mastered ==> s1.mastered.concepts == s0.mastered.concepts + [concept] && s1.gaps == s0.gaps)
  {
    LogNoteConcepts(files, dataDir, week, date, concept, text, paperId, kind);
    NotePathsDiffer(dataDir, week);
  }

  /** A mastered entry is never counted as a gap. */
  lemma MasteredEntryNotAGap(concept: string, paperId: Option<string>, date: string, text: string)
    requires '\n' !in concept && (paperId.Some? ==> '\n' !in paperId.value)
    requires '\n' !in date && NoTitleLines(text)
    ensures NoteConcepts(NoteEntry(concept, paperId, date, text, Mastered), Gap) == []
  {
    var line := TitleLine(concept, paperId, Mastered);
    assert '\n' !in PaperRef(paperId);
    assert line == "### " + [Check] + (" " + concept + PaperRef(paperId));
    MasteredTitle(" " + concept + PaperRef(paperId));
    LineConcepts(line, Gap);
    BodyConcepts(date, text, Gap);
    NoteConceptsJoin(line, EntryBody(date, text), Gap);
  }

  /** A concept holding `(` is cut there: only the stripped part before it
      is read back. */
  lemma ConceptCutAtParen(a: string, b: string)
    requires '(' !in a && (a == "" || a[0] != Check)
    ensures IsTitle("### " + a + "(" + b, Gap)
    ensures ConceptOf("### " + a + "(" + b, Gap) == Strip(a)
  {
    assert "### " + a + "(" + b == "### " + (a + ['('] + b);
    GapTitle(a + ['('] + b);
    SplitAppend(a, b, '(');
    SplitNoSep(a, '(');
  }
}
