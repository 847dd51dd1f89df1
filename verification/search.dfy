/** Lookups in a split paper, after scripts/search_paper.py: a section by
    number or by part of its file name, an equation by label or by a
    reference to it, and a piece of text. The `sections` directory is given
    as its listing of (name, content) pairs, `None` when it does not exist;
    files are visited in sorted name order. */
module Search {
  import opened Wrappers
  import opened Text
  import opened Paths
  import Order
  import BuildIndex
  import Writer

  /** The `.tex` files of the sections directory, sorted by name. */
  function SectionFiles(listing: Order.Listing): (r: Order.Listing)
    ensures Order.SortedByName(r)
    ensures forall e :: e in r <==> e in listing && EndsWith(e.0, ".tex")
  {
    var tex := BuildIndex.TexEntries(listing);
    var r := Order.SortByName(tex);
    assert forall e :: e in r <==> e in multiset(r);
    r
  }

  /** `query.lower().strip()`. */
  function Normalize(query: string): string {
    Strip(Lower(query))
  }

  /** The names of the entries, in order. */
  function Names(files: Order.Listing): (r: seq<string>)
    ensures |r| == |files|
    ensures forall i :: 0 <= i < |files| ==> r[i] == files[i].0
  {
    seq(|files|, i requires 0 <= i < |files| => files[i].0)
  }

  /** The sections directory of a paper directory. */
  function SectionsDir(paperDir: string): string { JoinPath(paperDir, "sections") }

  // ---------------------------------------------------------------------------
  // Sections
  // ---------------------------------------------------------------------------

  /** End of the run of ASCII digits starting at `i`. */
  function DigitRunEnd(s: string, i: nat): (j: nat)
    requires i <= |s|
    ensures i <= j <= |s|
    ensures forall k :: i <= k < j ==> IsDigit(s[k])
    ensures j == |s| || !IsDigit(s[j])
    decreases |s| - i
  {
    if i < |s| && IsDigit(s[i]) then DigitRunEnd(s, i + 1) else i
  }

  /** A run of digits from `i` to a non-digit (or the end) at `j` ends at `j`. */
  lemma {:induction false} DigitRunEndAt(s: string, i: nat, j: nat)
    requires i <= j <= |s|
    requires forall k :: i <= k < j ==> IsDigit(s[k])
    requires j == |s| || !IsDigit(s[j])
    ensures DigitRunEnd(s, i) == j
    decreases j - i
  {
    if i < j {
      DigitRunEndAt(s, i + 1, j);
    }
  }

  /** `re.match(r'^(\d+)_', name)` read as a number: the digits the name
      starts with, when an underscore follows them. */
  function LeadingNumber(name: string): (r: Option<nat>)
    ensures r.Some? ==> |name| > 0 && IsDigit(name[0])
  {
    var k := DigitRunEnd(name, 0);
    if 0 < k < |name| && name[k] == '_' then Some(DigitsValue(name[..k])) else None
  }

  /** Digits followed by an underscore are read as their value. */
  lemma LeadingNumberOf(digits: string, rest: string)
    requires digits != "" && AllDigits(digits)
    ensures LeadingNumber(digits + "_" + rest) == Some(DigitsValue(digits))
  {
    var s := digits + "_" + rest;
    assert s[|digits|] == '_';
    DigitRunEndAt(s, 0, |digits|);
    assert s[..|digits|] == digits;
  }

  /** The file written for the `position`-th unit is found again by that
      number. */
  lemma WrittenNameNumber(position: nat, levelName: string, slug: string)
    ensures LeadingNumber(Writer.FileName(position, levelName, slug)) == Some(position)
  {
    var rest := levelName + "_" + slug + ".tex";
    assert Writer.FileName(position, levelName, slug) == Pad2(position) + "_" + rest;
    LeadingNumberOf(Pad2(position), rest);
  }

  /** For each entry: itself when it carries `n` as leading number. */
  function NumberHits(files: Order.Listing, n: nat): (h: seq<Option<(string, string)>>)
    ensures |h| == |files|
    ensures forall i :: 0 <= i < |files| ==>
      h[i] == (if LeadingNumber(files[i].0) == Some(n) then Some(files[i]) else None)
  {
    seq(|files|, i requires 0 <= i < |files| =>
      if LeadingNumber(files[i].0) == Some(n) then Some(files[i]) else None)
  }

  /** The entries whose lower-case name contains `q`, in order. */
  function NameMatches(files: Order.Listing, q: string): (r: Order.Listing)
    ensures forall e :: e in r <==> e in files && Contains(Lower(e.0), q)
    ensures |r| <= |files|
    decreases |files|
  {
    if |files| == 0 then []
    else
      var rest := NameMatches(files[1..], q);
      assert forall e :: e in files <==> e == files[0] || e in files[1..];
      if Contains(Lower(files[0].0), q) then [files[0]] + rest else rest
  }

  const PreviewLength: nat := 500
  const AvailableShown: nat := 10

  /** The record of a found section: its path, its name, its number and the
      first 500 characters of its text. */
  datatype SectionHit = SectionHit(file: string, fileName: string, number: Option<nat>, preview: string)

  datatype SectionAnswer =
    | SectionFound(hit: SectionHit)
    | MultipleMatches(names: seq<string>)
    | SectionNotFound(query: string, available: seq<string>)

  function HitOf(sectionsDir: string, e: (string, string), number: Option<nat>): SectionHit {
    SectionHit(JoinPath(sectionsDir, e.0), e.0, number, Take(e.1, PreviewLength))
  }

  /** A numeric query is the number of some file. */
  predicate NumericQuery(q: string) { q != "" && AllDigits(q) }

  /** `search_by_section` over the sorted files: a numeric query picks the
      first file with that leading number; otherwise (or when no file has
      it) the query is looked for in the lower-case names, and must pick
      out exactly one file. */
  function SectionLookup(sectionsDir: string, files: Order.Listing, query: string): (r: SectionAnswer)
    ensures var q := Normalize(query);
      r.SectionFound? ==> exists e :: (e in files && r.hit == HitOf(sectionsDir, e, r.hit.number)
        && (LeadingNumber(e.0) == r.hit.number || Contains(Lower(e.0), q)))
    ensures var q := Normalize(query);
      r.MultipleMatches? ==> |r.names| >= 2 && r.names == Names(NameMatches(files, q))
    ensures var q := Normalize(query);
      r.SectionNotFound? ==> ((forall e :: e in files ==> !Contains(Lower(e.0), q))
        && r.query == query && r.available == Names(Take(files, AvailableShown)))
  {
    var q := Normalize(query);
    var numbered := if NumericQuery(q) then FirstHit(NumberHits(files, DigitsValue(q)), 0) else None;
    if numbered.Some? then
      assert numbered.value.1 in files;
      SectionFound(HitOf(sectionsDir, numbered.value.1, Some(DigitsValue(q))))
    else
      var ms := NameMatches(files, q);
      if |ms| == 1 then
        assert ms[0] in ms;
        SectionFound(HitOf(sectionsDir, ms[0], LeadingNumber(ms[0].0)))
      else if |ms| > 1 then MultipleMatches(Names(ms))
      else
        assert forall e :: e in files ==> !Contains(Lower(e.0), q) by {
          forall e | e in files ensures !Contains(Lower(e.0), q) { assert e !in ms; }
        }
        SectionNotFound(query, Names(Take(files, AvailableShown)))
  }

  /** A numeric query whose number some file carries finds the first such
      file in sorted order, reporting that number. */
  lemma NumberLookup(sectionsDir: string, files: Order.Listing, query: string, k: nat)
    requires NumericQuery(Normalize(query))
    requires k < |files| && LeadingNumber(files[k].0) == Some(DigitsValue(Normalize(query)))
    requires forall j :: 0 <= j < k ==> LeadingNumber(files[j].0) != Some(DigitsValue(Normalize(query)))
    ensures SectionLookup(sectionsDir, files, query)
      == SectionFound(HitOf(sectionsDir, files[k], Some(DigitsValue(Normalize(query)))))
  {
    var n := DigitsValue(Normalize(query));
    FirstHitAt(NumberHits(files, n), 0, k);
  }

  /** Printing a number gives a query that normalises to itself. */
  lemma NumberQuery(n: nat)
    ensures Normalize(NatToString(n)) == NatToString(n)
    ensures NumericQuery(NatToString(n)) && DigitsValue(NatToString(n)) == n
  {
    var s := NatToString(n);
    assert Lower(s) == s;
    StrippedFixed(s);
    DigitsValueOfString(n);
  }

  /** Asking for the number of a written file (by its printed number) finds
      the first file carrying that number, which is that file when no
      earlier one does. */
  lemma FindsWrittenSection(sectionsDir: string, files: Order.Listing, k: nat, position: nat, levelName: string, slug: string)
    requires k < |files| && files[k].0 == Writer.FileName(position, levelName, slug)
    requires forall j :: 0 <= j < k ==> LeadingNumber(files[j].0) != Some(position)
    ensures SectionLookup(sectionsDir, files, NatToString(position))
      == SectionFound(HitOf(sectionsDir, files[k], Some(position)))
  {
    NumberQuery(position);
    WrittenNameNumber(position, levelName, slug);
    NumberLookup(sectionsDir, files, NatToString(position), k);
  }

  /** Without a numbered hit, a query matching exactly one file name finds
      that file, with the number its name carries if any. */
  lemma UniqueNameLookup(sectionsDir: string, files: Order.Listing, query: string)
    requires !NumericQuery(Normalize(query))
    requires |NameMatches(files, Normalize(query))| == 1
    ensures var e := NameMatches(files, Normalize(query))[0];
      SectionLookup(sectionsDir, files, query) == SectionFound(HitOf(sectionsDir, e, LeadingNumber(e.0)))
  {
  }

  // ---------------------------------------------------------------------------
  // Equations
  // ---------------------------------------------------------------------------

  /** The lines `[max(0, i - before), min(n, i + after))` around line `i`:
      they always include line `i` itself. */
  function Around(n: nat, i: nat, before: nat, after: nat): (r: (nat, nat))
    requires i < n && after >= 1
    ensures r.0 <= i < r.1 <= n
    ensures r.0 == (if i >= before then i - before else 0)
    ensures r.1 == (if i + after <= n then i + after else n)
  {
    (if i >= before then i - before else 0, if i + after <= n then i + after else n)
  }

  /** The context shown for a hit on line `i`. */
  function Context(lines: seq<string>, i: nat, before: nat, after: nat): string
    requires i < |lines| && after >= 1
  {
    var w := Around(|lines|, i, before, after);
    Join(lines[w.0..w.1], "\n")
  }

  /** A line that carries the label asked for (the `\label{` form is
      covered by the plain `label{` form). */
  predicate LabelHit(line: string, q: string) {
    Contains(Lower(line), "label{" + q) || Contains(Lower(line), "\\label{" + q)
  }

  /** A line that mentions the query together with an equation. */
  predicate ReferenceHit(line: string, q: string) {
    Contains(Lower(line), q) && (Contains(Lower(line), "equation") || Contains(Lower(line), "eq."))
  }

  /** The second alternative of the label test adds nothing. */
  lemma LabelHitPlain(line: string, q: string)
    ensures LabelHit(line, q) <==> Contains(Lower(line), "label{" + q)
  {
    if Contains(Lower(line), "\\label{" + q) {
      assert "\\label{" + q == ['\\'] + ("label{" + q);
      ContainsTail(Lower(line), '\\', "label{" + q);
    }
  }

  datatype MatchKind = LabelMatch | ReferenceMatch

  datatype EqHit = EqHit(file: string, fileName: string, line: nat, kind: MatchKind, context: string)

  /** The label hit of line `i`: five lines before it, ten after. */
  function LabelEqHit(sectionsDir: string, name: string, lines: seq<string>, i: nat): (h: EqHit)
    requires i < |lines|
    ensures h.fileName == name && h.line == i + 1 && h.kind == LabelMatch
  {
    EqHit(JoinPath(sectionsDir, name), name, i + 1, LabelMatch, Context(lines, i, 5, 10))
  }

  /** The reference hit of line `i`: two lines before it, five after. */
  function ReferenceEqHit(sectionsDir: string, name: string, lines: seq<string>, i: nat): (h: EqHit)
    requires i < |lines|
    ensures h.fileName == name && h.line == i + 1 && h.kind == ReferenceMatch
  {
    EqHit(JoinPath(sectionsDir, name), name, i + 1, ReferenceMatch, Context(lines, i, 2, 5))
  }

  /** The hits of line `i`: its label hit, then its reference hit. */
  function LineEqHits(sectionsDir: string, name: string, lines: seq<string>, i: nat, q: string): (r: seq<EqHit>)
    requires i < |lines|
    ensures forall h :: h in r ==> h.fileName == name && h.line == i + 1
    ensures LabelEqHit(sectionsDir, name, lines, i) in r <==> LabelHit(lines[i], q)
    ensures ReferenceEqHit(sectionsDir, name, lines, i) in r <==> ReferenceHit(lines[i], q)
  {
    (if LabelHit(lines[i], q) then [LabelEqHit(sectionsDir, name, lines, i)] else [])
    + (if ReferenceHit(lines[i], q) then [ReferenceEqHit(sectionsDir, name, lines, i)] else [])
  }

  /** A hit of line `i` belongs to the file and matches the line by its kind. */
  lemma LineHitSound(sectionsDir: string, name: string, lines: seq<string>, i: nat, q: string, h: EqHit)
    requires i < |lines| && h in LineEqHits(sectionsDir, name, lines, i, q)
    ensures h.fileName == name && h.line == i + 1
    ensures h == LabelEqHit(sectionsDir, name, lines, i) || h == ReferenceEqHit(sectionsDir, name, lines, i)
    ensures h.kind.LabelMatch? ==> LabelHit(lines[i], q)
    ensures h.kind.ReferenceMatch? ==> ReferenceHit(lines[i], q)
  {
  }

  /** The hits of a file from line `i` on, in line order. */
  function FileEqHits(sectionsDir: string, name: string, lines: seq<string>, i: nat, q: string): (r: seq<EqHit>)
    requires i <= |lines|
    ensures forall h :: h in r ==> i + 1 <= h.line <= |lines| && h in LineEqHits(sectionsDir, name, lines, h.line - 1, q)
    ensures forall a, b :: 0 <= a < b < |r| ==> r[a].line <= r[b].line
    decreases |lines| - i
  {
    if i == |lines| then []
    else
      var here := LineEqHits(sectionsDir, name, lines, i, q);
      var rest := FileEqHits(sectionsDir, name, lines, i + 1, q);
      here + rest
  }

  /** Every line of the file from `i` on that carries the label yields its label hit. */
  lemma {:induction false} FileEqHitsComplete(sectionsDir: string, name: string, lines: seq<string>, i: nat, q: string, k: nat)
    requires i <= k < |lines| && LabelHit(lines[k], q)
    ensures LabelEqHit(sectionsDir, name, lines, k) in FileEqHits(sectionsDir, name, lines, i, q)
    decreases k - i
  {
    var here := LineEqHits(sectionsDir, name, lines, i, q);
    var rest := FileEqHits(sectionsDir, name, lines, i + 1, q);
    assert FileEqHits(sectionsDir, name, lines, i, q) == here + rest;
    if i < k {
      FileEqHitsComplete(sectionsDir, name, lines, i + 1, q, k);
    }
  }

  /** The hits of every file, from its first line on. */
  function FileEqHitLists(sectionsDir: string, files: Order.Listing, q: string): (hs: seq<seq<EqHit>>)
    ensures |hs| == |files|
    ensures forall f :: 0 <= f < |files| ==> hs[f] == FileEqHits(sectionsDir, files[f].0, Lines(files[f].1), 0, q)
  {
    seq(|files|, f requires 0 <= f < |files| => FileEqHits(sectionsDir, files[f].0, Lines(files[f].1), 0, q))
  }

  /** The hits of all files, file after file: each one a hit of one file. */
  function EqHits(sectionsDir: string, files: Order.Listing, q: string): (r: seq<EqHit>)
    ensures forall h :: h in r ==> exists f :: 0 <= f < |files| && h in FileEqHits(sectionsDir, files[f].0, Lines(files[f].1), 0, q)
  {
    var hs := FileEqHitLists(sectionsDir, files, q);
    Concat(hs)
  }

  /** Every labelled line of every file yields its label hit. */
  lemma EqHitsComplete(sectionsDir: string, files: Order.Listing, q: string, f: nat, k: nat)
    requires f < |files| && k < |Lines(files[f].1)| && LabelHit(Lines(files[f].1)[k], q)
    ensures LabelEqHit(sectionsDir, files[f].0, Lines(files[f].1), k) in EqHits(sectionsDir, files, q)
  {
    FileEqHitsComplete(sectionsDir, files[f].0, Lines(files[f].1), 0, q, k);
    ConcatComplete(FileEqHitLists(sectionsDir, files, q), f, LabelEqHit(sectionsDir, files[f].0, Lines(files[f].1), k));
  }

  /** Every hit found is a label or reference hit of a line of one of the files. */
  lemma EqHitsSound(sectionsDir: string, files: Order.Listing, q: string, h: EqHit)
    requires h in EqHits(sectionsDir, files, q)
    ensures exists f :: (0 <= f < |files| && h.fileName == files[f].0 && 1 <= h.line <= |Lines(files[f].1)|
      && (h.kind.LabelMatch? ==> LabelHit(Lines(files[f].1)[h.line - 1], q))
      && (h.kind.ReferenceMatch? ==> ReferenceHit(Lines(files[f].1)[h.line - 1], q)))
  {
    var f :| 0 <= f < |files| && h in FileEqHits(sectionsDir, files[f].0, Lines(files[f].1), 0, q);
    var lines := Lines(files[f].1);
    LineHitSound(sectionsDir, files[f].0, lines, h.line - 1, q, h);
    assert h.fileName == files[f].0 && 1 <= h.line <= |lines|
      && (h.kind.LabelMatch? ==> LabelHit(lines[h.line - 1], q))
      && (h.kind.ReferenceMatch? ==> ReferenceHit(lines[h.line - 1], q));
  }

  const MaxResults: nat := 5

  datatype EquationAnswer = EquationsFound(hits: seq<EqHit>) | EquationNotFound(query: string)

  /** `search_by_equation` over the sorted files: the first five hits. */
  function EquationLookup(sectionsDir: string, files: Order.Listing, query: string): (r: EquationAnswer)
    ensures r.EquationNotFound? <==> |EqHits(sectionsDir, files, Normalize(query))| == 0
    ensures r.EquationsFound? ==> (1 <= |r.hits| <= MaxResults
      && r.hits == Take(EqHits(sectionsDir, files, Normalize(query)), MaxResults))
  {
    var hits := EqHits(sectionsDir, files, Normalize(query));
    if |hits| == 0 then EquationNotFound(query) else EquationsFound(Take(hits, MaxResults))
  }

  // ---------------------------------------------------------------------------
  // Text
  // ---------------------------------------------------------------------------

  datatype TextHit = TextHit(file: string, fileName: string, line: nat, context: string)

  /** The first line from `i` on whose lower-case form contains `q`. */
  function FirstLineWith(lines: seq<string>, q: string, i: nat): (r: Option<nat>)
    requires i <= |lines|
    ensures r.Some? ==> i <= r.value < |lines| && Contains(Lower(lines[r.value]), q)
    ensures r.Some? ==> forall k :: i <= k < r.value ==> !Contains(Lower(lines[k]), q)
    ensures r.None? ==> forall k :: i <= k < |lines| ==> !Contains(Lower(lines[k]), q)
    decreases |lines| - i
  {
    if i == |lines| then None
    else if Contains(Lower(lines[i]), q) then Some(i)
    else FirstLineWith(lines, q, i + 1)
  }

  /** At most one hit per file: the first line containing the query, looked
      for only when the whole lower-case text contains it. */
  function FileTextHit(sectionsDir: string, e: (string, string), q: string): (r: Option<TextHit>)
    ensures r.Some? ==> (Contains(Lower(e.1), q) && r.value.fileName == e.0
      && FirstLineWith(Lines(e.1), q, 0) == Some(r.value.line - 1))
  {
    if !Contains(Lower(e.1), q) then None
    else
      var lines := Lines(e.1);
      match FirstLineWith(lines, q, 0)
      case None => None
      case Some(i) => Some(TextHit(JoinPath(sectionsDir, e.0), e.0, i + 1, Context(lines, i, 2, 5)))
  }

  /** The text contains whatever one of its lines contains. */
  lemma LineInText(content: string, q: string, k: nat)
    requires k < |Lines(content)| && Contains(Lower(Lines(content)[k]), q)
    ensures Contains(Lower(content), q)
  {
    var lines := Lines(content);
    JoinSplit(content, '\n');
    LowerJoin(lines, "\n");
    ContainsInJoin(LowerEach(lines), "\n", k, q);
  }

  /** A file with a line containing the query always yields a hit, at the
      first such line. */
  lemma TextHitComplete(sectionsDir: string, e: (string, string), q: string, k: nat)
    requires k < |Lines(e.1)| && Contains(Lower(Lines(e.1)[k]), q)
    ensures FileTextHit(sectionsDir, e, q).Some?
    ensures FileTextHit(sectionsDir, e, q).value.line <= k + 1
  {
    LineInText(e.1, q, k);
  }

  /** The hit of every file, if any. */
  function FileTextHits(sectionsDir: string, files: Order.Listing, q: string): (h: seq<Option<TextHit>>)
    ensures |h| == |files|
    ensures forall f :: 0 <= f < |files| ==> h[f] == FileTextHit(sectionsDir, files[f], q)
  {
    seq(|files|, f requires 0 <= f < |files| => FileTextHit(sectionsDir, files[f], q))
  }

  /** The hits of all files, in file order: at most one per file. */
  function TextHits(sectionsDir: string, files: Order.Listing, q: string): (r: seq<TextHit>)
    ensures |r| <= |files|
    ensures forall h :: h in r ==> exists f :: 0 <= f < |files| && FileTextHit(sectionsDir, files[f], q) == Some(h)
  {
    var hs := FileTextHits(sectionsDir, files, q);
    var r := Somes(hs);
    assert forall h :: h in r ==> Some(h) in hs;
    r
  }

  /** Every file with a matching line contributes its hit. */
  lemma TextHitsComplete(sectionsDir: string, files: Order.Listing, q: string, f: nat, k: nat)
    requires f < |files| && k < |Lines(files[f].1)| && Contains(Lower(Lines(files[f].1)[k]), q)
    ensures FileTextHit(sectionsDir, files[f], q).Some?
    ensures FileTextHit(sectionsDir, files[f], q).value in TextHits(sectionsDir, files, q)
  {
    TextHitComplete(sectionsDir, files[f], q, k);
    SomesComplete(FileTextHits(sectionsDir, files, q), f);
  }

  datatype TextAnswer = TextFound(hits: seq<TextHit>) | TextNotFound(query: string)

  /** `search_by_text` over the sorted files: the first five hits. */
  function TextLookup(sectionsDir: string, files: Order.Listing, query: string): (r: TextAnswer)
    ensures r.TextNotFound? <==> |TextHits(sectionsDir, files, Normalize(query))| == 0
    ensures r.TextFound? ==> (1 <= |r.hits| <= MaxResults
      && r.hits == Take(TextHits(sectionsDir, files, Normalize(query)), MaxResults))
  {
    var hits := TextHits(sectionsDir, files, Normalize(query));
    if |hits| == 0 then TextNotFound(query) else TextFound(Take(hits, MaxResults))
  }

  // ---------------------------------------------------------------------------
  // Dispatch
  // ---------------------------------------------------------------------------

  datatype SearchResult =
    | PaperNotFound(paperId: string, path: string)
    | SectionsNotFound(dir: string)
    | BySection(section: SectionAnswer)
    | ByEquation(equation: EquationAnswer)
    | ByText(text: TextAnswer)
    | NoQuery

  /** A command-line option that was given a non-empty value. */
  predicate Given(o: Option<string>) { o.Some? && o.value != "" }

  /** `search_paper`: the paper directory must exist; the section query
      wins over the equation query, which wins over the text query; a
      query needs the sections directory. */
  function SearchPaper(dataDir: string, paperId: string, paperExists: bool, sections: Option<Order.Listing>,
                       section: Option<string>, equation: Option<string>, text: Option<string>): (r: SearchResult)
    ensures !paperExists ==> r == PaperNotFound(paperId, PaperDir(dataDir, paperId))
    ensures paperExists && !Given(section) && !Given(equation) && !Given(text) ==> r == NoQuery
    ensures paperExists && (Given(section) || Given(equation) || Given(text)) && sections.None? ==>
      r == SectionsNotFound(SectionsDir(PaperDir(dataDir, paperId)))
    ensures r.BySection? ==> Given(section)
    ensures r.ByEquation? ==> !Given(section) && Given(equation)
    ensures r.ByText? ==> !Given(section) && !Given(equation) && Given(text)
    ensures paperExists && sections.Some? && Given(section) ==>
      r == BySection(SectionLookup(SectionsDir(PaperDir(dataDir, paperId)), SectionFiles(sections.value), section.value))
    ensures paperExists && sections.Some? && !Given(section) && Given(equation) ==>
      r == ByEquation(EquationLookup(SectionsDir(PaperDir(dataDir, paperId)), SectionFiles(sections.value), equation.value))
    ensures paperExists && sections.Some? && !Given(section) && !Given(equation) && Given(text) ==>
      r == ByText(TextLookup(SectionsDir(PaperDir(dataDir, paperId)), SectionFiles(sections.value), text.value))
  {
    var paperDir := PaperDir(dataDir, paperId);
    var dir := SectionsDir(paperDir);
    if !paperExists then PaperNotFound(paperId, paperDir)
    else if !Given(section) && !Given(equation) && !Given(text) then NoQuery
    else if sections.None? then SectionsNotFound(dir)
    else
      var files := SectionFiles(sections.value);
      if Given(section) then BySection(SectionLookup(dir, files, section.value))
      else if Given(equation) then ByEquation(EquationLookup(dir, files, equation.value))
      else ByText(TextLookup(dir, files, text.value))
  }

  /** A section query decides the answer: the equation and text queries
      given with it are ignored. */
  lemma SectionQueryWins(dataDir: string, paperId: string, paperExists: bool, sections: Option<Order.Listing>,
                         section: Option<string>, equation: Option<string>, text: Option<string>,
                         equation': Option<string>, text': Option<string>)
    requires Given(section)
    ensures SearchPaper(dataDir, paperId, paperExists, sections, section, equation, text)
      == SearchPaper(dataDir, paperId, paperExists, sections, section, equation', text')
  {
  }

  /** Without a section query, an equation query decides the answer: the
      text query given with it is ignored. */
  lemma EquationQueryWins(dataDir: string, paperId: string, paperExists: bool, sections: Option<Order.Listing>,
                          section: Option<string>, equation: Option<string>, text: Option<string>, text': Option<string>)
    requires !Given(section) && Given(equation)
    ensures SearchPaper(dataDir, paperId, paperExists, sections, section, equation, text)
      == SearchPaper(dataDir, paperId, paperExists, sections, section, equation, text')
  {
  }

  /** The `error` entry of a result, if it has one. */
  function ErrorMessage(r: SearchResult): (m: Option<string>)
    ensures m.None? <==> ((r.BySection? && r.section.SectionFound?) || (r.ByEquation? && r.equation.EquationsFound?)
      || (r.ByText? && r.text.TextFound?))
  {
    match r
    case PaperNotFound(id, _) => Some("Paper not found: " + id)
    case SectionsNotFound(dir) => Some("Sections not found: " + dir)
    case BySection(SectionFound(_)) => None
    case BySection(MultipleMatches(_)) => Some("Multiple matches")
    case BySection(SectionNotFound(q, _)) => Some("Section not found: " + q)
    case ByEquation(EquationsFound(_)) => None
    case ByEquation(EquationNotFound(q)) => Some("Equation not found: " + q)
    case ByText(TextFound(_)) => None
    case ByText(TextNotFound(q)) => Some("Text not found: " + q)
    case NoQuery => Some("Must specify --section, --equation, or --text")
  }
}
