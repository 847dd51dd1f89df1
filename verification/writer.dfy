/** The output side of scripts/split_sections.py: turning titles into file
    names (`sanitize_filename`) and grouping sections into the files written
    by `write_sections`. The file system write itself is left out; each file
    is returned as a record holding its name and text. */
module Writer {
  import opened Wrappers
  import opened Text
  import opened Scan
  import opened Sections
  import Paths

  // ---------------------------------------------------------------------------
  // sanitize_filename
  // ---------------------------------------------------------------------------

  /** Characters the first substitution keeps: `\w`, `\s` and `-`. */
  predicate IsNameChar(c: char) { IsWordChar(c) || IsSpace(c) || c == '-' }

  /** Characters a sanitized name is made of. */
  predicate IsSlugChar(c: char) { IsLowerLetter(c) || IsDigit(c) || c == '_' || c == '-' }

  /** The default `max_length`. */
  const DefaultMaxLength: nat := 50

  /** The fallback name for a title with nothing usable in it. */
  const Untitled: string := "untitled"

  /** `re.sub(r'[^\w\s-]', '', s)`. */
  function KeepNameChars(s: string): (r: string)
    ensures |r| <= |s|
    ensures forall i :: 0 <= i < |r| ==> IsNameChar(r[i])
    ensures (forall i :: 0 <= i < |s| ==> IsNameChar(s[i])) ==> r == s
    decreases |s|
  {
    if |s| == 0 then ""
    else (if IsNameChar(s[0]) then [s[0]] else []) + KeepNameChars(s[1..])
  }

  /** `re.sub(r'\s+', '_', s)`: every maximal whitespace run becomes one `_`. */
  function CollapseSpaces(s: string): (r: string)
    ensures |r| <= |s|
    ensures forall i :: 0 <= i < |r| ==> r[i] == '_' || (r[i] in s && !IsSpace(r[i]))
    ensures (forall i :: 0 <= i < |s| ==> !IsSpace(s[i])) ==> r == s
    decreases |s|
  {
    if |s| == 0 then ""
    else if IsSpace(s[0]) then
      var e := SpaceRunEnd(s, 0);
      "_" + CollapseSpaces(s[e..])
    else [s[0]] + CollapseSpaces(s[1..])
  }

  /** What survives the substitutions and the cut is `_` or a kept
      non-space character. */
  lemma CutChars(title: string, maxLength: nat)
    ensures var cut := RStripChar(Take(CollapseSpaces(KeepNameChars(title)), maxLength), '_');
      forall i :: 0 <= i < |cut| ==> cut[i] == '_' || (IsNameChar(cut[i]) && !IsSpace(cut[i]))
  {
    var kept := KeepNameChars(title);
    var joined := CollapseSpaces(kept);
    var taken := Take(joined, maxLength);
    var cut := RStripChar(taken, '_');
    forall i | 0 <= i < |cut|
      ensures cut[i] == '_' || (IsNameChar(cut[i]) && !IsSpace(cut[i]))
    {
      assert cut[i] == taken[i] == joined[i];
    }
  }

  /** Lowering such characters gives slug characters. */
  lemma LoweredSlug(cut: string)
    requires forall i :: 0 <= i < |cut| ==> cut[i] == '_' || (IsNameChar(cut[i]) && !IsSpace(cut[i]))
    ensures forall i :: 0 <= i < |cut| ==> IsSlugChar(Lower(cut)[i])
  {
  }

  /** The name before the fallback is made of slug characters and does not
      end in `_`. */
  lemma SlugChars(cut: string)
    requires forall i :: 0 <= i < |cut| ==> cut[i] == '_' || (IsNameChar(cut[i]) && !IsSpace(cut[i]))
    requires cut == [] || cut[|cut| - 1] != '_'
    ensures forall i :: 0 <= i < |Lower(cut)| ==> IsSlugChar(Lower(cut)[i])
    ensures Lower(cut) == [] || Lower(cut)[|cut| - 1] != '_'
  {
    LoweredSlug(cut);
    if cut != [] {
      var c := cut[|cut| - 1];
      assert IsUpper(c) ==> IsLowerLetter(LowerChar(c));
      assert Lower(cut)[|cut| - 1] == LowerChar(c);
    }
  }

  /** A title of whitespace only leaves nothing before the fallback. */
  lemma BlankTitleSlug(title: string, maxLength: nat)
    ensures (forall i :: 0 <= i < |title| ==> IsSpace(title[i])) ==>
      RStripChar(Take(CollapseSpaces(KeepNameChars(title)), maxLength), '_') == ""
  {
    if forall i :: 0 <= i < |title| ==> IsSpace(title[i]) {
      BlankTitleCut(title, maxLength);
    }
  }

  lemma BlankTitleCut(title: string, maxLength: nat)
    requires forall i :: 0 <= i < |title| ==> IsSpace(title[i])
    ensures RStripChar(Take(CollapseSpaces(KeepNameChars(title)), maxLength), '_') == ""
  {
    assert KeepNameChars(title) == title;
    if |title| > 0 {
      BlankCollapses(title);
      var t := Take("_", maxLength);
      assert t == "_" || t == "";
      assert RStripChar("_", '_') == RStripChar("", '_');
    }
  }

  /** The fallback name is itself a valid name. */
  lemma UntitledIsSlug()
    ensures forall i :: 0 <= i < |Untitled| ==> IsSlugChar(Untitled[i])
    ensures Untitled != [] && Untitled[|Untitled| - 1] != '_'
  {
  }

  /** Whitespace only collapses to a single `_`. */
  lemma BlankCollapses(title: string)
    requires |title| > 0 && forall i :: 0 <= i < |title| ==> IsSpace(title[i])
    ensures CollapseSpaces(title) == "_"
  {
    assert SpaceRunEnd(title, 0) == |title|;
    assert title[|title|..] == "";
  }

  /** `sanitize_filename(title, max_length)`: drop unusual characters, turn
      whitespace runs into `_`, cut to `maxLength`, drop trailing `_`, lower
      the case, and fall back to "untitled" when nothing is left. */
  function SanitizeFilename(title: string, maxLength: nat): (r: string)
    ensures r != []
    ensures forall i :: 0 <= i < |r| ==> IsSlugChar(r[i])
    ensures r[|r| - 1] != '_'
    ensures |r| <= maxLength || r == Untitled
    ensures (forall i :: 0 <= i < |title| ==> IsSpace(title[i])) ==> r == Untitled
  {
    var kept := KeepNameChars(title);
    var joined := CollapseSpaces(kept);
    var cut := RStripChar(Take(joined, maxLength), '_');
    var lowered := Lower(cut);
    CutChars(title, maxLength);
    SlugChars(cut);
    BlankTitleSlug(title, maxLength);
    UntitledIsSlug();
    if lowered == "" then Untitled else lowered
  }

  /** A name already made of slug characters, not ending in `_` and within
      the length bound, is left unchanged. */
  lemma SlugFixed(r: string, maxLength: nat)
    requires r != [] && |r| <= maxLength && r[|r| - 1] != '_'
    requires forall i :: 0 <= i < |r| ==> IsSlugChar(r[i])
    ensures SanitizeFilename(r, maxLength) == r
  {
    forall i | 0 <= i < |r| ensures IsNameChar(r[i]) && !IsSpace(r[i]) && !IsUpper(r[i]) {
      assert IsSlugChar(r[i]);
    }
    assert KeepNameChars(r) == r;
    assert CollapseSpaces(r) == r;
    assert Take(r, maxLength) == r;
    assert RStripChar(r, '_') == r;
    assert Lower(r) == r;
  }

  /** Sanitizing is idempotent once the bound admits "untitled". */
  lemma SanitizeIdempotent(title: string, maxLength: nat)
    requires maxLength >= |Untitled|
    ensures SanitizeFilename(SanitizeFilename(title, maxLength), maxLength) == SanitizeFilename(title, maxLength)
  {
    var r := SanitizeFilename(title, maxLength);
    assert |r| <= maxLength by {
      if r == Untitled { assert |Untitled| == 8; }
    }
    SlugFixed(r, maxLength);
  }

  /** Whitespace that is a single blank between non-blank characters. */
  predicate SingleSpaced(s: string) {
    forall i :: 0 <= i < |s| && IsSpace(s[i]) ==> s[i] == ' ' && (i + 1 == |s| || !IsSpace(s[i + 1]))
  }

  /** Every blank replaced by `_`. */
  function SpacesToUnderscores(s: string): (r: string)
    ensures |r| == |s|
    ensures forall i :: 0 <= i < |s| ==> r[i] == if s[i] == ' ' then '_' else s[i]
  {
    seq(|s|, i requires 0 <= i < |s| => if s[i] == ' ' then '_' else s[i])
  }

  lemma {:induction false} CollapseSingleSpaces(s: string)
    requires SingleSpaced(s)
    ensures CollapseSpaces(s) == SpacesToUnderscores(s)
    decreases |s|
  {
    if |s| > 0 {
      SingleSpacedTail(s);
      CollapseSingleSpaces(s[1..]);
      CollapseSingleStep(s);
      UnderscoreStep(s);
    }
  }

  /** On single-spaced text a blank is exactly a whitespace character, so the
      first character is replaced as `CollapseSpaces` replaces it. */
  lemma UnderscoreStep(s: string)
    requires |s| > 0 && SingleSpaced(s)
    ensures SpacesToUnderscores(s) == [if IsSpace(s[0]) then '_' else s[0]] + SpacesToUnderscores(s[1..])
  {
    assert s[0] == ' ' ==> IsSpace(s[0]);
  }

  lemma SingleSpacedTail(s: string)
    requires |s| > 0 && SingleSpaced(s)
    ensures SingleSpaced(s[1..])
  {
    var t := s[1..];
    forall i | 0 <= i < |t| && IsSpace(t[i]) ensures t[i] == ' ' && (i + 1 == |t| || !IsSpace(t[i + 1])) {
      assert t[i] == s[i + 1];
      if i + 1 < |t| {
        assert t[i + 1] == s[i + 2];
      }
    }
  }

  /** On single-spaced text the first character is replaced on its own. */
  lemma CollapseSingleStep(s: string)
    requires |s| > 0 && SingleSpaced(s)
    ensures CollapseSpaces(s) == [if IsSpace(s[0]) then '_' else s[0]] + CollapseSpaces(s[1..])
  {
    if IsSpace(s[0]) {
      assert SpaceRunEnd(s, 1) == 1;
    }
  }

  /** A title of letters and digits with single blanks between words, short
      enough, becomes its lower-cased words joined with `_`. */
  lemma SanitizeSimpleTitle(title: string, maxLength: nat)
    requires 0 < |title| <= maxLength
    requires forall i :: 0 <= i < |title| ==> IsLetter(title[i]) || IsDigit(title[i]) || title[i] == ' '
    requires SingleSpaced(title) && title[|title| - 1] != ' '
    ensures SanitizeFilename(title, maxLength) == Lower(SpacesToUnderscores(title))
  {
    CollapseSingleSpaces(title);
    var joined := SpacesToUnderscores(title);
    assert RStripChar(Take(joined, maxLength), '_') == joined;
    assert Lower(joined)[|joined| - 1] == LowerChar(title[|title| - 1]);
  }

  // ---------------------------------------------------------------------------
  // write_sections
  // ---------------------------------------------------------------------------

  /** One written file: the entry `write_sections` returns for it, plus the
      text written. */
  datatype WrittenFile = WrittenFile(file: string, title: string, levelName: string, lines: nat, content: string)

  /** Positions of the sections at or above the requested level, in order. */
  function TopIndices(s: seq<Section>, minLevel: int, k: nat): (r: seq<nat>)
    requires k <= |s|
    ensures forall j :: 0 <= j < |r| ==> k <= r[j] < |s| && s[r[j]].level <= minLevel
    ensures forall j, j' :: 0 <= j < j' < |r| ==> r[j] < r[j']
    ensures forall m :: k <= m < |s| && s[m].level <= minLevel ==> m in r
    decreases |s| - k
  {
    if k == |s| then []
    else if s[k].level <= minLevel then [k] + TopIndices(s, minLevel, k + 1)
    else TopIndices(s, minLevel, k + 1)
  }

  /** The `while` loop: from `e`, skip every section deeper than `level`. */
  function SpanEnd(s: seq<Section>, level: nat, e: nat): (r: nat)
    requires e <= |s|
    ensures e <= r <= |s|
    ensures forall k :: e <= k < r ==> s[k].level > level
    ensures r == |s| || s[r].level <= level
    decreases |s| - e
  {
    if e < |s| && s[e].level > level then SpanEnd(s, level, e + 1) else e
  }

  /** `f"{position:02d}_{level_name}_{slug}.tex"`. */
  function FileName(position: nat, levelName: string, slug: string): string {
    Pad2(position) + "_" + levelName + "_" + slug + ".tex"
  }

  /** The file written for `node`, the `position`-th selected section: the
      section located by `list.index` and every deeper section after it. */
  function WriteUnit(sections: seq<Section>, node: Section, position: nat): (w: WrittenFile)
    requires node in sections
    ensures var start := IndexOf(sections, node);
      w.content == Join(Contents(sections[start..SpanEnd(sections, node.level, start + 1)]), "\n")
    ensures w.lines == |Lines(w.content)|
    ensures w.title == node.title && w.levelName == LevelName(node.level)
    ensures w.file == FileName(position, w.levelName, SanitizeFilename(node.title, DefaultMaxLength))
  {
    var start := IndexOf(sections, node);
    var end := SpanEnd(sections, node.level, start + 1);
    var combined := Join(Contents(sections[start..end]), "\n");
    SplitCount(combined, '\n');
    WrittenFile(
      FileName(position, LevelName(node.level), SanitizeFilename(node.title, DefaultMaxLength)),
      node.title, LevelName(node.level), Count(combined, '\n') + 1, combined)
  }

  /** The file `write_sections` writes in position `i` (from 0). */
  function UnitAt(sections: seq<Section>, minLevel: int, i: nat): (w: WrittenFile)
    requires i < |TopIndices(sections, minLevel, 0)|
  {
    var t := TopIndices(sections, minLevel, 0)[i];
    WriteUnit(sections, sections[t], i + 1)
  }

  /** `write_sections(sections, output_dir, min_level)`: one file per section
      at or above `minLevel`, numbered from 1 in document order. */
  function WriteSections(sections: seq<Section>, minLevel: int): (r: seq<WrittenFile>)
    ensures |r| == |TopIndices(sections, minLevel, 0)|
    ensures forall i :: 0 <= i < |r| ==>
      var node := sections[TopIndices(sections, minLevel, 0)[i]];
      && node.level <= minLevel
      && r[i].title == node.title && r[i].levelName == LevelName(node.level)
      && r[i].file == FileName(i + 1, LevelName(node.level), SanitizeFilename(node.title, DefaultMaxLength))
      && r[i].lines == |Lines(r[i].content)|
    ensures WellPlaced(sections, |sections| + MaxStart(sections)) ==>
      forall i :: 0 <= i < |r| ==>
        var t := TopIndices(sections, minLevel, 0)[i];
        var e := SpanEnd(sections, sections[t].level, t + 1);
        && r[i].content == Join(Contents(sections[t..e]), "\n")
        && (forall k :: t < k < e ==> sections[k].level > sections[t].level)
        && (e == |sections| || sections[e].level <= sections[t].level)
  {
    AllUnitFacts(sections, minLevel);
    seq(|TopIndices(sections, minLevel, 0)|, i requires 0 <= i < |TopIndices(sections, minLevel, 0)| =>
      UnitAt(sections, minLevel, i))
  }

  /** Sections with distinct start lines are distinct, so `list.index` finds
      each selected section at its own position, and its file holds that
      section and exactly the deeper ones that follow it. */
  lemma WrittenSpan(sections: seq<Section>, minLevel: int, i: nat)
    requires WellPlaced(sections, |sections| + MaxStart(sections))
    requires i < |WriteSections(sections, minLevel)|
    ensures var t := TopIndices(sections, minLevel, 0)[i];
      var e := SpanEnd(sections, sections[t].level, t + 1);
      && sections[t].level <= minLevel
      && WriteSections(sections, minLevel)[i].content == Join(Contents(sections[t..e]), "\n")
      && (forall k :: t < k < e ==> sections[k].level > sections[t].level)
      && (e == |sections| || sections[e].level <= sections[t].level)
  {
    var t := TopIndices(sections, minLevel, 0)[i];
    IndexOfPlaced(sections, |sections| + MaxStart(sections), t);
    assert WriteSections(sections, minLevel)[i] == UnitAt(sections, minLevel, i);
  }

  /** What the file in position `i` holds: the fields of its section and,
      when `list.index` finds that section at its own position, exactly the
      maximal run of deeper sections after it. */
  lemma UnitAtFacts(sections: seq<Section>, minLevel: int, i: nat)
    requires i < |TopIndices(sections, minLevel, 0)|
    ensures var node := sections[TopIndices(sections, minLevel, 0)[i]];
      var w := UnitAt(sections, minLevel, i);
      && node.level <= minLevel
      && w.title == node.title && w.levelName == LevelName(node.level)
      && w.file == FileName(i + 1, LevelName(node.level), SanitizeFilename(node.title, DefaultMaxLength))
      && w.lines == |Lines(w.content)|
    ensures WellPlaced(sections, |sections| + MaxStart(sections)) ==>
      var t := TopIndices(sections, minLevel, 0)[i];
      var e := SpanEnd(sections, sections[t].level, t + 1);
      && UnitAt(sections, minLevel, i).content == Join(Contents(sections[t..e]), "\n")
      && (forall k :: t < k < e ==> sections[k].level > sections[t].level)
      && (e == |sections| || sections[e].level <= sections[t].level)
  {
    var t := TopIndices(sections, minLevel, 0)[i];
    if WellPlaced(sections, |sections| + MaxStart(sections)) {
      IndexOfPlaced(sections, |sections| + MaxStart(sections), t);
    }
  }

  lemma AllUnitFacts(sections: seq<Section>, minLevel: int)
    ensures forall i :: 0 <= i < |TopIndices(sections, minLevel, 0)| ==>
      var node := sections[TopIndices(sections, minLevel, 0)[i]];
      var w := UnitAt(sections, minLevel, i);
      && node.level <= minLevel
      && w.title == node.title && w.levelName == LevelName(node.level)
      && w.file == FileName(i + 1, LevelName(node.level), SanitizeFilename(node.title, DefaultMaxLength))
      && w.lines == |Lines(w.content)|
    ensures WellPlaced(sections, |sections| + MaxStart(sections)) ==>
      forall i :: 0 <= i < |TopIndices(sections, minLevel, 0)| ==>
        var t := TopIndices(sections, minLevel, 0)[i];
        var e := SpanEnd(sections, sections[t].level, t + 1);
        && UnitAt(sections, minLevel, i).content == Join(Contents(sections[t..e]), "\n")
        && (forall k :: t < k < e ==> sections[k].level > sections[t].level)
        && (e == |sections| || sections[e].level <= sections[t].level)
  {
    forall i | 0 <= i < |TopIndices(sections, minLevel, 0)| {
      UnitAtFacts(sections, minLevel, i);
    }
  }

  /** With strictly increasing start lines, `list.index` finds each section
      at its own position. */
  lemma IndexOfPlaced(sections: seq<Section>, lineCount: nat, t: nat)
    requires WellPlaced(sections, lineCount) && t < |sections|
    ensures IndexOf(sections, sections[t]) == t
  {
    var k := IndexOf(sections, sections[t]);
    assert sections[k].startLine == sections[t].startLine;
  }

  /** An upper bound on the start lines, so that `WellPlaced` can be stated
      without the document. */
  function MaxStart(s: seq<Section>): (m: nat)
    ensures forall i :: 0 <= i < |s| ==> s[i].startLine <= m
  {
    if |s| == 0 then 0
    else
      var m := MaxStart(s[..|s| - 1]);
      if s[|s| - 1].startLine > m then s[|s| - 1].startLine else m
  }

  /** A sanitized name holds no dot and no backslash. */
  lemma SlugPunctuation(r: string)
    requires forall i :: 0 <= i < |r| ==> IsSlugChar(r[i])
    ensures '.' !in r && '\\' !in r
  {
    forall i | 0 <= i < |r| ensures r[i] != '.' && r[i] != '\\' {
      assert IsSlugChar(r[i]);
    }
  }

  /** The name of every written file splits back, as the index builder reads
      it, into the two-digit position, the level name and the slug. */
  lemma FileNameFields(position: nat, levelName: string, title: string)
    requires '_' !in levelName && '.' !in levelName && levelName != ""
    ensures var slug := SanitizeFilename(title, DefaultMaxLength);
      var stem := Paths.Stem(FileName(position, levelName, slug));
      && stem == Pad2(position) + "_" + levelName + "_" + slug
      && SplitN(stem, '_', 2) == [Pad2(position), levelName, slug]
      && DigitsValue(Pad2(position)) == position
  {
    var slug := SanitizeFilename(title, DefaultMaxLength);
    var p := Pad2(position);
    assert '_' !in p && '.' !in p;
    SlugPunctuation(slug);
    StemSplits(p, levelName, slug);
  }

  /** A name built from three dot-free parts, the first two also free of
      `_`, loses its extension and splits back into the parts. */
  lemma StemSplits(p: string, levelName: string, slug: string)
    requires p != "" && '_' !in p && '.' !in p
    requires '_' !in levelName && '.' !in levelName && '.' !in slug
    ensures var stem := Paths.Stem(p + "_" + levelName + "_" + slug + ".tex");
      stem == p + "_" + levelName + "_" + slug && SplitN(stem, '_', 2) == [p, levelName, slug]
  {
    var base := p + "_" + levelName + "_" + slug;
    assert '.' !in base;
    assert base + ".tex" == base + "." + "tex";
    Paths.StemOfExtension(base, "tex");
    assert base == p + ['_'] + levelName + ['_'] + slug;
    SplitNThree(p, levelName, slug, '_');
  }

  /** Files overlap: with the default level, a chapter's file holds its own
      text and its sections', and each section also gets a file of its own. */
  lemma ChapterFileRepeatsSections(a: Section, b: Section)
    requires a.level == 1 && b.level == 2 && a != b
    ensures var r := WriteSections([a, b], 2);
      && |r| == 2
      && r[0].content == a.content + "\n" + b.content
      && r[1].content == b.content
  {
    var s := [a, b];
    PairSelected(a, b);
    PairSpans(a, b);
    PairContents(a, b);
    assert WriteSections(s, 2)[0] == WriteUnit(s, a, 1);
    assert WriteSections(s, 2)[1] == WriteUnit(s, b, 2);
  }

  /** Both sections of a chapter-then-section pair are selected. */
  lemma PairSelected(a: Section, b: Section)
    requires a.level == 1 && b.level == 2
    ensures TopIndices([a, b], 2, 0) == [0, 1]
  {
    var s := [a, b];
    assert TopIndices(s, 2, 2) == [];
    assert TopIndices(s, 2, 1) == [1];
  }

  /** Where each unit of a chapter-then-section pair starts and ends. */
  lemma PairSpans(a: Section, b: Section)
    requires a.level == 1 && b.level == 2 && a != b
    ensures IndexOf([a, b], a) == 0 && IndexOf([a, b], b) == 1
    ensures SpanEnd([a, b], 1, 1) == 2 && SpanEnd([a, b], 2, 2) == 2
  {
    var s := [a, b];
    assert SpanEnd(s, 1, 2) == 2;
  }

  /** The texts of a pair of sections, and of its second half. */
  lemma PairContents(a: Section, b: Section)
    ensures Contents([a, b][0..2]) == [a.content, b.content]
    ensures Contents([a, b][1..2]) == [b.content]
  {
    assert [a, b][0..2] == [a, b];
    assert [a, b][1..2] == [b];
  }
}
