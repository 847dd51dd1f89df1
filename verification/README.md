# arXiv reading assistant — a verified model of the LaTeX decomposition pipeline

This project models, in Dafny, the string- and line-processing core of the
arXiv reading assistant:

- **Splitting** (`scripts/split_sections.py`): `\input`/`\include` flattening
  over a file system given as a map, brace-group extraction, heading
  detection, hierarchical numbering, tiling of the document into section
  contents, file-name slugs, and the grouping and naming of the written
  section files.
- **Indexing** (`scripts/build_index.py`): equation, figure and table
  counters, key-term extraction with its case-insensitive de-duplication and
  cap, reading-time estimate, the per-file record and the totals of the
  index.
- **Taxonomy** (`scripts/build_taxonomy.py`): the heading hierarchy, the
  equation-environment state machine, the uncapped key-term list, the
  document's statistics and the cache rule of `get_or_build_taxonomy`.
- **Search** (`scripts/search_paper.py`): lookup by section number or name,
  by equation label or reference, by text, and the dispatch between them.
- **Download helpers** (`scripts/download_arxiv.py`): parsing an arXiv
  identifier out of a URL or a bare identifier, and choosing the main `.tex`
  file of a source tree.
- **Session notes** (`scripts/session_logger.py`): the session, gap and
  mastered entries appended to Markdown notes, and the weekly summary that
  reads the concepts back from their `###` title lines.
- **Encouragement** (`skills/okay.py`): the praise and challenge built at the
  end of a session.

Every fixed regular expression is a hand-written scanner over `seq<char>`
(module `Scan`, and local scanners in `BuildIndex`, `ArXiv` and `Search`)
with Python's leftmost, first-alternative, greedy semantics. Files and
directories are immutable maps and sorted sequences of `(name, content)`
pairs; clocks are string parameters. Text handling is ASCII: `str.lower`,
`str.title`, `\w`, `\s` and `isdigit` are modelled on ASCII characters.

Modules: `Wrappers` (Option, Result, first hit), `Text` (Python string
operations), `Paths`, `Scan`, `Order` (sorting by name), `Braces`, `Inputs`,
`Sections`, `Writer` (the splitter's three parts), `Terms` (key-term
filter), `BuildIndex`, `Taxonomy`, `Search`, `ArXiv`, `SessionLog`, `Okay`.

### Behaviours of the code that are easy to misread

The model follows the code in each of these cases.

- An unterminated brace group yields the empty string and the text's
  length, not the rest of the text (`Braces.ExtractUnterminated`).
- One `seen` set is shared across the whole expansion, not just the current
  inclusion chain. So a file included twice, even without a cycle, is
  reported as circular the second time (`Inputs.ReadTwice`).
- `find_sections` knows five sectioning levels, part to subsubsection; only
  the taxonomy also knows `paragraph`.
- Lines before the first heading belong to no section
  (`Sections.ContentsTile`). The written files overlap: a chapter's file
  repeats its sections, which get files of their own
  (`Writer.ChapterFileRepeatsSections`).
- `generate_encouragement` is annotated as returning a string but returns a
  two-key dictionary, modelled as `Okay.Encouragement`.

## Model

| member | source | states |
|---|---|---|
| Inputs.TexName | scripts/split_sections.py:82-85 | the named file is the stripped argument, with `.tex` appended exactly when it is not already there |
| Inputs.Resolve | scripts/split_sections.py:88-90 | the including file's directory is used when the file exists there, the base directory otherwise |
| Inputs.Read | scripts/split_sections.py:69-96 | one call only grows `seen` and always records its own path, so every path is expanded at most once |
| Inputs.Expand | scripts/split_sections.py:79-96 | the substitution pass over a text never forgets a path already seen; `ExpandCopies` and `ExpandDirective` state the text it produces |
| Inputs.ReadTexWithInputs | scripts/split_sections.py:64-96 | a missing main file yields the "FILE NOT FOUND" note for its name; an existing one yields the substitution pass over its text with only itself seen |
| Inputs.ExpandCopies | scripts/split_sections.py:79-96 | a stretch where no directive starts is copied unchanged, and the pass resumes after it with the same `seen` set |
| Inputs.ExpandNoDirective | scripts/split_sections.py:79-96 | text where no directive starts is copied unchanged and `seen` is unchanged |
| Inputs.ExpandDirective | scripts/split_sections.py:79-96 | the first directive is replaced by the INPUT marker, the expansion of the file it names (resolved locally first) and the END INPUT marker; the text before it is copied and the pass resumes after it with the `seen` set that expansion left |
| Inputs.ReadSeen | scripts/split_sections.py:69-70 | a path already seen yields the "CIRCULAR" note and leaves `seen` unchanged |
| Inputs.ReadTwice | scripts/split_sections.py:69-71 | reading a path a second time with the `seen` set the first read left reports it as circular, cycle or not |
| Inputs.ReadMissing | scripts/split_sections.py:71-76 | a missing unseen file yields the "FILE NOT FOUND" note and is still recorded as seen |
| Inputs.ExpandPlain | scripts/split_sections.py:79-96 | text without a backslash holds no directive and is copied unchanged |
| Inputs.ReadPlainFile | scripts/split_sections.py:73-96 | a file without directives is returned exactly as stored |
| Inputs.SelfInclusion | scripts/split_sections.py:69-94 | a file that inputs itself expands to the INPUT marker, the circular note and the END INPUT marker, and expansion stops |
| Braces.ScanFrom | scripts/split_sections.py:104-114 | the loop either falls off the end with `("", len)` or stops just past a `}` |
| Braces.ExtractBraceContent | scripts/split_sections.py:99-114 | the returned offset never exceeds the text's length; a start at or past the end gives `("", len)` |
| Braces.ExtractMatched | scripts/split_sections.py:104-112 | a `{` at `p` whose matching `}` is at `q` yields `text[p+1..q]` and `q+1`, nested pairs skipped |
| Braces.ExtractUnterminated | scripts/split_sections.py:114 | an unterminated `{` yields the empty string and the text's length, never the remainder |
| Braces.ExtractBraceCases | scripts/split_sections.py:99-114 | every `{` is matched or unterminated, so the two results above are the only ones |
| Sections.LevelName | scripts/split_sections.py:48-51 | levels 0..4 get their names; deeper levels get `level` and digits; no name holds `_` or `.` |
| Sections.HeadingOn | scripts/split_sections.py:55-61 | the heading of a line is the shallowest command that occurs on it, and none exactly when no command occurs |
| Sections.CleanTitle | scripts/split_sections.py:134-136 | the title is stripped, and a title without backslashes is only stripped |
| Sections.LabelNear | scripts/split_sections.py:139-144 | the label is the first `\label{}` on the heading line, else the first on the next line, else none |
| Sections.NodeAt | scripts/split_sections.py:127-152 | a line opens a section exactly when it holds a heading; the section has the heading's level, the cleaned content of the heading's brace group as its title, that line as its start, and the nearby label |
| Sections.CollectFrom | scripts/split_sections.py:126-153 | the loop records only lines that open sections, each once, in strictly increasing line order |
| Sections.CollectComplete | scripts/split_sections.py:126-153 | no line that opens a section is skipped |
| Sections.FindSections | scripts/split_sections.py:117-155 | at most one section per line, levels below five, strictly increasing start lines, and every heading line found |
| Sections.AssignSectionNumbers | scripts/split_sections.py:158-170 | each section keeps its other fields and gets the count of same-level sections since the last shallower one |
| Sections.NumberPositive | scripts/split_sections.py:164-168 | every number is at least one |
| Sections.NumberRestarts | scripts/split_sections.py:164-168 | a section after a shallower one, past deeper ones only, is numbered 1 |
| Sections.NumberIncrements | scripts/split_sections.py:164-168 | a section after a same-level sibling, past deeper ones only, gets the sibling's number plus one |
| Sections.ExtractSectionContent | scripts/split_sections.py:173-187 | each section gets the lines from its start up to the next section's start, the last up to the end |
| Sections.ContentsTile | scripts/split_sections.py:175-185 | the contents joined with newlines give exactly the document from the first heading line on |
| Sections.ContentsRebuildDocument | scripts/split_sections.py:175-185 | when the first heading is on the first line, the joined contents are the whole document |
| Sections.SplitDocument | scripts/split_sections.py:117-187 | find, number and cut: numbers are at least one, start lines increase, and the contents tile the document |
| Writer.KeepNameChars | scripts/split_sections.py:193 | only word characters, whitespace and `-` survive, and a text of them only is unchanged |
| Writer.CollapseSpaces | scripts/split_sections.py:195 | every character of the result is `_` or a non-space of the input; text without whitespace is unchanged |
| Writer.SanitizeFilename | scripts/split_sections.py:190-198 | the slug is non-empty, made of lower-case word characters, `-` and `_`, does not end in `_`, is within the bound unless it is `untitled`, and a blank title gives `untitled` |
| Writer.SlugFixed | scripts/split_sections.py:190-198 | a name that is already a slug within the bound is left unchanged |
| Writer.SanitizeIdempotent | scripts/split_sections.py:190-198 | sanitizing twice gives the same slug as sanitizing once |
| Writer.SanitizeSimpleTitle | scripts/split_sections.py:190-198 | a title of letters and digits with single blanks becomes its lower-cased words joined by `_` |
| Writer.TopIndices | scripts/split_sections.py:206 | the selected sections are exactly those at or above the requested level, in order |
| Writer.SpanEnd | scripts/split_sections.py:211-214 | the unit ends at the first later section at the node's own level or shallower, or at the end |
| Writer.WriteUnit | scripts/split_sections.py:209-229 | a unit's content joins the node's section and the deeper ones after it; its name carries the padded position, the level name and the slug; its line count matches its content |
| Writer.WriteSections | scripts/split_sections.py:201-232 | one file per section at or above the level, in order; each named by its position from 1, level name and slug, with its own title and its line count; with increasing start lines, each holds its section and exactly the maximal run of deeper sections after it |
| Writer.WrittenSpan | scripts/split_sections.py:211-217 | with increasing start lines, `list.index` finds the selected section itself, and its file holds exactly it and the deeper sections after it |
| Writer.FileNameFields | scripts/split_sections.py:220 | a written file name splits back into the two-digit position, the level name and the slug |
| Writer.ChapterFileRepeatsSections | scripts/split_sections.py:206-217 | a chapter's file holds its section's text too, and that section gets its own file as well |
| Paths.Stem | scripts/build_index.py:116 | the stem is a prefix of the name, and a name without a dot is its own stem |
| Paths.StemOfExtension | scripts/build_index.py:116 | the stem of `base.ext`, both parts dot-free and non-empty, is `base` |
| Terms.KeepFirst | scripts/build_index.py:70-76 | kept candidates are long enough, increasing in position, and pairwise distinct ignoring case |
| Terms.KeepFirstComplete | scripts/build_index.py:72-76 | every eligible candidate is represented by a kept one at or before it with the same lower-case form |
| Terms.KeepFirstIsFirst | scripts/build_index.py:72-76 | each kept candidate is the first eligible one of its lower-case form |
| Terms.Room | scripts/build_index.py:77-78 | the effective cap is at least one, and it is the cap less the terms kept when that is positive |
| Terms.KeepCappedIsPrefix | scripts/build_index.py:72-78 | the capped loop keeps exactly the first `Room` terms the uncapped filter keeps |
| Terms.FirstTermsKeepOne | scripts/build_index.py:77-78 | with any eligible candidate at least one term is kept, and a cap of one or less keeps exactly one |
| Terms.FirstTermIsFirstOccurrence | scripts/build_index.py:73-76 | a kept term keeps the spelling of the first eligible candidate with its lower-case form |
| Scan.SubArgWithoutClose | scripts/build_index.py:86 | without a `}` no `\cmd{...}` group can match, so the text is copied |
| Scan.DropBareCommands | scripts/build_index.py:87 | removing bare `\cmd` words leaves no backslash followed by a letter |
| Scan.StripCommandsIdentity | scripts/build_index.py:86-87 | text without backslashes passes both removals unchanged |
| Text.SplitCount | scripts/build_index.py:126 | the number of lines is the number of newlines plus one |
| BuildIndex.CountEquations | scripts/build_index.py:36-48 | text without backslash and dollar holds no equation |
| BuildIndex.CountFigures | scripts/build_index.py:51-53 | text without backslash holds no figure; `CountFiguresCons` gives the general step |
| BuildIndex.CountTables | scripts/build_index.py:56-58 | text without backslash holds no table; `CountTablesCons` gives the general step |
| BuildIndex.CountFiguresCons | scripts/build_index.py:51-53 | a command between backslash-free texts adds one figure exactly when it starts with `\begin{figure` |
| BuildIndex.CountTablesCons | scripts/build_index.py:56-58 | a command between backslash-free texts adds one table exactly when it starts with `\begin{table` |
| BuildIndex.CountEquationsCons | scripts/build_index.py:38-47 | a command between plain texts adds the number of the five patterns it starts with |
| BuildIndex.EquationEnvironmentCountsOnce | scripts/build_index.py:39 | one `equation` environment in plain text counts one |
| BuildIndex.AlignEnvironmentCountsOnce | scripts/build_index.py:40 | one `align` environment in plain text counts one |
| BuildIndex.DisplayMathCounts | scripts/build_index.py:42-43 | a `$$` pair counts two and a `\[ \]` pair one |
| BuildIndex.MixedEnvironmentsCount | scripts/build_index.py:38-47 | an equation, an align environment and a `$$` pair count four |
| BuildIndex.TwoFiguresCountTwo | scripts/build_index.py:53 | two figure environments count two |
| BuildIndex.TableWithTabularCountsOne | scripts/build_index.py:58 | a table wrapping a tabular counts one |
| BuildIndex.CapWordAt | scripts/build_index.py:67 | `[A-Z][a-z]+` matches exactly when a capital and a lower-case letter start there, and takes every lower-case letter that follows |
| BuildIndex.FindAllDefinedShape | scripts/build_index.py:67 | every phrase found after a defining word is capitalised words separated by whitespace |
| BuildIndex.CalledNamesWord | scripts/build_index.py:67 | `called` followed by a capitalised word names that word |
| BuildIndex.Candidates | scripts/build_index.py:64-72 | every candidate is stripped |
| BuildIndex.ExtractKeyTerms | scripts/build_index.py:61-80 | at most the cap (and at least room for one) terms, each stripped, longer than two, a candidate, and distinct ignoring case |
| BuildIndex.FirstEmphasisIsKeyTerm | scripts/build_index.py:64-76 | the argument of a leading `\textbf`, `\emph` or `\textit` is the first key term whatever the cap |
| BuildIndex.EstimateReadingTime | scripts/build_index.py:83-89 | at least one minute; for a positive rate, whole minutes rounded down; for a negative rate, one |
| BuildIndex.TwoHundredWordsTakeOneMinute | scripts/build_index.py:83-89 | two hundred words at two hundred per minute take one minute |
| BuildIndex.ThousandWordsTakeFiveMinutes | scripts/build_index.py:83-89 | a thousand words take five minutes |
| BuildIndex.SectionTitle | scripts/build_index.py:122-124 | the title is stripped and holds no bare command |
| BuildIndex.TitleFromHeading | scripts/build_index.py:122-124 | a `\section`, `\chapter` or `\part` argument after plain text is the title |
| BuildIndex.TitleFromSlug | scripts/build_index.py:123-124 | without a heading the slug, underscores read as spaces and title-cased, is the title |
| BuildIndex.NameParts | scripts/build_index.py:116-119 | the number is the stem up to its first `_`; a stem without `_` gives itself, `section` and itself |
| BuildIndex.Record | scripts/build_index.py:111-148 | the record carries the file name, the line count, the three counters, a reading time of at least one, at most ten key terms and a stripped title |
| BuildIndex.RecordOfWrittenName | scripts/build_index.py:116-124 | a file written by the splitter is read back with its padded position, its level name and, without a heading, a title from its slug |
| BuildIndex.RecordLinesMatchManifest | scripts/build_index.py:126 | a record's line count equals the one in the splitter's manifest for that file |
| BuildIndex.TotalAppend | scripts/build_index.py:133-135 | totals add up over concatenated record lists |
| BuildIndex.TexEntries | scripts/build_index.py:111 | exactly the `.tex` entries of the listing are kept |
| BuildIndex.Records | scripts/build_index.py:111-148 | one record per file, in file order |
| BuildIndex.Totals | scripts/build_index.py:107-135 | the loop's sums are the totals of lines, equations, figures and reading minutes |
| BuildIndex.BuildIndex | scripts/build_index.py:92-163 | a missing sections directory is an error; otherwise one record per `.tex` file in sorted order, and a summary whose count and sums agree with the records |
| Order.SortedUnique | scripts/build_index.py:111 | a sorted listing with distinct names is the only sorted arrangement of its entries |
| Taxonomy.LevelOf | scripts/build_taxonomy.py:69-81 | the first of the six heading commands that matches wins, and none matches exactly when none is found |
| Taxonomy.HierarchyTitleOfGroup | scripts/build_taxonomy.py:82-85 | the `\cmd{x}` substitution never fires on a matched title, only bare commands are removed |
| Taxonomy.HierarchyNodeAt | scripts/build_taxonomy.py:78-99 | a line opens a node exactly when a heading matches; the line number is 1-based and the label comes from the next line only |
| Taxonomy.CollectNodes | scripts/build_taxonomy.py:78-100 | the recorded nodes are heading lines, at most one per line, in strictly increasing line order |
| Taxonomy.ExtractHierarchy | scripts/build_taxonomy.py:63-102 | nodes lie on lines of the text, in strictly increasing order |
| Taxonomy.HierarchyComplete | scripts/build_taxonomy.py:78-100 | every heading line appears in the hierarchy |
| Taxonomy.LevelOfHeading | scripts/build_taxonomy.py:69-81 | a heading command alone in plain text is recognised at its own level, with its argument |
| Taxonomy.HeadingWithLabel | scripts/build_taxonomy.py:87-99 | a heading followed by a `\label{}` line is a node of that level with that title and label on the 1-based line |
| Taxonomy.EnvEventFrom | scripts/build_taxonomy.py:119-125 | a line opens or closes only when some environment marker occurs on it, and is neutral exactly when none does |
| Taxonomy.EquationNode | scripts/build_taxonomy.py:130-148 | an equation node has the opening line, the first label of its text as label, and that label or "Equation at line N" as title |
| Taxonomy.Step | scripts/build_taxonomy.py:117-155 | a node is emitted exactly when an open environment meets a closing marker; an opening marker starts a new block holding its line twice |
| Taxonomy.EqFrom | scripts/build_taxonomy.py:117-155 | emitted equations are in strictly increasing line order |
| Taxonomy.ExtractEquations | scripts/build_taxonomy.py:105-157 | every node is an equation on a line of the text, in strictly increasing order |
| Taxonomy.EquationBlock | scripts/build_taxonomy.py:117-155 | an environment opened on one line and closed on a later one yields one node on the opening line |
| Taxonomy.StrayEnd | scripts/build_taxonomy.py:125-152 | a closing marker outside an environment emits nothing |
| Taxonomy.BeginAndEndOnOneLine | scripts/build_taxonomy.py:119-124 | an opening and closing marker on one line open the environment and do not close it |
| Taxonomy.NoEndNoEquations | scripts/build_taxonomy.py:125-148 | without any closing marker no equation is emitted |
| Taxonomy.CleanTerm | scripts/build_taxonomy.py:178-182 | a cleaned candidate is stripped |
| Taxonomy.TermCandidates | scripts/build_taxonomy.py:175-182 | candidates carry 1-based lines of the text, in non-decreasing order |
| Taxonomy.FirstOccurrences | scripts/build_taxonomy.py:184-193 | kept terms are at least three long, pairwise distinct ignoring case, and in line order |
| Taxonomy.FirstOccurrencesComplete | scripts/build_taxonomy.py:184-193 | every long enough candidate is represented by a term from its own line or an earlier one |
| Taxonomy.ExtractTaxonomyTerms | scripts/build_taxonomy.py:160-195 | the key terms are terms, uncapped, distinct ignoring case, and in line order |
| Taxonomy.NodeToDict | scripts/build_taxonomy.py:217-227 | the dictionary keeps kind, title and line, and has a label exactly when the node's label is non-empty |
| Taxonomy.HierarchyLabelsKept | scripts/build_taxonomy.py:223-224 | every label the hierarchy finds survives into its dictionary |
| Taxonomy.BuildTaxonomy | scripts/build_taxonomy.py:198-240 | the statistics equal the lengths of the three lists, and the line count is the newline count plus one |
| Taxonomy.TexPath | scripts/build_taxonomy.py:265-268 | an absolute section file is taken as given, a relative one under the paper's `sections` directory |
| Taxonomy.GetOrBuildTaxonomy | scripts/build_taxonomy.py:243-286 | a missing file is an error even with a cached entry; a cached entry is returned unless forced; otherwise the built document is returned and stored |
| Taxonomy.SecondRequestHitsCache | scripts/build_taxonomy.py:276-286 | a request after a successful one, unforced, returns the same document and leaves the store alone |
| Paths.PaperDir | scripts/search_paper.py:44-48 | a paper's directory is under the data directory, with `/` in the identifier replaced by `_` |
| Search.SectionFiles | scripts/search_paper.py:73 | exactly the `.tex` entries of the directory, sorted by name |
| Search.LeadingNumber | scripts/search_paper.py:84 | a leading number is read only from a name that starts with a digit |
| Search.LeadingNumberOf | scripts/search_paper.py:84 | digits followed by `_` are read as their value |
| Search.WrittenNameNumber | scripts/search_paper.py:84-85 | the file written for the n-th unit carries n as its leading number |
| Search.NameMatches | scripts/search_paper.py:95-99 | the matches are exactly the files whose lower-case name contains the query |
| Search.SectionLookup | scripts/search_paper.py:51-122 | a found file carries the queried number or contains the query; several name matches are all listed; not found means no name contains the query, with at most ten names shown |
| Search.NumberLookup | scripts/search_paper.py:79-92 | a numeric query finds the first file in sorted order with that leading number |
| Search.FindsWrittenSection | scripts/search_paper.py:79-92 | asking for the number of a written unit finds a file carrying that number |
| Search.UniqueNameLookup | scripts/search_paper.py:101-110 | without a numbered hit, a single name match is found, with its leading number if any |
| Search.Around | scripts/search_paper.py:152-153 | the context window is clamped to the file and always includes the matching line |
| Search.LabelHitPlain | scripts/search_paper.py:150 | the `\label{` alternative of the label test adds nothing to the `label{` one |
| Search.LineEqHits | scripts/search_paper.py:148-176 | a line gives its label hit exactly when the label test holds and its reference hit exactly when the reference test holds |
| Search.LineHitSound | scripts/search_paper.py:148-176 | every hit of a line is of that file and line, and its kind's test holds on the line |
| Search.FileEqHits | scripts/search_paper.py:148-176 | a file's hits are hits of its lines, in line order |
| Search.EqHitsComplete | scripts/search_paper.py:144-162 | every labelled line of every file yields its label hit |
| Search.EqHitsSound | scripts/search_paper.py:144-176 | every hit found is a label or reference hit of a line of one of the files |
| Search.EquationLookup | scripts/search_paper.py:125-181 | not found exactly when no hit exists; otherwise between one and five hits, the first ones found |
| Search.FirstLineWith | scripts/search_paper.py:210-211 | the first line containing the query, and none exactly when no line contains it |
| Search.FileTextHit | scripts/search_paper.py:207-222 | a hit is the first line of the file containing the query, 1-based |
| Search.TextHitComplete | scripts/search_paper.py:207-222 | a file with a matching line always yields a hit, at the first such line |
| Search.TextHits | scripts/search_paper.py:203-222 | at most one hit per file, each the hit of one file |
| Search.TextHitsComplete | scripts/search_paper.py:203-222 | every file with a matching line contributes its hit |
| Search.TextLookup | scripts/search_paper.py:184-227 | not found exactly when no file matches; otherwise between one and five hits |
| Search.SearchPaper | scripts/search_paper.py:245-257 | a missing paper is an error; otherwise a section query gives the section lookup, else an equation query the equation lookup, else a text query the text lookup; no query is an error; a query without a sections directory is an error |
| Search.SectionQueryWins | scripts/search_paper.py:250-251 | with a section query, the equation and text queries do not change the answer |
| Search.EquationQueryWins | scripts/search_paper.py:252-253 | without a section query, an equation query makes the text query irrelevant |
| ArXiv.IdEnd | scripts/download_arxiv.py:51-54 | the identifier pattern matches a well-formed identifier not followed by a digit |
| ArXiv.UrlHitAt | scripts/download_arxiv.py:51-52 | a URL pattern captures an identifier right after an `arxiv.org/` prefix naming `abs`, `src` or `pdf`, taken from the input |
| ArXiv.WholeMatch | scripts/download_arxiv.py:53-54 | an anchored match is the whole input, or the whole input but a final newline |
| ArXiv.ParseArxivId | scripts/download_arxiv.py:47-60 | a parsed identifier is well-formed and occurs in the input; failure carries the "Cannot parse" message |
| ArXiv.BareId | scripts/download_arxiv.py:53-59 | a bare identifier parses to itself |
| ArXiv.ParseFixedPoint | scripts/download_arxiv.py:49-59 | parsing is idempotent on its successful outputs |
| ArXiv.ParseIdentity | scripts/download_arxiv.py:53-59 | a string parses to itself exactly when it is an identifier |
| ArXiv.NoSeparatorFails | scripts/download_arxiv.py:60 | input without a dot or a slash is refused |
| ArXiv.UrlNewId | scripts/download_arxiv.py:51 | a new-style identifier in an arXiv URL is read out of it |
| ArXiv.UrlOldId | scripts/download_arxiv.py:52 | an old-style identifier in an arXiv URL is read out of it when no dot follows the host |
| ArXiv.ExampleUrlNew | scripts/download_arxiv.py:51 | `https://arxiv.org/abs/2312.07511` gives `2312.07511` |
| ArXiv.ExampleUrlOld | scripts/download_arxiv.py:52 | `https://arxiv.org/abs/hep-th/9901001` gives `hep-th/9901001` |
| ArXiv.ExampleRefused | scripts/download_arxiv.py:60 | `not-an-arxiv-id` is refused |
| ArXiv.ByName | scripts/download_arxiv.py:129-132 | the first conventional name some file carries, ignoring case, with the first file carrying it |
| ArXiv.BestCandidate | scripts/download_arxiv.py:135-148 | the `\documentclass` file with the most `\input`s, the earliest among ties |
| ArXiv.SelectMain | scripts/download_arxiv.py:120-151 | an empty tree is an error; otherwise one of the files is chosen |
| ArXiv.NameChosen | scripts/download_arxiv.py:128-132 | the earliest conventional name present wins, and the first file carrying it |
| ArXiv.MostInputsChosen | scripts/download_arxiv.py:145-148 | without a conventional name, the candidate with the most inputs wins, the earliest among ties |
| ArXiv.FirstFileFallback | scripts/download_arxiv.py:151 | with neither a conventional name nor a `\documentclass`, the first file is chosen |
| ArXiv.MainTexChosen | scripts/download_arxiv.py:128-132 | a file named `main.tex`, in any case, is chosen, the first such |
| SessionLog.NotePath | scripts/session_logger.py:130 | the gap note ends in `-gaps.md` and the mastered note in `-mastered.md` |
| SessionLog.SessionPath | scripts/session_logger.py:85 | the session log is named after the date |
| SessionLog.PaperRef | scripts/session_logger.py:139 | the paper reference is ` (<id>)` for a non-empty identifier and empty otherwise |
| SessionLog.LogSession | scripts/session_logger.py:63-105 | the entry is appended to the day's log (or to a fresh header), and no other file changes |
| SessionLog.LogNote | scripts/session_logger.py:108-152 | the entry is appended to the week's note of its kind (or to a fresh header), and no other file changes |
| SessionLog.TallyOf | scripts/session_logger.py:230-237 | the count is the number of concepts; a missing note gives zero and no concepts |
| SessionLog.WeeklySummary | scripts/session_logger.py:202-247 | each tally reads its own note, and each count is its list's length |
| SessionLog.NoteConceptsJoin | scripts/session_logger.py:233-235 | concepts of two texts joined by a newline are those of each, in order |
| SessionLog.PlainLine | scripts/session_logger.py:233-235 | a line not starting with `### ` holds no concept |
| SessionLog.HeaderConcepts | scripts/session_logger.py:136 | the header of a new note, `#` title included, holds no concept |
| SessionLog.BodyConcepts | scripts/session_logger.py:140-147 | the date line, the text and the rule of an entry hold no concept |
| SessionLog.CutAtPaperRef | scripts/session_logger.py:233 | splitting at `(` cuts the paper reference off |
| SessionLog.GapTitleIsRead | scripts/session_logger.py:233-235 | a gap title is read back as its concept |
| SessionLog.MasteredTitleIsRead | scripts/session_logger.py:241-243 | a mastered title is read back as its concept |
| SessionLog.EntryConcepts | scripts/session_logger.py:140-147 | a logged entry yields exactly its concept |
| SessionLog.AppendConcepts | scripts/session_logger.py:149 | text appended after a newline adds its concepts after those already there |
| SessionLog.NotePathsDiffer | scripts/session_logger.py:177 | a week's gap and mastered notes are different files |
| SessionLog.LogNoteConcepts | scripts/session_logger.py:132-150 | logging a readable concept adds it at the end of its note's concepts |
| SessionLog.LoggedNoteIsSummarized | scripts/session_logger.py:221-245 | logging adds the concept at the end of its kind's weekly list and leaves the other list alone |
| SessionLog.MasteredEntryNotAGap | scripts/session_logger.py:235 | a mastered entry is never counted as a gap |
| SessionLog.ConceptCutAtParen | scripts/session_logger.py:233 | a concept holding `(` is read back cut there and stripped |
| Okay.StatOf | skills/okay.py:96 | a missing weekly statistic counts as zero |
| Okay.FirstNames | skills/okay.py:107 | at most two names are taken: two when there are two gaps or more, one per gap otherwise |
| Okay.Praise | skills/okay.py:99-103 | the praise is "Good effort today!" exactly when nothing was mastered today and the weekly count is not positive |
| Okay.GenerateEncouragement | skills/okay.py:88-116 | the fallback praise exactly when nothing was mastered; the fallback challenge exactly when there are no gaps; otherwise the challenge names the first gaps |
| Okay.PraiseShapes | skills/okay.py:99-114 | the praise is today's sentence, the weekly sentence, both joined by a space, or the fallback |
| Okay.NailedExactlyWhenMastered | skills/okay.py:100-101 | the praise opens with "You nailed N concept(s) today!" exactly when something was mastered |
| Okay.WeeklyExactlyWhenPositive | skills/okay.py:102-103 | the weekly sentence appears exactly when the weekly mastered count is positive |
| Okay.MissingWeeklyStat | skills/okay.py:96 | a week without the mastered statistic adds no weekly sentence |
| Okay.ChallengeNamesFirstGaps | skills/okay.py:106-111 | each of the first two gaps is named, by its concept or as "that concept" |
| Okay.LaterGapsIgnored | skills/okay.py:107 | gaps after the second never change the challenge |
| Okay.GapCountIgnored | skills/okay.py:97 | the weekly gap count does not affect the reply |

## Left out

- Reading, writing and creating files and directories: the file system is a
  map from path to content, and a directory is a sequence of
  `(name, content)` pairs. Read errors are modelled as a missing entry.
- Path normalisation: paths are opaque `/`-separated strings, compared as
  given.
- Clocks: `indexed_at` and the date, time and week strings are parameters.
- Environment lookups of the default directories, argparse `main`
  functions, printing, and JSON encoding and decoding. A cached taxonomy is
  returned as stored, without a JSON round trip.
- `estimated_reading_time_hours` and the float formatting of
  `write_markdown_index`: floating point is not modelled. The rest of
  `write_markdown_index` is presentation and is not modelled either.
- `search_by_section` loads `index.json` but never uses it; the load is
  left out.
- `get_main_tex` of the splitter (metadata file and `rglob`), and the order
  in which `rglob` lists files: `find_main_tex` takes that order as its
  input sequence.
- `download_source` and `extract_source`: network and archive handling.
- `end_session` in the encouragement skill is glue over the session
  logger. The weekly statistics are modelled as integer counts only.
- The computed but unused `eq_clean` text of `extract_equations`, and the
  always-empty `children` lists of the taxonomy nodes.
- Unicode: `str.lower`, `str.title`, `str.isdigit`, `\w` and `\s` are
  modelled on ASCII characters only.
- Sections.AssignSectionNumbers: levels of ten or more are excluded. The
  source indexes past its ten counters there and fails, and the heading
  finder never produces such levels.
- BuildIndex.EstimateReadingTime: a rate of zero is excluded. The source
  fails with a division by zero there.
- Inputs.Read: the recursion is bounded by the number of unseen files in the
  map. Its contract states the growth of `seen`, not the full text.
