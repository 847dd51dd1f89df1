/** Flattening of a LaTeX project (`read_tex_with_inputs`,
    scripts/split_sections.py): every `\input{f}` and `\include{f}` is
    replaced by the text of `f`, expanded in turn, between two marker lines.
    The file system is an immutable map from path to text; a path missing
    from the map is a file that cannot be found. */
module Inputs {
  import opened Wrappers
  import opened Text
  import opened Scan
  import opened Paths

  type FileSystem = map<string, string>

  /** The two commands that splice a file in. */
  const Directives: seq<string> := ["input", "include"]

  function InputMarker(name: string): string { "\n% === INPUT: " + name + " ===\n" }
  function EndMarker(name: string): string { "\n% === END INPUT: " + name + " ===\n" }
  function CircularNote(name: string): string { "% [CIRCULAR: " + name + "]\n" }
  function MissingNote(name: string): string { "% [FILE NOT FOUND: " + name + "]\n" }

  /** The file a directive argument names: stripped, with `.tex` appended
      unless already present. */
  function TexName(arg: string): (r: string)
    ensures EndsWith(r, ".tex")
    ensures EndsWith(Strip(arg), ".tex") ==> r == Strip(arg)
    ensures !EndsWith(Strip(arg), ".tex") ==> r == Strip(arg) + ".tex"
  {
    var f := Strip(arg);
    if EndsWith(f, ".tex") then f
    else
      assert (f + ".tex")[|f|..] == ".tex";
      f + ".tex"
  }

  /** The including file's directory is tried first, then the base directory. */
  function Resolve(fs: FileSystem, base: string, current: string, name: string): (r: string)
    ensures JoinPath(Parent(current), name) in fs ==> r == JoinPath(Parent(current), name)
    ensures JoinPath(Parent(current), name) !in fs ==> r == JoinPath(base, name)
  {
    var local := JoinPath(Parent(current), name);
    if local in fs then local else JoinPath(base, name)
  }

  lemma {:induction false} SubsetCard<T>(a: set<T>, b: set<T>)
    requires a <= b
    ensures |a| <= |b|
    decreases |a|
  {
    if a != {} {
      var x :| x in a;
      SubsetCard(a - {x}, b - {x});
    }
  }

  lemma StrictSubsetCard<T>(a: set<T>, b: set<T>, x: T)
    requires a <= b && x in b && x !in a
    ensures |a| < |b|
  {
    SubsetCard(a, b - {x});
  }

  lemma FewerUnseen(fs: FileSystem, seen: set<string>, more: set<string>)
    requires seen <= more
    ensures |fs.Keys - more| <= |fs.Keys - seen|
  {
    SubsetCard(fs.Keys - more, fs.Keys - seen);
  }

  /** One call of `read_tex_with_inputs(path, base, seen)`: the text it
      returns and the `seen` set as the call leaves it. The path is recorded
      as seen before the file is read, so a missing file is recorded too. */
  function Read(fs: FileSystem, base: string, path: string, seen: set<string>): (r: (string, set<string>))
    ensures seen <= r.1 && path in r.1
    decreases |fs.Keys - seen|, 1, 0
  {
    if path in seen then (CircularNote(BaseName(path)), seen)
    else
      var seen1 := seen + {path};
      if path !in fs then (MissingNote(BaseName(path)), seen1)
      else
        StrictSubsetCard(fs.Keys - seen1, fs.Keys - seen, path);
        Expand(fs, base, path, fs[path], 0, seen1)
  }

  /** The `re.sub` pass over the text of `current` from offset `i`: every
      directive is replaced, left to right, by the markers around the
      expansion of the file it names; everything else is copied. */
  function Expand(fs: FileSystem, base: string, current: string, content: string, i: nat, seen: set<string>)
    : (r: (string, set<string>))
    requires i <= |content|
    ensures seen <= r.1
    decreases |fs.Keys - seen|, 2, |content| - i
  {
    if i == |content| then ("", seen)
    else match ArgAnyAt(content, i, Directives, false, true)
      case Some((arg, end)) =>
        var name := TexName(arg);
        var inner := Read(fs, base, Resolve(fs, base, current, name), seen);
        FewerUnseen(fs, seen, inner.1);
        var rest := Expand(fs, base, current, content, end, inner.1);
        (InputMarker(name) + inner.0 + EndMarker(name) + rest.0, rest.1)
      case None =>
        var rest := Expand(fs, base, current, content, i + 1, seen);
        ([content[i]] + rest.0, rest.1)
  }

  /** `read_tex_with_inputs(main, base_dir)` with a fresh `seen` set. */
  function ReadTexWithInputs(fs: FileSystem, main: string, base: string): (r: string)
    ensures main !in fs ==> r == MissingNote(BaseName(main))
    ensures main in fs ==> r == Expand(fs, base, main, fs[main], 0, {main}).0
  {
    assert {} + {main} == {main};
    Read(fs, base, main, {}).0
  }

  /** A directive starts at `j`. */
  predicate DirectiveAt(content: string, j: nat) {
    ArgAnyAt(content, j, Directives, false, true).Some?
  }

  /** No directive starts anywhere in `[i, k)`. */
  predicate NoDirectiveIn(content: string, i: nat, k: nat) {
    forall j :: i <= j < k ==> !DirectiveAt(content, j)
  }

  /** The pass at the end of the text produces nothing. */
  lemma ExpandAtEnd(fs: FileSystem, base: string, current: string, content: string, seen: set<string>)
    ensures Expand(fs, base, current, content, |content|, seen) == ("", seen)
  {
  }

  /** A character where no directive starts is copied. */
  lemma ExpandCopyStep(fs: FileSystem, base: string, current: string, content: string, i: nat, seen: set<string>)
    requires i < |content| && ArgAnyAt(content, i, Directives, false, true).None?
    ensures Expand(fs, base, current, content, i, seen)
      == ([content[i]] + Expand(fs, base, current, content, i + 1, seen).0, Expand(fs, base, current, content, i + 1, seen).1)
  {
  }

  /** A directive is replaced by the markers around the expansion of the
      file it names. */
  lemma ExpandDirectiveStep(fs: FileSystem, base: string, current: string, content: string,
                            k: nat, seen: set<string>, arg: string, end: nat)
    requires k < |content| && ArgAnyAt(content, k, Directives, false, true) == Some((arg, end))
    ensures k < end <= |content|
    ensures var name := TexName(arg);
      var inner := Read(fs, base, Resolve(fs, base, current, name), seen);
      var rest := Expand(fs, base, current, content, end, inner.1);
      Expand(fs, base, current, content, k, seen) == (InputMarker(name) + inner.0 + EndMarker(name) + rest.0, rest.1)
  {
    ArgAnyAtGroup(content, k, Directives, false, true);
  }

  /** A stretch holding no directive is copied unchanged, and the pass
      continues after it with the same `seen` set. */
  lemma {:induction false} ExpandCopies(fs: FileSystem, base: string, current: string, content: string,
                                        i: nat, k: nat, seen: set<string>)
    requires i <= k <= |content| && NoDirectiveIn(content, i, k)
    ensures Expand(fs, base, current, content, i, seen)
      == (content[i..k] + Expand(fs, base, current, content, k, seen).0, Expand(fs, base, current, content, k, seen).1)
    decreases k - i
  {
    if i < k {
      assert !DirectiveAt(content, i);
      ExpandCopyStep(fs, base, current, content, i, seen);
      ExpandCopies(fs, base, current, content, i + 1, k, seen);
      var b := Expand(fs, base, current, content, k, seen);
      SliceCons(content, i, k);
      Assoc([content[i]], content[i + 1..k], b.0);
    } else {
      var b := Expand(fs, base, current, content, k, seen);
      assert content[i..k] + b.0 == b.0;
    }
  }

  /** Text holding no directive at all is copied unchanged. */
  lemma ExpandNoDirective(fs: FileSystem, base: string, current: string, content: string, i: nat, seen: set<string>)
    requires i <= |content| && NoDirectiveIn(content, i, |content|)
    ensures Expand(fs, base, current, content, i, seen) == (content[i..], seen)
  {
    ExpandCopies(fs, base, current, content, i, |content|, seen);
    ExpandAtEnd(fs, base, current, content, seen);
    assert content[i..|content|] + "" == content[i..];
  }

  /** The first directive after `i`, at `k`, naming `arg`: the text before it
      is copied, the directive becomes the INPUT marker, the expansion of the
      file it names and the END INPUT marker, and the pass resumes after the
      directive with the `seen` set that expansion left. */
  lemma ExpandDirective(fs: FileSystem, base: string, current: string, content: string,
                        i: nat, k: nat, seen: set<string>, arg: string, end: nat)
    requires i <= k < |content| && NoDirectiveIn(content, i, k)
    requires ArgAnyAt(content, k, Directives, false, true) == Some((arg, end))
    ensures k < end <= |content|
    ensures var name := TexName(arg);
      var inner := Read(fs, base, Resolve(fs, base, current, name), seen);
      var rest := Expand(fs, base, current, content, end, inner.1);
      Expand(fs, base, current, content, i, seen)
        == (content[i..k] + InputMarker(name) + inner.0 + EndMarker(name) + rest.0, rest.1)
  {
    ExpandDirectiveStep(fs, base, current, content, k, seen, arg, end);
    ExpandCopies(fs, base, current, content, i, k, seen);
    var name := TexName(arg);
    var inner := Read(fs, base, Resolve(fs, base, current, name), seen);
    var rest := Expand(fs, base, current, content, end, inner.1);
    Regroup(content[i..k], InputMarker(name), inner.0, EndMarker(name), rest.0);
  }

  lemma SliceCons(s: string, i: nat, k: nat)
    requires i < k <= |s|
    ensures s[i..k] == [s[i]] + s[i + 1..k]
  {
  }

  lemma Assoc(a: string, b: string, c: string)
    ensures a + (b + c) == a + b + c
  {
  }

  lemma Regroup(a: string, b: string, c: string, d: string, e: string)
    ensures a + (b + c + d + e) == a + b + c + d + e
  {
  }

  /** A path already seen is reported as circular and nothing is read. */
  lemma ReadSeen(fs: FileSystem, base: string, path: string, seen: set<string>)
    requires path in seen
    ensures Read(fs, base, path, seen) == (CircularNote(BaseName(path)), seen)
  {
  }

  /** Reading the same path again with the `seen` set left by the first read
      reports it as circular, even when no cycle exists: the set is shared
      by all later inclusions. */
  lemma ReadTwice(fs: FileSystem, base: string, path: string, seen: set<string>)
    ensures var after := Read(fs, base, path, seen).1;
      Read(fs, base, path, after) == (CircularNote(BaseName(path)), after)
  {
  }

  /** A missing file, not seen before, is reported as not found and recorded. */
  lemma ReadMissing(fs: FileSystem, base: string, path: string, seen: set<string>)
    requires path !in fs && path !in seen
    ensures Read(fs, base, path, seen) == (MissingNote(BaseName(path)), seen + {path})
  {
  }

  /** Text without a backslash holds no directive and is copied unchanged. */
  lemma {:induction false} ExpandPlain(fs: FileSystem, base: string, current: string, content: string, i: nat, seen: set<string>)
    requires i <= |content|
    requires forall k :: i <= k < |content| ==> content[k] != '\\'
    ensures Expand(fs, base, current, content, i, seen) == (content[i..], seen)
    decreases |content| - i
  {
    if i < |content| {
      ExpandPlain(fs, base, current, content, i + 1, seen);
      assert content[i..] == [content[i]] + content[i + 1..];
    }
  }

  /** A file without directives is returned as stored. */
  lemma ReadPlainFile(fs: FileSystem, base: string, path: string, seen: set<string>)
    requires path in fs && path !in seen
    requires '\\' !in fs[path]
    ensures Read(fs, base, path, seen) == (fs[path], seen + {path})
  {
    ExpandPlain(fs, base, path, fs[path], 0, seen + {path});
  }

  lemma PlainTexPath(stem: string)
    requires '/' !in stem
    ensures Parent(stem + ".tex") == "" && BaseName(stem + ".tex") == stem + ".tex"
  {
    assert '/' !in ".tex";
  }

  lemma InputDirective(stem: string)
    requires stem != [] && IsStripped(stem) && '}' !in stem
    requires !EndsWith(stem, ".tex")
    ensures var content := "\\input{" + stem + "}";
      && ArgAnyAt(content, 0, Directives, false, true) == Some((stem, |stem| + 8))
      && TexName(stem) == stem + ".tex"
      && |content| == |stem| + 8
  {
    var content := "\\input{" + stem + "}";
    ArgAtCommand("", "input", stem, "", false, true);
    assert "\\" + "input" + "{" == "\\input{";
    assert content == "" + "\\" + "input" + "{" + stem + "}" + "";
    assert Directives[0] == "input";
    assert ArgAt(content, 0, "input", false, true) == Some((stem, |stem| + 8));
    StrippedFixed(stem);
  }

  lemma ExpandSelf(stem: string)
    requires stem != [] && IsStripped(stem) && '}' !in stem && '/' !in stem
    requires !EndsWith(stem, ".tex")
    ensures var path := stem + ".tex";
      var content := "\\input{" + stem + "}";
      Expand(map[path := content], "", path, content, 0, {path})
        == (InputMarker(path) + CircularNote(path) + EndMarker(path), {path})
  {
    var path := stem + ".tex";
    var content := "\\input{" + stem + "}";
    var fs := map[path := content];
    InputDirective(stem);
    PlainTexPath(stem);
    assert Resolve(fs, "", path, path) == path;
    var inner := Read(fs, "", path, {path});
    assert inner == (CircularNote(path), {path});
    var rest := Expand(fs, "", path, content, |stem| + 8, {path});
    assert rest == ("", {path});
    var whole := Expand(fs, "", path, content, 0, {path});
    assert whole == (InputMarker(path) + inner.0 + EndMarker(path) + rest.0, rest.1);
    var text := InputMarker(path) + CircularNote(path) + EndMarker(path);
    assert text + "" == text;
  }

  /** A file that inputs itself is spliced once: the markers surround the
      circular note, and the expansion stops. */
  lemma SelfInclusion(stem: string)
    requires stem != [] && IsStripped(stem) && '}' !in stem && '/' !in stem
    requires !EndsWith(stem, ".tex")
    ensures var path := stem + ".tex";
      var fs := map[path := "\\input{" + stem + "}"];
      ReadTexWithInputs(fs, path, "") == InputMarker(path) + CircularNote(path) + EndMarker(path)
  {
    var path := stem + ".tex";
    ExpandSelf(stem);
    assert {} + {path} == {path};
  }
}
