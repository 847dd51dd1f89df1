/** Relative, `/`-separated paths as the scripts use them through
    `pathlib.Path`: parent, base name, joining and the stem of a file name.
    No normalisation of `.` or `..` segments is modelled. */
module Paths {
  import opened Wrappers
  import opened Text

  /** `s.rfind(c)`: the last index holding `c`. */
  function LastIndexOf(s: string, c: char): (r: Option<nat>)
    ensures r.Some? ==> r.value < |s| && s[r.value] == c && c !in s[r.value + 1..]
    ensures r.None? <==> c !in s
    decreases |s|
  {
    if |s| == 0 then None
    else if s[|s| - 1] == c then Some(|s| - 1)
    else
      var r := LastIndexOf(s[..|s| - 1], c);
      assert s == s[..|s| - 1] + [s[|s| - 1]];
      r
  }

  /** `path.parent`, with the current directory written as "". */
  function Parent(path: string): (r: string)
    ensures |r| <= |path| && r == path[..|r|]
    ensures '/' !in path ==> r == ""
  {
    match LastIndexOf(path, '/')
    case Some(k) => path[..k]
    case None => ""
  }

  /** `path.name`: the last segment. */
  function BaseName(path: string): (r: string)
    ensures '/' !in r
    ensures |r| <= |path| && r == path[|path| - |r|..]
    ensures '/' !in path ==> r == path
  {
    match LastIndexOf(path, '/')
    case Some(k) => path[k + 1..]
    case None => path
  }

  /** `dir / name`. */
  function JoinPath(dir: string, name: string): (r: string)
    ensures EndsWith(r, name)
  {
    if dir == "" then name else dir + "/" + name
  }

  /** `get_paper_dir`: a paper's directory under the data directory, with
      the `/` of an old-style identifier replaced by `_`. */
  function PaperDir(dataDir: string, paperId: string): (r: string)
    ensures '/' !in paperId ==> r == JoinPath(dataDir, paperId)
  {
    JoinPath(dataDir, ReplaceChar(paperId, '/', '_'))
  }

  /** Joining a plain file name onto a directory and taking the parent and
      the name again gives back both parts. */
  lemma ParentBaseOfJoin(dir: string, name: string)
    requires '/' !in name
    ensures Parent(JoinPath(dir, name)) == dir
    ensures BaseName(JoinPath(dir, name)) == name
  {
    if dir != "" {
      var p := dir + "/" + name;
      var k := |dir|;
      assert p[k] == '/';
      assert p[k + 1..] == name;
      assert p[..k] == dir;
    }
  }

  /** `Path(name).stem`: the name without its last `.suffix`, except when the
      dot is the first or the last character. */
  function Stem(name: string): (r: string)
    ensures |r| <= |name| && r == name[..|r|]
    ensures '.' !in name ==> r == name
  {
    match LastIndexOf(name, '.')
    case Some(i) => if 0 < i < |name| - 1 then name[..i] else name
    case None => name
  }

  /** The stem of `base.ext` is `base` when neither part holds a dot and
      `base` is not empty. */
  lemma StemOfExtension(base: string, ext: string)
    requires base != "" && ext != ""
    requires '.' !in base && '.' !in ext
    ensures Stem(base + "." + ext) == base
  {
    var n := base + "." + ext;
    var k := |base|;
    assert n[k] == '.';
    assert n[k + 1..] == ext;
    assert n[..k] == base;
  }
}
