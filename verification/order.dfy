/** The order `sorted(dir.glob("*.tex"))` gives the files of one directory:
    Python compares the names as strings, code point by code point, with a
    proper prefix first. A directory listing is a sequence of
    (name, content) pairs. */
module Order {
  /** Python `a <= b` on strings. */
  predicate LexLe(a: string, b: string)
    decreases |a|
  {
    |a| == 0 || (|b| > 0 && (a[0] < b[0] || (a[0] == b[0] && LexLe(a[1..], b[1..]))))
  }

  lemma {:induction false} LexLeTotal(a: string, b: string)
    ensures LexLe(a, b) || LexLe(b, a)
    decreases |a|
  {
    if |a| > 0 && |b| > 0 && a[0] == b[0] {
      LexLeTotal(a[1..], b[1..]);
    }
  }

  lemma {:induction false} LexLeRefl(a: string)
    ensures LexLe(a, a)
    decreases |a|
  {
    if |a| > 0 {
      LexLeRefl(a[1..]);
    }
  }

  lemma {:induction false} LexLeTrans(a: string, b: string, c: string)
    requires LexLe(a, b) && LexLe(b, c)
    ensures LexLe(a, c)
    decreases |a|
  {
    if |a| > 0 && a[0] == b[0] && b[0] == c[0] {
      LexLeTrans(a[1..], b[1..], c[1..]);
    }
  }

  /** Both orders hold only between equal strings. */
  lemma {:induction false} LexLeAntisymmetric(a: string, b: string)
    requires LexLe(a, b) && LexLe(b, a)
    ensures a == b
    decreases |a|
  {
    if |a| > 0 {
      LexLeAntisymmetric(a[1..], b[1..]);
      assert a == [a[0]] + a[1..] && b == [b[0]] + b[1..];
    }
  }

  type Listing = seq<(string, string)>

  predicate SortedByName(xs: Listing) {
    forall i, j :: 0 <= i < j < |xs| ==> LexLe(xs[i].0, xs[j].0)
  }

  /** Inserts `x` before the first entry whose name is not smaller. */
  function Insert(x: (string, string), xs: Listing): (r: Listing)
    requires SortedByName(xs)
    ensures SortedByName(r)
    ensures multiset(r) == multiset(xs) + multiset{x}
    ensures |r| == |xs| + 1
    ensures forall i :: 0 <= i < |r| ==> r[i] == x || r[i] in xs
    decreases |xs|
  {
    if |xs| == 0 then [x]
    else if LexLe(x.0, xs[0].0) then
      BelowAll(x.0, xs);
      [x] + xs
    else
      LexLeTotal(x.0, xs[0].0);
      var rest := Insert(x, xs[1..]);
      assert xs == [xs[0]] + xs[1..];
      HeadBelowRest(x, xs, rest);
      [xs[0]] + rest
  }

  /** A name below the first of a sorted listing is below all of them. */
  lemma BelowAll(a: string, xs: Listing)
    requires SortedByName(xs) && |xs| > 0 && LexLe(a, xs[0].0)
    ensures forall j :: 0 <= j < |xs| ==> LexLe(a, xs[j].0)
  {
    forall j | 0 <= j < |xs| ensures LexLe(a, xs[j].0) {
      if j > 0 { LexLeTrans(a, xs[0].0, xs[j].0); }
    }
  }

  /** The head of a sorted listing is below every entry of the tail with
      one more entry inserted, when it is below that entry too. */
  lemma HeadBelowRest(x: (string, string), xs: Listing, rest: Listing)
    requires SortedByName(xs) && |xs| > 0 && LexLe(xs[0].0, x.0)
    requires forall i :: 0 <= i < |rest| ==> rest[i] == x || rest[i] in xs[1..]
    ensures forall j :: 0 <= j < |rest| ==> LexLe(xs[0].0, rest[j].0)
  {
    forall j | 0 <= j < |rest| ensures LexLe(xs[0].0, rest[j].0) {
      if rest[j] != x {
        var k :| 0 <= k < |xs[1..]| && xs[1..][k] == rest[j];
        assert xs[k + 1] == rest[j];
      }
    }
  }

  /** `sorted(...)` by name, as an insertion sort. */
  function SortByName(xs: Listing): (r: Listing)
    ensures SortedByName(r)
    ensures multiset(r) == multiset(xs)
    ensures |r| == |xs|
    decreases |xs|
  {
    if |xs| == 0 then []
    else
      assert xs == xs[..|xs| - 1] + [xs[|xs| - 1]];
      Insert(xs[|xs| - 1], SortByName(xs[..|xs| - 1]))
  }

  /** Two sorted arrangements of the same entries, the first with distinct
      names, start with the same entry. */
  lemma SameHead(a: Listing, b: Listing)
    requires SortedByName(a) && SortedByName(b)
    requires multiset(a) == multiset(b) && |a| > 0
    requires forall i, j :: 0 <= i < j < |a| ==> a[i].0 != a[j].0
    ensures |b| > 0 && a[0] == b[0]
  {
    assert a[0] in multiset(b);
    assert b[0] in multiset(a) by { assert |b| == |multiset(b)| == |multiset(a)| == |a|; }
    var i :| 0 <= i < |b| && b[i] == a[0];
    var j :| 0 <= j < |a| && a[j] == b[0];
    assert LexLe(b[0].0, a[0].0) by {
      if i == 0 { LexLeRefl(a[0].0); }
    }
    assert LexLe(a[0].0, b[0].0) by {
      if j == 0 { LexLeRefl(a[0].0); }
    }
    LexLeAntisymmetric(a[0].0, b[0].0);
    assert j == 0;
  }

  /** Removing the same first entry leaves the same multiset. */
  lemma SameTail<T>(a: seq<T>, b: seq<T>)
    requires |a| > 0 && |b| > 0 && a[0] == b[0] && multiset(a) == multiset(b)
    ensures multiset(a[1..]) == multiset(b[1..])
  {
    assert a == [a[0]] + a[1..] && b == [b[0]] + b[1..];
    forall z ensures multiset(a[1..])[z] == multiset(b[1..])[z] {
      assert multiset(a)[z] == multiset(b)[z];
    }
  }

  /** A sorted listing with distinct names is the only sorted arrangement of
      its entries. */
  lemma {:induction false} SortedUnique(a: Listing, b: Listing)
    requires SortedByName(a) && SortedByName(b)
    requires multiset(a) == multiset(b)
    requires forall i, j :: 0 <= i < j < |a| ==> a[i].0 != a[j].0
    ensures a == b
    decreases |a|
  {
    assert |a| == |multiset(a)| == |b|;
    if |a| > 0 {
      SameHead(a, b);
      SameTail(a, b);
      SortedUnique(a[1..], b[1..]);
      assert a == [a[0]] + a[1..] && b == [b[0]] + b[1..];
    }
  }
}
