/** Failure-compatible wrappers used throughout the model: `Option` for the
    source's `None`/value results and `Result` for its raised exceptions and
    error dictionaries. */
module Wrappers {

  datatype Option<+T> = None | Some(value: T) {

    predicate IsFailure() {
      None?
    }

    function PropagateFailure<U>(): Option<U>
      requires None?
    {
      None
    }

    function Extract(): T
      requires Some?
    {
      value
    }

    function GetOr(default: T): T {
      match this
      case Some(v) => v
      case None => default
    }
  }

  datatype Result<+R, +E> = Success(value: R) | Failure(error: E) {

    predicate IsFailure() {
      Failure?
    }

    function PropagateFailure<U>(): Result<U, E>
      requires Failure?
    {
      Failure(error)
    }

    function Extract(): R
      requires Success?
    {
      value
    }
  }

  /** The first entry from `l` on that holds a value, with its position:
      how the scripts try a list of patterns in order and keep the first
      that matches. */
  function FirstHit<T>(h: seq<Option<T>>, l: nat): (r: Option<(nat, T)>)
    ensures r.Some? ==> l <= r.value.0 < |h| && h[r.value.0] == Some(r.value.1)
    decreases |h| - l
  {
    if l >= |h| then None
    else match h[l]
      case Some(v) => Some((l, v))
      case None => FirstHit(h, l + 1)
  }

  /** The entry found is the first from `l` on; when none is found, no entry
      from `l` on holds a value. */
  lemma {:induction false} FirstHitFirst<T>(h: seq<Option<T>>, l: nat)
    ensures var r := FirstHit(h, l);
      && (r.Some? ==> forall m :: l <= m < r.value.0 ==> h[m].None?)
      && (r.None? ==> forall m :: l <= m < |h| ==> h[m].None?)
    decreases |h| - l
  {
    if l < |h| && h[l].None? {
      FirstHitFirst(h, l + 1);
    }
  }

  /** When `h[m]` holds a value and nothing from `l` up to `m` does, the
      first hit from `l` is the one at `m`. */
  lemma {:induction false} FirstHitAt<T>(h: seq<Option<T>>, l: nat, m: nat)
    requires l <= m < |h| && h[m].Some?
    requires forall j :: l <= j < m ==> h[j].None?
    ensures FirstHit(h, l) == Some((m, h[m].value))
    decreases m - l
  {
    if l < m {
      FirstHitAt(h, l + 1, m);
    }
  }

  /** The values held, in order, the empty entries dropped. */
  function Somes<T>(h: seq<Option<T>>): (r: seq<T>)
    ensures |r| <= |h|
    ensures forall x :: x in r ==> Some(x) in h
    decreases |h|
  {
    if |h| == 0 then []
    else
      var rest := Somes(h[1..]);
      assert forall o :: o in h[1..] ==> o in h;
      match h[0]
      case Some(v) => [v] + rest
      case None => rest
  }

  /** Every value held is kept. */
  lemma {:induction false} SomesComplete<T>(h: seq<Option<T>>, i: nat)
    requires i < |h| && h[i].Some?
    ensures h[i].value in Somes(h)
    decreases i
  {
    if i > 0 {
      SomesComplete(h[1..], i - 1);
    }
  }

  /** The lists one after another. */
  function Concat<T>(xss: seq<seq<T>>): (r: seq<T>)
    ensures forall x :: x in r ==> exists j :: 0 <= j < |xss| && x in xss[j]
    decreases |xss|
  {
    if |xss| == 0 then []
    else
      var rest := Concat(xss[1..]);
      assert forall j :: 0 <= j < |xss| - 1 ==> xss[1..][j] == xss[j + 1];
      xss[0] + rest
  }

  /** Every element of every list is kept. */
  lemma {:induction false} ConcatComplete<T>(xss: seq<seq<T>>, j: nat, x: T)
    requires j < |xss| && x in xss[j]
    ensures x in Concat(xss)
    decreases j
  {
    if j > 0 {
      ConcatComplete(xss[1..], j - 1, x);
    }
  }
}
