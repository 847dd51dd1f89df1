/** The first-occurrence filter shared by both key-term extractors
    (`extract_key_terms` in scripts/build_index.py and in
    scripts/build_taxonomy.py): a cleaned candidate is kept when it has at
    least three characters and its lower-case form has not been kept before.
    The filters return the indices of the kept candidates, so callers can
    carry extra data (a line number) alongside each term. */
module Terms {
  import opened Text

  /** Long enough to be kept: more than two characters. */
  predicate Eligible(t: string) { |t| >= 3 }

  /** Two candidates are duplicates when their lower-case forms agree. */
  function Key(t: string): string { Lower(t) }

  /** The uncapped filter over `ts[k..]`, with the keys kept so far in `seen`. */
  function KeepFirst(ts: seq<string>, k: nat, seen: set<string>): (r: seq<nat>)
    requires k <= |ts|
    ensures forall i :: 0 <= i < |r| ==> k <= r[i] < |ts| && Eligible(ts[r[i]]) && Key(ts[r[i]]) !in seen
    ensures forall i, j :: 0 <= i < j < |r| ==> r[i] < r[j]
    ensures forall i, j :: 0 <= i < j < |r| ==> Key(ts[r[i]]) != Key(ts[r[j]])
    decreases |ts| - k
  {
    if k == |ts| then []
    else if Eligible(ts[k]) && Key(ts[k]) !in seen then [k] + KeepFirst(ts, k + 1, seen + {Key(ts[k])})
    else KeepFirst(ts, k + 1, seen)
  }

  /** Every eligible candidate whose key was not already seen is represented:
      some kept candidate at or before it has the same key. */
  lemma {:induction false} KeepFirstComplete(ts: seq<string>, k: nat, seen: set<string>, j: nat)
    requires k <= j < |ts|
    requires Eligible(ts[j]) && Key(ts[j]) !in seen
    ensures exists i :: 0 <= i < |KeepFirst(ts, k, seen)| && KeepFirst(ts, k, seen)[i] <= j
                        && Key(ts[KeepFirst(ts, k, seen)[i]]) == Key(ts[j])
    decreases |ts| - k
  {
    var r := KeepFirst(ts, k, seen);
    if Eligible(ts[k]) && Key(ts[k]) !in seen {
      assert r == [k] + KeepFirst(ts, k + 1, seen + {Key(ts[k])});
      if Key(ts[k]) == Key(ts[j]) {
        assert 0 < |r| && r[0] == k && r[0] <= j && Key(ts[r[0]]) == Key(ts[j]);
      } else {
        KeepFirstComplete(ts, k + 1, seen + {Key(ts[k])}, j);
        var r' := KeepFirst(ts, k + 1, seen + {Key(ts[k])});
        var i :| 0 <= i < |r'| && r'[i] <= j && Key(ts[r'[i]]) == Key(ts[j]);
        assert r[i + 1] == r'[i];
      }
    } else {
      KeepFirstComplete(ts, k + 1, seen, j);
    }
  }

  /** Each kept candidate is the first eligible occurrence of its key: no
      earlier eligible candidate has the same key. */
  lemma {:induction false} KeepFirstIsFirst(ts: seq<string>, k: nat, seen: set<string>, i: nat, j: nat)
    requires k <= |ts|
    requires i < |KeepFirst(ts, k, seen)|
    requires k <= j < KeepFirst(ts, k, seen)[i]
    requires Eligible(ts[j])
    ensures Key(ts[j]) != Key(ts[KeepFirst(ts, k, seen)[i]])
    decreases |ts| - k
  {
    var r := KeepFirst(ts, k, seen);
    if Key(ts[j]) !in seen {
      KeepFirstComplete(ts, k, seen, j);
      var i' :| 0 <= i' < |r| && r[i'] <= j && Key(ts[r[i']]) == Key(ts[j]);
      assert i' != i;
    }
  }

  /** The cap `max(1, maxTerms - kept)` that remains: the check
      `len(terms) >= max_terms` runs after each append, so at least one
      term is always kept. */
  function Room(maxTerms: int, kept: nat): (n: nat)
    ensures n >= 1
    ensures maxTerms - kept >= 1 ==> n == maxTerms - kept
  {
    if maxTerms - kept >= 1 then maxTerms - kept else 1
  }

  /** The capped filter of scripts/build_index.py: after `kept` terms, the
      loop stops as soon as an append makes `kept + 1 >= maxTerms`. */
  function KeepCapped(ts: seq<string>, k: nat, seen: set<string>, kept: nat, maxTerms: int): (r: seq<nat>)
    requires k <= |ts|
    ensures |r| <= Room(maxTerms, kept)
    decreases |ts| - k
  {
    if k == |ts| then []
    else if Eligible(ts[k]) && Key(ts[k]) !in seen then
      if kept + 1 >= maxTerms then [k]
      else [k] + KeepCapped(ts, k + 1, seen + {Key(ts[k])}, kept + 1, maxTerms)
    else KeepCapped(ts, k + 1, seen, kept, maxTerms)
  }

  /** The capped filter keeps exactly the first `Room` terms the uncapped
      filter would keep. */
  lemma {:induction false} KeepCappedIsPrefix(ts: seq<string>, k: nat, seen: set<string>, kept: nat, maxTerms: int)
    requires k <= |ts|
    ensures KeepCapped(ts, k, seen, kept, maxTerms) == Take(KeepFirst(ts, k, seen), Room(maxTerms, kept))
    decreases |ts| - k
  {
    if k < |ts| {
      var full := KeepFirst(ts, k, seen);
      if Eligible(ts[k]) && Key(ts[k]) !in seen {
        var rest := KeepFirst(ts, k + 1, seen + {Key(ts[k])});
        assert full == [k] + rest;
        if kept + 1 < maxTerms {
          KeepCappedIsPrefix(ts, k + 1, seen + {Key(ts[k])}, kept + 1, maxTerms);
          assert Take(full, Room(maxTerms, kept)) == [k] + Take(rest, Room(maxTerms, kept + 1));
        } else {
          assert Take(full, Room(maxTerms, kept)) == [k];
        }
      } else {
        KeepCappedIsPrefix(ts, k + 1, seen, kept, maxTerms);
      }
    }
  }

  /** The candidates at the given indices. */
  function Pick(ts: seq<string>, idx: seq<nat>): (r: seq<string>)
    requires forall i :: 0 <= i < |idx| ==> idx[i] < |ts|
    ensures |r| == |idx|
    ensures forall i :: 0 <= i < |idx| ==> r[i] == ts[idx[i]]
  {
    seq(|idx|, i requires 0 <= i < |idx| => ts[idx[i]])
  }

  /** The capped filter applied to a candidate list, as the terms kept. */
  function FirstTerms(ts: seq<string>, maxTerms: int): (r: seq<string>)
    ensures |r| <= Room(maxTerms, 0)
    ensures forall i :: 0 <= i < |r| ==> Eligible(r[i]) && r[i] in ts
    ensures forall i, j :: 0 <= i < j < |r| ==> Key(r[i]) != Key(r[j])
  {
    KeepCappedIsPrefix(ts, 0, {}, 0, maxTerms);
    Pick(ts, KeepCapped(ts, 0, {}, 0, maxTerms))
  }

  /** The terms kept under a cap are the first terms kept without one. */
  lemma FirstTermsArePrefix(ts: seq<string>, maxTerms: int)
    ensures var full := KeepFirst(ts, 0, {});
      FirstTerms(ts, maxTerms) == Take(Pick(ts, full), Room(maxTerms, 0))
  {
    KeepCappedIsPrefix(ts, 0, {}, 0, maxTerms);
  }

  /** Whatever the cap, at least one term is kept when any candidate is
      eligible, and a cap of one or less keeps exactly one. */
  lemma FirstTermsKeepOne(ts: seq<string>, maxTerms: int, j: nat)
    requires j < |ts| && Eligible(ts[j])
    ensures |FirstTerms(ts, maxTerms)| >= 1
    ensures maxTerms <= 1 ==> |FirstTerms(ts, maxTerms)| == 1
  {
    KeepFirstComplete(ts, 0, {}, j);
    FirstTermsArePrefix(ts, maxTerms);
  }

  /** An eligible first candidate is the first term kept. */
  lemma FirstTermsHead(ts: seq<string>, maxTerms: int)
    requires |ts| > 0 && Eligible(ts[0])
    ensures |FirstTerms(ts, maxTerms)| > 0 && FirstTerms(ts, maxTerms)[0] == ts[0]
  {
    FirstTermsArePrefix(ts, maxTerms);
    assert KeepFirst(ts, 0, {})[0] == 0;
  }

  /** A kept term is the first eligible candidate with its key, so it keeps
      that candidate's spelling. */
  lemma FirstTermIsFirstOccurrence(ts: seq<string>, maxTerms: int, i: nat, j: nat)
    requires i < |FirstTerms(ts, maxTerms)|
    requires j < |ts| && Eligible(ts[j]) && Key(ts[j]) == Key(FirstTerms(ts, maxTerms)[i])
    ensures exists k :: 0 <= k <= j && ts[k] == FirstTerms(ts, maxTerms)[i]
  {
    var full := KeepFirst(ts, 0, {});
    FirstTermsArePrefix(ts, maxTerms);
    var k := full[i];
    assert FirstTerms(ts, maxTerms)[i] == ts[k];
    if j < k {
      KeepFirstIsFirst(ts, 0, {}, i, j);
    }
  }
}
