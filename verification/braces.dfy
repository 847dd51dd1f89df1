/** The balanced-brace scanner of `extract_brace_content`
    (scripts/split_sections.py): a depth counter walks the text from the
    given offset; the group closes when the depth returns to zero. */
module Braces {

  function Delta(c: char): int {
    if c == '{' then 1 else if c == '}' then -1 else 0
  }

  /** Net nesting depth of a text: its `{` count minus its `}` count. */
  function Balance(s: string): int {
    if |s| == 0 then 0 else Balance(s[..|s| - 1]) + Delta(s[|s| - 1])
  }

  lemma BalanceStep(text: string, p: nat, k: nat)
    requires p <= k < |text|
    ensures Balance(text[p..k + 1]) == Balance(text[p..k]) + Delta(text[k])
  {
    assert text[p..k + 1][..k - p] == text[p..k];
  }

  /** `q` holds the `}` matching the `{` at `p`: the depth counted from `p`
      stays positive up to `q` and returns to zero exactly there. */
  ghost predicate Matches(text: string, p: nat, q: nat) {
    && p < q < |text|
    && text[p] == '{'
    && Balance(text[p..q + 1]) == 0
    && forall k :: p < k <= q ==> Balance(text[p..k]) > 0
  }

  /** The `{` at `p` is never closed before the end of the text. */
  ghost predicate Unterminated(text: string, p: nat) {
    && p < |text|
    && text[p] == '{'
    && forall k :: p < k <= |text| ==> Balance(text[p..k]) > 0
  }

  /** The loop of `extract_brace_content` from index `i`, with the current
      depth and the recorded start of the content. */
  function ScanFrom(text: string, i: nat, depth: int, start: nat): (r: (string, nat))
    requires start <= i <= |text|
    ensures r.1 <= |text|
    ensures r == ("", |text|) || (i < r.1 && text[r.1 - 1] == '}')
    decreases |text| - i
  {
    if i == |text| then ("", |text|)
    else if text[i] == '{' then ScanFrom(text, i + 1, depth + 1, if depth == 0 then i + 1 else start)
    else if text[i] == '}' then
      if depth - 1 == 0 then (text[start..i], i + 1) else ScanFrom(text, i + 1, depth - 1, start)
    else ScanFrom(text, i + 1, depth, start)
  }

  /** `extract_brace_content(text, start_pos)`: the content of the group that
      opens at or after `startPos`, and the offset just past its `}`. An
      offset at or beyond the end of the text yields `("", len(text))`. */
  function ExtractBraceContent(text: string, startPos: nat): (r: (string, nat))
    ensures r.1 <= |text|
    ensures startPos >= |text| ==> r == ("", |text|)
  {
    if startPos >= |text| then ("", |text|) else ScanFrom(text, startPos, 0, startPos)
  }

  lemma {:induction false} ScanInsideMatched(text: string, p: nat, q: nat, i: nat)
    requires Matches(text, p, q)
    requires p < i <= q
    ensures ScanFrom(text, i, Balance(text[p..i]), p + 1) == (text[p + 1..q], q + 1)
    decreases q - i
  {
    BalanceStep(text, p, i);
    if i < q {
      ScanInsideMatched(text, p, q, i + 1);
    }
  }

  lemma {:induction false} ScanInsideUnterminated(text: string, p: nat, i: nat)
    requires Unterminated(text, p)
    requires p < i <= |text|
    ensures ScanFrom(text, i, Balance(text[p..i]), p + 1) == ("", |text|)
    decreases |text| - i
  {
    if i < |text| {
      BalanceStep(text, p, i);
      ScanInsideUnterminated(text, p, i + 1);
    }
  }

  lemma OpeningDepth(text: string, p: nat)
    requires p < |text| && text[p] == '{'
    ensures Balance(text[p..p + 1]) == 1
  {
    assert text[p..p + 1][..0] == [];
  }

  /** A `{` whose match is at `q` yields the text strictly between them and
      the offset just past `q`; nested pairs inside are skipped. */
  lemma ExtractMatched(text: string, p: nat, q: nat)
    requires Matches(text, p, q)
    ensures ExtractBraceContent(text, p) == (text[p + 1..q], q + 1)
  {
    OpeningDepth(text, p);
    ScanInsideMatched(text, p, q, p + 1);
  }

  /** An unterminated `{` yields the empty string and the end of the text,
      never the remainder of the text. */
  lemma ExtractUnterminated(text: string, p: nat)
    requires Unterminated(text, p)
    ensures ExtractBraceContent(text, p) == ("", |text|)
  {
    OpeningDepth(text, p);
    ScanInsideUnterminated(text, p, p + 1);
  }

  lemma {:induction false} MatchOrUnterminatedFrom(text: string, p: nat, k: nat)
    requires p < |text| && text[p] == '{'
    requires p < k <= |text|
    requires forall j :: p < j <= k ==> Balance(text[p..j]) > 0
    ensures Unterminated(text, p) || exists q :: Matches(text, p, q)
    decreases |text| - k
  {
    if k < |text| {
      BalanceStep(text, p, k);
      if Balance(text[p..k + 1]) > 0 {
        MatchOrUnterminatedFrom(text, p, k + 1);
      } else {
        assert Matches(text, p, k);
      }
    }
  }

  /** Every `{` is either matched or unterminated, so the two lemmas above
      describe `extract_brace_content` completely when it starts on a `{`. */
  lemma ExtractBraceCases(text: string, p: nat)
    requires p < |text| && text[p] == '{'
    ensures var r := ExtractBraceContent(text, p);
      || (exists q: nat :: Matches(text, p, q) && r == (text[p + 1..q], q + 1))
      || (Unterminated(text, p) && r == ("", |text|))
  {
    OpeningDepth(text, p);
    MatchOrUnterminatedFrom(text, p, p + 1);
    if Unterminated(text, p) {
      ExtractUnterminated(text, p);
    } else {
      var q :| Matches(text, p, q);
      ExtractMatched(text, p, q);
    }
  }
}
