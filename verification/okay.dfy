/** The encouragement the `okay` skill prints when a reading session ends
    (skills/okay.py): praise for the concepts mastered today and this week,
    and a challenge naming the first gaps to revisit. */
module Okay {
  import opened Wrappers
  import opened Text

  /** The reply: the skill builds a dictionary with exactly these two keys. */
  datatype Encouragement = Encouragement(praise: string, challenge: string)

  /** The weekly statistics as nested dictionaries of counts, as
      `get_weekly_summary` reports them. */
  type Stats = map<string, map<string, int>>

  /** `stats.get(outer, {}).get(inner, 0)`: a missing key counts as zero. */
  function StatOf(stats: Stats, outer: string, inner: string): (n: int)
    ensures outer !in stats || inner !in stats[outer] ==> n == 0
  {
    if outer in stats && inner in stats[outer] then stats[outer][inner] else 0
  }

  function NailedSentence(n: nat): string {
    "You nailed " + NatToString(n) + " concept(s) today!"
  }

  function WeeklySentence(n: nat): string {
    "This week you've mastered " + NatToString(n) + " concepts total."
  }

  const NoPraise: string := "Good effort today!"

  const NoChallenge: string := "Keep the momentum going tomorrow!"

  /** The name a gap is mentioned by: its concept, or `that concept` when it
      has none. */
  function GapName(gap: Option<string>): string {
    gap.GetOr("that concept")
  }

  /** The names of the first two gaps. */
  function FirstNames(gaps: seq<Option<string>>): (r: seq<string>)
    ensures |r| == if |gaps| < 2 then |gaps| else 2
  {
    var n := if |gaps| < 2 then |gaps| else 2;
    seq(n, i requires 0 <= i < n => GapName(gaps[i]))
  }

  function ChallengeSentence(names: seq<string>): string {
    "Tomorrow, revisit " + Join(names, ", ") + " — your brain is primed to make connections now."
  }

  /** The praise sentences that apply, in order. */
  function PraiseParts(masteredCount: nat, weeklyMastered: int): (r: seq<string>)
    ensures |r| <= 2
  {
    (if masteredCount > 0 then [NailedSentence(masteredCount)] else [])
    + (if weeklyMastered > 0 then [WeeklySentence(weeklyMastered)] else [])
  }

  /** The praise for `masteredCount` concepts today and `weeklyMastered` this
      week. */
  function Praise(masteredCount: nat, weeklyMastered: int): (p: string)
    ensures p == NoPraise <==> masteredCount == 0 && weeklyMastered <= 0
  {
    var parts := PraiseParts(masteredCount, weeklyMastered);
    var p := if parts == [] then NoPraise else Join(parts, " ");
    assert parts != [] ==> p[0] == parts[0][0] != 'G';
    p
  }

  /** `generate_encouragement`. Only the number of mastered concepts matters,
      not what they are. */
  function GenerateEncouragement(gaps: seq<Option<string>>, mastered: seq<Option<string>>, stats: Stats): (e: Encouragement)
    ensures e.praise == NoPraise <==> |mastered| == 0 && StatOf(stats, "mastered", "count") <= 0
    ensures e.challenge == NoChallenge <==> |gaps| == 0
    ensures |gaps| > 0 ==> e.challenge == ChallengeSentence(FirstNames(gaps))
  {
    var praise := Praise(|mastered|, StatOf(stats, "mastered", "count"));
    var challenge := if |gaps| > 0 then ChallengeSentence(FirstNames(gaps)) else NoChallenge;
    Encouragement(praise, challenge)
  }

  // ---------------------------------------------------------------------------
  // What the praise says
  // ---------------------------------------------------------------------------

  /** A printed number holds no letter. */
  lemma NumberHasNoLetter(n: nat, c: char)
    requires IsLetter(c)
    ensures c !in NatToString(n)
  {
    var s := NatToString(n);
    assert forall i :: 0 <= i < |s| ==> IsDigit(s[i]);
  }

  lemma JoinTwo(x: string, y: string, sep: string)
    ensures Join([x, y], sep) == x + sep + y
  {
    assert [x, y][1..] == [y];
  }

  /** The four shapes the praise can take. */
  lemma PraiseShapes(m: nat, w: int)
    ensures m > 0 && w > 0 ==> Praise(m, w) == NailedSentence(m) + " " + WeeklySentence(w)
    ensures m > 0 && w <= 0 ==> Praise(m, w) == NailedSentence(m)
    ensures m == 0 && w > 0 ==> Praise(m, w) == WeeklySentence(w)
    ensures m == 0 && w <= 0 ==> Praise(m, w) == NoPraise
  {
    if m > 0 && w > 0 {
      assert PraiseParts(m, w) == [NailedSentence(m), WeeklySentence(w)];
      JoinTwo(NailedSentence(m), WeeklySentence(w), " ");
    }
  }

  lemma PrefixStarts(x: string, y: string)
    ensures StartsWith(x + y, x)
  {
    assert (x + y)[..|x|] == x;
  }

  /** Today's sentence opens the praise when something was mastered. */
  lemma NailedOpensPraise(m: nat, w: int)
    requires m > 0
    ensures StartsWith(Praise(m, w), NailedSentence(m))
  {
    PraiseShapes(m, w);
    var s := NailedSentence(m);
    if w > 0 {
      PrefixStarts(s, " " + WeeklySentence(w));
      assert s + " " + WeeklySentence(w) == s + (" " + WeeklySentence(w));
    } else {
      PrefixStarts(s, "");
      assert s + "" == s;
    }
  }

  lemma WeeklyLacksY(w: nat)
    ensures 'Y' !in WeeklySentence(w)
  {
    NumberHasNoLetter(w, 'Y');
    assert 'Y' !in "This week you've mastered ";
  }

  /** Without a concept mastered today, the praise has no capital Y. */
  lemma NoNailedPraise(w: int)
    ensures !Contains(Praise(0, w), "You nailed ")
  {
    PraiseShapes(0, w);
    if w > 0 {
      WeeklyLacksY(w);
      NotContainsByChar(WeeklySentence(w), "You nailed ", 'Y');
    } else {
      NotContainsByChar(NoPraise, "You nailed ", 'Y');
    }
  }

  /** The weekly sentence closes the praise when the weekly count is
      positive. */
  lemma WeeklyInPraise(m: nat, w: int)
    requires w > 0
    ensures Contains(Praise(m, w), WeeklySentence(w))
  {
    PraiseShapes(m, w);
    var s := WeeklySentence(w);
    assert StartsWith(s, s);
    if m > 0 {
      ContainsAfter(NailedSentence(m) + " ", s, s);
    }
  }

  /** Without a positive weekly count, the praise has no capital T. */
  lemma NoWeeklyPraise(m: nat, w: int)
    requires w <= 0
    ensures !Contains(Praise(m, w), "This week")
  {
    PraiseShapes(m, w);
    if m > 0 {
      NumberHasNoLetter(m, 'T');
      NotContainsByChar(NailedSentence(m), "This week", 'T');
    } else {
      NotContainsByChar(NoPraise, "This week", 'T');
    }
  }

  /** The praise opens with "You nailed N concept(s) today!" when something
      was mastered today, and does not mention it otherwise. */
  lemma NailedExactlyWhenMastered(gaps: seq<Option<string>>, mastered: seq<Option<string>>, stats: Stats)
    ensures var p := GenerateEncouragement(gaps, mastered, stats).praise;
      && (|mastered| > 0 ==> StartsWith(p, NailedSentence(|mastered|)))
      && (|mastered| == 0 ==> !Contains(p, "You nailed "))
  {
    var w := StatOf(stats, "mastered", "count");
    if |mastered| > 0 {
      NailedOpensPraise(|mastered|, w);
    } else {
      NoNailedPraise(w);
    }
  }

  /** The praise reports the weekly total exactly when the weekly mastered
      count is positive; a missing statistic counts as zero. */
  lemma WeeklyExactlyWhenPositive(gaps: seq<Option<string>>, mastered: seq<Option<string>>, stats: Stats)
    ensures var p := GenerateEncouragement(gaps, mastered, stats).praise;
      var w := StatOf(stats, "mastered", "count");
      && (w > 0 ==> Contains(p, WeeklySentence(w)))
      && (w <= 0 ==> !Contains(p, "This week"))
  {
    var w := StatOf(stats, "mastered", "count");
    if w > 0 {
      WeeklyInPraise(|mastered|, w);
    } else {
      NoWeeklyPraise(|mastered|, w);
    }
  }

  /** A week without a mastered statistic adds no weekly sentence. */
  lemma MissingWeeklyStat(gaps: seq<Option<string>>, mastered: seq<Option<string>>, stats: Stats)
    requires "mastered" !in stats || "count" !in stats["mastered"]
    ensures !Contains(GenerateEncouragement(gaps, mastered, stats).praise, "This week")
  {
    WeeklyExactlyWhenPositive(gaps, mastered, stats);
  }

  /** The weekly gap count does not affect the reply: any two statistics that
      agree on the weekly mastered count give the same encouragement. */
  lemma GapCountIgnored(gaps: seq<Option<string>>, mastered: seq<Option<string>>, stats: Stats, other: Stats)
    requires StatOf(stats, "mastered", "count") == StatOf(other, "mastered", "count")
    ensures GenerateEncouragement(gaps, mastered, stats) == GenerateEncouragement(gaps, mastered, other)
  {
  }

  // ---------------------------------------------------------------------------
  // What the challenge says
  // ---------------------------------------------------------------------------

  /** Each of the first two gaps is named in the challenge, by its concept or
      as `that concept`. */
  lemma ChallengeNamesFirstGaps(gaps: seq<Option<string>>, mastered: seq<Option<string>>, stats: Stats, i: nat)
    requires i < |gaps| && i < 2
    ensures Contains(GenerateEncouragement(gaps, mastered, stats).challenge, GapName(gaps[i]))
  {
    var names := FirstNames(gaps);
    var a := "Tomorrow, revisit ";
    var b := " — your brain is primed to make connections now.";
    assert StartsWith(names[i], names[i]);
    ContainsInJoin(names, ", ", i, names[i]);
    ContainsAfter(a, Join(names, ", "), names[i]);
    ContainsBefore(a + Join(names, ", "), b, names[i]);
  }

  /** Gaps after the second are never mentioned: adding more leaves the
      challenge as it was. */
  lemma LaterGapsIgnored(gaps: seq<Option<string>>, more: seq<Option<string>>, mastered: seq<Option<string>>, stats: Stats)
    requires |gaps| >= 2
    ensures GenerateEncouragement(gaps + more, mastered, stats).challenge
         == GenerateEncouragement(gaps, mastered, stats).challenge
  {
    assert FirstNames(gaps + more) == FirstNames(gaps);
  }
}
