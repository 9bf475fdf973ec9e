/**
 * Scoring against an answer key: the number of positions where the given
 * answer equals the key's answer, and a feedback message chosen by the
 * percentage score at the thresholds 100, 80 and 50.
 */
module Scoring {

  /**
   * `calculateScore`: a left-to-right `reduce` adding one for every position
   * whose answer equals the key's answer there; positions past the end of
   * the key read `undefined` and never match.
   */
  function CalculateScore(answers: seq<string>, correctAnswers: seq<string>): (score: nat)
    ensures score <= |answers| && score <= |correctAnswers|
  {
    if answers == [] then 0
    else
      var i := |answers| - 1;
      CalculateScore(answers[..i], correctAnswers)
        + (if i < |correctAnswers| && answers[i] == correctAnswers[i] then 1 else 0)
  }

  /** The positions where the answers agree with the key. */
  function Matches(answers: seq<string>, correctAnswers: seq<string>): set<nat> {
    set i: nat | i < |answers| && i < |correctAnswers| && answers[i] == correctAnswers[i]
  }

  /** Appending an answer adds one exactly when it matches the key at its position. */
  lemma ScoreSnoc(answers: seq<string>, x: string, correctAnswers: seq<string>)
    ensures CalculateScore(answers + [x], correctAnswers)
      == CalculateScore(answers, correctAnswers)
        + (if |answers| < |correctAnswers| && x == correctAnswers[|answers|] then 1 else 0)
  {
    assert (answers + [x])[..|answers|] == answers;
  }

  /** The score is the number of matching positions. */
  lemma {:induction false} ScoreCountsMatches(answers: seq<string>, correctAnswers: seq<string>)
    ensures CalculateScore(answers, correctAnswers) == |Matches(answers, correctAnswers)|
  {
    if answers != [] {
      var i := |answers| - 1;
      var prefix := answers[..i];
      ScoreCountsMatches(prefix, correctAnswers);
      var before, after := Matches(prefix, correctAnswers), Matches(answers, correctAnswers);
      if i < |correctAnswers| && answers[i] == correctAnswers[i] {
        assert after == before + {i};
        assert i !in before;
      } else {
        assert after == before;
      }
    }
  }

  /** Every prefix of the key scores full marks against it. */
  lemma {:induction false} ScorePrefixOfKey(correctAnswers: seq<string>, n: nat)
    requires n <= |correctAnswers|
    ensures CalculateScore(correctAnswers[..n], correctAnswers) == n
  {
    if n > 0 {
      ScorePrefixOfKey(correctAnswers, n - 1);
      assert correctAnswers[..n] == correctAnswers[..n - 1] + [correctAnswers[n - 1]];
      ScoreSnoc(correctAnswers[..n - 1], correctAnswers[n - 1], correctAnswers);
    }
  }

  /** The key scores full marks against itself. */
  lemma ScoreSelf(correctAnswers: seq<string>)
    ensures CalculateScore(correctAnswers, correctAnswers) == |correctAnswers|
  {
    ScorePrefixOfKey(correctAnswers, |correctAnswers|);
    assert correctAnswers[..|correctAnswers|] == correctAnswers;
  }

  /** The score does not depend on which side is the key. */
  lemma ScoreSymmetric(a: seq<string>, b: seq<string>)
    ensures CalculateScore(a, b) == CalculateScore(b, a)
  {
    assert Matches(a, b) == Matches(b, a);
    ScoreCountsMatches(a, b);
    ScoreCountsMatches(b, a);
  }

  const Perfect := "Perfect score! You're a quiz master!"
  const Great := "Great job! You have a strong understanding!"
  const Good := "Good effort! Keep studying!"
  const TryAgain := "Don't worry, try again and you'll improve!"

  /**
   * `getScoreFeedback` with the percentage `score / total * 100` compared in
   * exact arithmetic: 100 percent is `score == total`, at least 80 percent
   * is `5 * score >= 4 * total`, at least 50 percent is `2 * score >= total`.
   */
  function ScoreFeedback(score: int, total: int): (msg: string)
    requires total > 0
    ensures msg == Perfect <==> score == total
    ensures msg == Great <==> score != total && 5 * score >= 4 * total
    ensures msg == Good <==> 4 * total > 5 * score && 2 * score >= total
    ensures msg == TryAgain <==> total > 2 * score
  {
    if score == total then Perfect
    else if 5 * score >= 4 * total then Great
    else if 2 * score >= total then Good
    else TryAgain
  }

  /**
   * The integer thresholds of `ScoreFeedback` are exactly the comparisons
   * of the percentage `score / total * 100` with 100, 80 and 50.
   */
  lemma PercentThresholds(score: int, total: int)
    requires total > 0
    ensures (score as real / total as real) * 100.0 == 100.0 <==> score == total
    ensures (score as real / total as real) * 100.0 >= 80.0 <==> 5 * score >= 4 * total
    ensures (score as real / total as real) * 100.0 >= 50.0 <==> 2 * score >= total
  {
    var s, t := score as real, total as real;
    var x := (s / t) * 100.0;
    assert x * t == 100.0 * s by {
      assert (s / t) * t == s;
    }
    PercentAtLeast(x, s, t, 100.0);
    PercentAtMost(x, s, t, 100.0);
    PercentAtLeast(x, s, t, 80.0);
    PercentAtLeast(x, s, t, 50.0);
  }

  /** A percentage `x` of `s` out of `t` reaches `c` exactly when `100 s` reaches `c t`. */
  lemma PercentAtLeast(x: real, s: real, t: real, c: real)
    requires t > 0.0 && x * t == 100.0 * s
    ensures x >= c <==> 100.0 * s >= c * t
  {
    ScaledAtLeast(x, c, t);
  }

  /** A percentage `x` of `s` out of `t` stays within `c` exactly when `100 s` stays within `c t`. */
  lemma PercentAtMost(x: real, s: real, t: real, c: real)
    requires t > 0.0 && x * t == 100.0 * s
    ensures c >= x <==> c * t >= 100.0 * s
  {
    ScaledAtLeast(c, x, t);
  }

  /** Multiplying both sides by a positive number keeps a comparison. */
  lemma ScaledAtLeast(x: real, c: real, t: real)
    requires t > 0.0
    ensures x >= c <==> x * t >= c * t
  {
    if x >= c {
      assert (x - c) * t >= 0.0;
    } else {
      assert (c - x) * t > 0.0;
    }
  }

  /** The tiers from lowest to highest. */
  function Rank(msg: string): nat {
    if msg == Perfect then 3 else if msg == Great then 2 else if msg == Good then 1 else 0
  }

  /** Up to full marks, a higher score never earns a lower tier. */
  lemma FeedbackMonotone(s1: int, s2: int, total: int)
    requires total > 0 && s1 <= s2 <= total
    ensures Rank(ScoreFeedback(s1, total)) <= Rank(ScoreFeedback(s2, total))
  {
  }

  /** A score above the total is not "perfect": it lands in the 80 percent tier. */
  lemma OverfullScoreIsGreat(score: int, total: int)
    requires 0 < total < score
    ensures ScoreFeedback(score, total) == Great
  {
  }
}
