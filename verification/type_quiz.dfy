/**
 * The quiz the router serves at `/quiz`: each answer is a personality type;
 * after the last question the most common type is chosen (earliest first
 * occurrence among equally common ones) and the page navigates to
 * `/result?type=<that type>`.
 */
module TypeQuiz {
  import opened Wrappers
  import opened Tally

  /** The index of the first occurrence of `x` in `s`. */
  function FirstIndex<T(==)>(s: seq<T>, x: T): (r: nat)
    requires x in s
    ensures r < |s| && s[r] == x
    ensures forall j :: 0 <= j < r ==> s[j] != x
  {
    if x in s[..|s| - 1] then FirstIndex(s[..|s| - 1], x) else |s| - 1
  }

  /**
   * The keys of the frequency object in insertion order: each distinct
   * type once, where it first occurs.
   */
  function Distinct(s: seq<string>): seq<string> {
    if s == [] then []
    else if s[|s| - 1] in s[..|s| - 1] then Distinct(s[..|s| - 1])
    else Distinct(s[..|s| - 1]) + [s[|s| - 1]]
  }

  /**
   * `t` is what `mostCommon` returns for `types`: it occurs, no type occurs
   * more often, and among types occurring as often it occurs first.
   */
  ghost predicate IsMostCommon(types: seq<string>, t: string) {
    && t in types
    && (forall u :: u in types ==> Count(types, u) <= Count(types, t))
    && (forall u :: u in types && Count(types, u) == Count(types, t) ==> FirstIndex(types, t) <= FirstIndex(types, u))
  }

  /** The navigation target for a result type. */
  function Target(resultType: string): (r: string)
    ensures |r| == |"/result?type="| + |resultType|
    ensures r[..|"/result?type="|] == "/result?type=" && r[|"/result?type="|..] == resultType
  {
    "/result?type=" + resultType
  }

  /** What an answer does: stay on the quiz, or finish with the chosen type. */
  datatype Step = Continue | Finish(resultType: string)

  // ---------------------------------------------------------------------------
  // Properties of the insertion order.

  lemma FirstIndexSnoc(s: seq<string>, x: string, y: string)
    requires y in s
    ensures FirstIndex(s + [x], y) == FirstIndex(s, y)
  {
    assert (s + [x])[..|s|] == s;
  }

  /**
   * The keys are exactly the types that occur, each once, ordered by first
   * occurrence.
   */
  lemma {:induction false} DistinctOrder(s: seq<string>)
    ensures s != [] ==> |Distinct(s)| > 0
    ensures forall x :: x in Distinct(s) <==> x in s
    ensures forall p, q :: 0 <= p < q < |Distinct(s)| ==> Distinct(s)[p] != Distinct(s)[q]
    ensures forall p, q :: 0 <= p < q < |Distinct(s)| ==>
      FirstIndex(s, Distinct(s)[p]) < FirstIndex(s, Distinct(s)[q])
  {
    if s != [] {
      var s', x := s[..|s| - 1], s[|s| - 1];
      assert s == s' + [x];
      DistinctOrder(s');
      var d := Distinct(s');
      forall y | y in s'
        ensures FirstIndex(s, y) == FirstIndex(s', y)
      {
        FirstIndexSnoc(s', x, y);
      }
      if x !in s' {
        assert Distinct(s) == d + [x];
        assert FirstIndex(s, x) == |s'|;
        forall p | 0 <= p < |d|
          ensures FirstIndex(s, d[p]) < FirstIndex(s, x)
        {
          assert d[p] in s';
        }
      }
    }
  }

  // ---------------------------------------------------------------------------
  // mostCommon.

  /**
   * The `reduce` of `mostCommon`: a frequency object, its keys in insertion
   * order and its values the number of occurrences.
   */
  method Frequencies(types: seq<string>) returns (keys: seq<string>, freq: map<string, nat>)
    ensures keys == Distinct(types)
    ensures forall k :: k in freq <==> k in types
    ensures forall k :: k in freq ==> freq[k] == Count(types, k)
  {
    keys, freq := [], map[];
    var i := 0;
    while i < |types|
      invariant 0 <= i <= |types|
      invariant keys == Distinct(types[..i])
      invariant forall k :: k in freq <==> k in types[..i]
      invariant forall k :: k in freq ==> freq[k] == Count(types[..i], k)
    {
      var t := types[i];
      assert types[..i + 1] == types[..i] + [t];
      assert types[..i + 1][..i] == types[..i];
      forall k
        ensures Count(types[..i + 1], k) == Count(types[..i], k) + (if t == k then 1 else 0)
      {
        CountSnoc(types[..i], t, k);
      }
      if t in freq {
        freq := freq[t := freq[t] + 1];
      } else {
        keys := keys + [t];
        freq := freq[t := 1];
      }
      i := i + 1;
    }
    assert types[..i] == types;
  }

  /**
   * The sort by descending count followed by `[0]`: a stable sort puts first
   * the earliest entry of maximal count, which this scan keeps.
   */
  method FirstOfSorted(keys: seq<string>, freq: map<string, nat>) returns (best: nat)
    requires |keys| > 0
    requires forall p :: 0 <= p < |keys| ==> keys[p] in freq
    ensures best < |keys|
    ensures forall p :: 0 <= p < |keys| ==> freq[keys[p]] <= freq[keys[best]]
    ensures forall p :: 0 <= p < best ==> freq[keys[p]] < freq[keys[best]]
  {
    best := 0;
    var j := 1;
    while j < |keys|
      invariant 0 <= best < j <= |keys|
      invariant forall p :: 0 <= p < j ==> freq[keys[p]] <= freq[keys[best]]
      invariant forall p :: 0 <= p < best ==> freq[keys[p]] < freq[keys[best]]
    {
      if freq[keys[j]] > freq[keys[best]] {
        best := j;
      }
      j := j + 1;
    }
  }

  /**
   * `mostCommon`. On an empty list `mostCommon` throws (the sorted entry
   * list has no first element); here that is `None`.
   */
  method MostCommon(types: seq<string>) returns (r: Option<string>)
    ensures r.None? <==> types == []
    ensures r.Some? ==> IsMostCommon(types, r.value)
  {
    var keys, freq := Frequencies(types);
    DistinctOrder(types);
    if keys == [] {
      return None;
    }
    var best := FirstOfSorted(keys, freq);
    var winner := keys[best];
    forall u | u in types
      ensures Count(types, u) <= Count(types, winner)
      ensures Count(types, u) == Count(types, winner) ==> FirstIndex(types, winner) <= FirstIndex(types, u)
    {
      assert u in keys;
      var p :| 0 <= p < |keys| && keys[p] == u;
      if p > best {
        assert FirstIndex(types, keys[best]) < FirstIndex(types, keys[p]);
      }
    }
    r := Some(winner);
  }

  // ---------------------------------------------------------------------------
  // Properties of the most common type.

  /** The result of `mostCommon` is determined uniquely by its specification. */
  lemma MostCommonUnique(types: seq<string>, a: string, b: string)
    requires IsMostCommon(types, a) && IsMostCommon(types, b)
    ensures a == b
  {
    assert FirstIndex(types, a) == FirstIndex(types, b);
  }

  /** A single answer is its own most common type. */
  lemma MostCommonSingleton(t: string)
    ensures IsMostCommon([t], t)
  {
  }

  // ---------------------------------------------------------------------------
  // The quiz page's state.

  class Session {
    /** Number of questions in the bank. */
    const questionCount: nat
    /** Index of the question on screen. */
    var current: nat
    /** Types chosen so far. */
    var answers: seq<string>

    /** One answer per question already passed, and the index stays on a question. */
    ghost predicate Valid()
      reads this
    {
      |answers| == current && (questionCount > 0 ==> current < questionCount)
    }

    constructor (questionCount: nat)
      ensures Valid()
      ensures this.questionCount == questionCount && current == 0 && answers == []
    {
      this.questionCount := questionCount;
      current := 0;
      answers := [];
    }

    /**
     * `handleAnswer`: on the last question, finish with the most common type
     * of all answers including this one and leave the state alone; otherwise
     * record the answer and move to the next question.
     */
    method Answer(t: string) returns (step: Step)
      requires Valid()
      modifies this
      ensures Valid()
      ensures old(current) + 1 == questionCount ==>
        && step.Finish?
        && IsMostCommon(old(answers) + [t], step.resultType)
        && current == old(current) && answers == old(answers)
      ensures old(current) + 1 != questionCount ==>
        && step == Continue
        && answers == old(answers) + [t] && current == old(current) + 1
    {
      var nextAnswers := answers + [t];
      if current + 1 == questionCount {
        var result := MostCommon(nextAnswers);
        step := Finish(result.value);
      } else {
        answers := nextAnswers;
        current := current + 1;
        step := Continue;
      }
    }
  }

  /**
   * A full run: answering every question of a non-empty quiz in turn
   * finishes with the most common type of all the answers.
   */
  method TakeQuiz(picks: seq<string>) returns (target: string, resultType: string)
    requires |picks| > 0
    ensures IsMostCommon(picks, resultType)
    ensures target == Target(resultType)
  {
    var session := new Session(|picks|);
    var i := 0;
    while i < |picks| - 1
      invariant 0 <= i <= |picks| - 1
      invariant session.Valid() && session.questionCount == |picks|
      invariant session.current == i && session.answers == picks[..i]
    {
      var step := session.Answer(picks[i]);
      assert picks[..i + 1] == picks[..i] + [picks[i]];
      i := i + 1;
    }
    var last := session.Answer(picks[i]);
    assert picks[..i] + [picks[i]] == picks;
    resultType := last.resultType;
    target := Target(resultType);
  }
}
