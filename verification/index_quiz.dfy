/**
 * The index-driven quiz page: it keeps the index of the question on screen
 * and the answers given so far; every answer is recorded, and the page
 * finishes (handing the answers to the results page) once the index has
 * reached the last question, otherwise it moves to the next one.
 */
module IndexQuiz {
  import opened Wrappers
  import opened QuestionCard
  import ProgressBar

  /** What an answer does: stay on the quiz, or finish with the answers given. */
  datatype Step = Continue | Finish(userAnswers: seq<string>)

  /** What the page shows: a placeholder when no question is at the index. */
  datatype Screen =
    | Loading
    | Showing(percent: int, questionNumber: int, prompt: string, choices: seq<Choice>)

  class Session {
    /** The question bank. */
    const questions: seq<Question>
    /** Index of the question on screen. */
    var index: nat
    /** Answers given so far, in order. */
    var userAnswers: seq<string>

    /** The index stays on the last question at most, and an answer was given for each question passed. */
    ghost predicate Valid()
      reads this
    {
      && (|questions| > 0 ==> index <= |questions| - 1)
      && (|questions| == 0 ==> index == 0)
      && |userAnswers| >= index
    }

    constructor (questions: seq<Question>)
      ensures Valid()
      ensures this.questions == questions && index == 0 && userAnswers == []
    {
      this.questions := questions;
      index := 0;
      userAnswers := [];
    }

    /** The index has reached the last question (always true for an empty bank, whose last index is -1). */
    predicate IsLast()
      reads this
      ensures IsLast() <==> Current().None? || index == |questions| - 1
    {
      index >= |questions| - 1
    }

    /**
     * `handleAnswerSelection`: record the answer; on the last question finish
     * with all answers and keep the index, otherwise advance it by one.
     */
    method Select(answer: string) returns (step: Step)
      requires Valid()
      modifies this
      ensures Valid()
      ensures userAnswers == old(userAnswers) + [answer]
      ensures old(IsLast()) ==> step == Finish(userAnswers) && index == old(index)
      ensures !old(IsLast()) ==> step == Continue && index == old(index) + 1
    {
      var nextAnswers := userAnswers + [answer];
      userAnswers := nextAnswers;
      if index >= |questions| - 1 {
        step := Finish(nextAnswers);
      } else {
        index := index + 1;
        step := Continue;
      }
    }

    /** The question at the index, or `None` past the end of the bank. */
    function Current(): (q: Option<Question>)
      reads this
      ensures q.Some? <==> index < |questions|
      ensures q.Some? ==> q.value == questions[index]
    {
      if index < |questions| then Some(questions[index]) else None
    }

    /** The page: "Loading..." without a current question, otherwise the bar and the card. */
    function View(): (s: Screen)
      reads this
      ensures s.Loading? <==> index >= |questions|
      ensures s.Showing? ==>
        && s.prompt == Prompt(questions[index])
        && s.choices == NormalizedOptions(questions[index])
        && s.percent == ProgressBar.Percent(index, |questions|)
        && 0 <= s.percent <= 100
        && s.questionNumber == index + 1
    {
      match Current()
      case None => Loading
      case Some(q) =>
        ProgressBar.PercentInRange(index, |questions|);
        Showing(ProgressBar.Percent(index, |questions|), ProgressBar.Label(index, |questions|),
                Prompt(q), NormalizedOptions(q))
    }
  }

  /**
   * A full run over a non-empty bank: answering every question in turn
   * finishes with all the answers, in the order given.
   */
  method TakeQuiz(questions: seq<Question>, picks: seq<string>) returns (payload: seq<string>)
    requires |questions| > 0 && |picks| == |questions|
    ensures payload == picks
  {
    var session := new Session(questions);
    var i := 0;
    while i < |picks| - 1
      invariant 0 <= i <= |picks| - 1
      invariant session.Valid() && session.questions == questions
      invariant session.index == i && session.userAnswers == picks[..i]
    {
      var step := session.Select(picks[i]);
      assert picks[..i + 1] == picks[..i] + [picks[i]];
      i := i + 1;
    }
    var last := session.Select(picks[i]);
    assert picks[..i] + [picks[i]] == picks;
    payload := last.userAnswers;
  }
}
