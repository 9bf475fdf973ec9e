/**
 * The question card of the index-driven quiz: it shows a prompt (a default
 * when the question has none) and one button per option, drawing the options
 * from `answers` when that field is present, otherwise from `options`,
 * otherwise none; a button reports its option's value.
 */
module QuestionCard {
  import opened Wrappers

  /** An option as stored in the question bank. */
  datatype AnswerOption = AnswerOption(text: string, value: string)

  /** A question of the bank; the nullable fields are `Option`s. */
  datatype Question = Question(
    id: int,
    question: Option<string>,
    options: Option<seq<AnswerOption>>,
    answers: Option<seq<AnswerOption>>)

  /** A button: what it shows (the card's `label` field) and what it reports. */
  datatype Choice = Choice(caption: string, value: string)

  const DefaultPrompt := "Untitled question"

  /** The heading: the question's text, or the default when the text is missing (an empty text is kept). */
  function Prompt(q: Question): (p: string)
    ensures q.question.Some? ==> p == q.question.value
    ensures q.question.None? ==> p == DefaultPrompt
  {
    q.question.GetOr(DefaultPrompt)
  }

  /** Each stored option as a button that shows its text and reports its value, in order. */
  function Normalize(opts: seq<AnswerOption>): (r: seq<Choice>)
    ensures |r| == |opts|
    ensures forall i :: 0 <= i < |opts| ==> r[i].caption == opts[i].text && r[i].value == opts[i].value
  {
    if opts == [] then []
    else [Choice(opts[0].text, opts[0].value)] + Normalize(opts[1..])
  }

  /** The buttons: from `answers` when that field is present, otherwise from `options`, otherwise none. */
  function NormalizedOptions(q: Question): (r: seq<Choice>)
    ensures |r| == |SourceOptions(q)|
    ensures forall i :: 0 <= i < |r| ==> r[i] == Choice(SourceOptions(q)[i].text, SourceOptions(q)[i].value)
  {
    match q.answers
    case Some(a) => Normalize(a)
    case None =>
      match q.options
      case Some(o) => Normalize(o)
      case None => []
  }

  /** The options the card draws from: `answers` when present, else `options`, else none. */
  function SourceOptions(q: Question): seq<AnswerOption> {
    if q.answers.Some? then q.answers.value
    else if q.options.Some? then q.options.value
    else []
  }

  /** Clicking button `k` reports that option's value. */
  function Selected(q: Question, k: nat): (v: string)
    requires k < |NormalizedOptions(q)|
    ensures k < |SourceOptions(q)| && v == SourceOptions(q)[k].value
  {
    NormalizedOptions(q)[k].value
  }

  /**
   * The buttons are the source options in order, showing each text and
   * reporting each value; a present `answers`, even an empty one, hides
   * `options`.
   */
  lemma NormalizedFromSource(q: Question)
    ensures |NormalizedOptions(q)| == |SourceOptions(q)|
    ensures forall i :: 0 <= i < |SourceOptions(q)| ==>
      NormalizedOptions(q)[i] == Choice(SourceOptions(q)[i].text, SourceOptions(q)[i].value)
    ensures q.answers == Some([]) ==> NormalizedOptions(q) == []
    ensures q.answers.None? && q.options.None? ==> NormalizedOptions(q) == []
  {
  }

  /** An empty prompt is kept; only a missing one is replaced. */
  lemma EmptyPromptKept(q: Question)
    requires q.question == Some("")
    ensures Prompt(q) == ""
  {
  }
}
