/**
 * Quiz: multiple-choice questions on time units. An answer is scored at once;
 * the feedback line arrives later and brings the "Next Question" button.
 */
module Quiz {
  import opened Util
  import opened Constants

  /** The encouraging lines `getAIFeedback` draws from, one list per verdict. */
  const Praises: seq<string> := [
    "Excellent! ممتاز!",
    "Great job! عمل رائع!",
    "You're a star! أنت نجم!",
    "Perfect! مثالي!",
    "Correct! إجابة صحيحة!"
  ]

  const Tips: seq<string> := [
    "Not quite. Try again! حاول مرة أخرى!",
    "Almost there! اقتربت من الإجابة!",
    "Think about it again. فكر مرة أخرى.",
    "Don't give up! لا تستسلم!"
  ]

  /** The feedback line for a verdict; `pick` stands for the random draw. */
  function FeedbackText(isCorrect: bool, pick: nat): (text: string)
    ensures isCorrect ==> text in Praises
    ensures !isCorrect ==> text in Tips
    ensures text != ""
  {
    if isCorrect then Praises[pick % |Praises|] else Tips[pick % |Tips|]
  }

  /**
   * The quiz state. `request` is the feedback request in flight, holding the
   * verdict it was made with; the spinner (`isLoading`) shows exactly while it is
   * there.
   */
  datatype QuizState = QuizState(
    idx: nat,
    selected: Option<string>,
    feedback: Option<string>,
    request: Option<bool>,
    score: nat,
    showFinal: bool)

  predicate Loading(q: QuizState)
  {
    q.request.Some?
  }

  const Start := QuizState(0, None, None, None, 0, false)

  /**
   * What holds along every run: one answer per question at most, feedback only
   * after an answer and never while loading, the final screen only after the last
   * question's feedback, and at most one point per question reached.
   */
  ghost predicate Valid(q: QuizState)
  {
    && q.idx < |QuizQuestions|
    && (Loading(q) ==> Truthy(q.selected) && q.feedback == None)
    && (q.feedback.Some? ==> q.feedback.value != "" && Truthy(q.selected))
    && (!Truthy(q.selected) ==> q.feedback == None && !Loading(q))
    && (q.showFinal ==> q.idx == |QuizQuestions| - 1 && Truthy(q.feedback))
    && q.score <= q.idx + (if Truthy(q.selected) then 1 else 0)
  }

  /** A click on `option` of the current question. */
  function HandleAnswer(q: QuizState, option: string): (r: QuizState)
    requires q.idx < |QuizQuestions|
    ensures Truthy(q.selected) || Loading(q) ==> r == q
    ensures !Truthy(q.selected) && !Loading(q) ==>
      && r.selected == Some(option)
      && r.request == Some(option == QuizQuestions[q.idx].correctAnswer)
      && r.score == (if option == QuizQuestions[q.idx].correctAnswer then q.score + 1 else q.score)
      && r.idx == q.idx && r.feedback == q.feedback && r.showFinal == q.showFinal
  {
    if Truthy(q.selected) || Loading(q) then q
    else
      var isCorrect := option == QuizQuestions[q.idx].correctAnswer;
      q.(selected := Some(option), request := Some(isCorrect), score := if isCorrect then q.score + 1 else q.score)
  }

  /** The feedback for the request in flight lands, drawn with `pick`. */
  function FeedbackArrives(q: QuizState, pick: nat): (r: QuizState)
    requires Loading(q)
    ensures !Loading(r) && Truthy(r.feedback)
    ensures q.request == Some(true) ==> r.feedback.value in Praises
    ensures q.request == Some(false) ==> r.feedback.value in Tips
    ensures r.idx == q.idx && r.selected == q.selected && r.score == q.score && r.showFinal == q.showFinal
  {
    q.(feedback := Some(FeedbackText(q.request.value, pick)), request := None)
  }

  /** "Next Question": the next question with a clean slate, or the final screen after the last one. */
  function NextQuestion(q: QuizState): (r: QuizState)
    ensures q.idx < |QuizQuestions| - 1 ==>
      r == q.(idx := q.idx + 1, selected := None, feedback := None)
    ensures q.idx >= |QuizQuestions| - 1 ==>
      r.showFinal && r.idx == q.idx && r.selected == q.selected && r.feedback == q.feedback
    ensures r.score == q.score && r.request == q.request
  {
    if q.idx < |QuizQuestions| - 1 then q.(idx := q.idx + 1, selected := None, feedback := None)
    else q.(showFinal := true)
  }

  /** "Try Again!" on the final screen; the loading flag is not touched. */
  function TryAgain(q: QuizState): (r: QuizState)
    ensures r.idx == 0 && r.selected == None && r.feedback == None && r.score == 0 && !r.showFinal
    ensures r.request == q.request
  {
    q.(idx := 0, selected := None, feedback := None, showFinal := false, score := 0)
  }

  lemma OptionsNonEmpty(i: nat, option: string)
    requires i < |QuizQuestions| && option in QuizQuestions[i].options
    ensures option != ""
  {
    QuizQuestionsWellFormed();
    assert QuizQuestions[i] in QuizQuestions;
  }

  datatype Event = Answer(option: string) | FeedbackLands(pick: nat) | Next | TryAgainClick

  /**
   * One event. Answer buttons show the current question's options on the question
   * screen; "Next Question" shows with the feedback; "Try Again!" only on the
   * final screen; feedback lands only for a request in flight.
   */
  function Step(q: QuizState, e: Event): (r: QuizState)
    requires Valid(q)
    ensures Valid(r)
  {
    match e
    case Answer(option) =>
      if !q.showFinal && option in QuizQuestions[q.idx].options then
        OptionsNonEmpty(q.idx, option);
        HandleAnswer(q, option)
      else q
    case FeedbackLands(pick) => if Loading(q) then FeedbackArrives(q, pick) else q
    case Next => if !q.showFinal && Truthy(q.feedback) then NextQuestion(q) else q
    case TryAgainClick => if q.showFinal then TryAgain(q) else q
  }

  function Run(q: QuizState, events: seq<Event>): (r: QuizState)
    requires Valid(q)
    ensures Valid(r)
    ensures r.score <= |QuizQuestions|
    decreases |events|
  {
    if |events| == 0 then q else Run(Step(q, events[0]), events[1..])
  }

  /** Once an option is picked, every later pick of the same question is ignored, so a question scores at most once. */
  lemma SecondAnswerIgnored(q: QuizState, a: string, b: string)
    requires Valid(q) && !q.showFinal && a in QuizQuestions[q.idx].options
    ensures Step(Step(q, Answer(a)), Answer(b)) == Step(q, Answer(a))
  {
    OptionsNonEmpty(q.idx, a);
  }

  /** An answer on a fresh question scores exactly when it is the question's correct answer. */
  lemma ScoresIffCorrect(q: QuizState, option: string)
    requires Valid(q) && !q.showFinal && !Truthy(q.selected) && option in QuizQuestions[q.idx].options
    ensures Step(q, Answer(option)).score == q.score + 1 <==> option == QuizQuestions[q.idx].correctAnswer
    ensures Step(q, Answer(option)).score == q.score <==> option != QuizQuestions[q.idx].correctAnswer
  {
  }

  /** The correct answer of each question, its feedback and the move on. */
  function PerfectFrom(i: nat): (events: seq<Event>)
    requires i <= |QuizQuestions|
    ensures |events| == 3 * (|QuizQuestions| - i)
    decreases |QuizQuestions| - i
  {
    if i == |QuizQuestions| then []
    else [Answer(QuizQuestions[i].correctAnswer), FeedbackLands(0), Next] + PerfectFrom(i + 1)
  }

  lemma CorrectIsAnOption(i: nat)
    requires i < |QuizQuestions|
    ensures QuizQuestions[i].correctAnswer in QuizQuestions[i].options
  {
    QuizQuestionsWellFormed();
    assert QuizQuestions[i] in QuizQuestions;
    assert multiset(QuizQuestions[i].options)[QuizQuestions[i].correctAnswer] == 1;
  }

  /** Answering question `i` right, reading the praise and moving on. */
  lemma RightAnswerRound(q: QuizState)
    requires Valid(q) && q == QuizState(q.idx, None, None, None, q.idx, false)
    ensures
      var a := Step(q, Answer(QuizQuestions[q.idx].correctAnswer));
      var b := Step(a, FeedbackLands(0));
      var c := Step(b, Next);
      && Valid(c)
      && (q.idx < |QuizQuestions| - 1 ==> c == QuizState(q.idx + 1, None, None, None, q.idx + 1, false))
      && (q.idx == |QuizQuestions| - 1 ==> c.showFinal && c.score == |QuizQuestions|)
  {
    CorrectIsAnOption(q.idx);
    OptionsNonEmpty(q.idx, QuizQuestions[q.idx].correctAnswer);
  }

  /** Running three events and then the rest is running the rest from where the three lead. */
  lemma RunThree(q: QuizState, e0: Event, e1: Event, e2: Event, rest: seq<Event>)
    requires Valid(q)
    ensures Run(q, [e0, e1, e2] + rest) == Run(Step(Step(Step(q, e0), e1), e2), rest)
  {
    var a := Step(q, e0);
    var b := Step(a, e1);
    var tail2 := [e2] + rest;
    var tail1 := [e1] + tail2;
    assert tail2[0] == e2 && tail2[1..] == rest;
    assert Run(b, tail2) == Run(Step(b, e2), rest);
    assert tail1[0] == e1 && tail1[1..] == tail2;
    assert Run(a, tail1) == Run(b, tail2);
    assert [e0, e1, e2] + rest == [e0] + tail1;
    assert ([e0] + tail1)[1..] == tail1;
  }

  /** Answering every remaining question right reaches the final screen with a full score. */
  lemma {:induction false} PerfectQuiz(q: QuizState)
    requires Valid(q) && q == QuizState(q.idx, None, None, None, q.idx, false)
    ensures Run(q, PerfectFrom(q.idx)).showFinal
    ensures Run(q, PerfectFrom(q.idx)).score == |QuizQuestions|
    decreases |QuizQuestions| - q.idx
  {
    var right := Answer(QuizQuestions[q.idx].correctAnswer);
    RightAnswerRound(q);
    RunThree(q, right, FeedbackLands(0), Next, PerfectFrom(q.idx + 1));
    var c := Step(Step(Step(q, right), FeedbackLands(0)), Next);
    if q.idx < |QuizQuestions| - 1 {
      PerfectQuiz(c);
    }
  }
}
