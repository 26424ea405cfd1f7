/**
 * Time Pilot: one scenario at a time, the learner picks the time unit that
 * completes the sentence. A right pick scores and, after a delay, moves on; a
 * wrong pick is cleared after a delay for another try.
 */
module TimePilot {
  import opened Util
  import opened Constants

  datatype Status = Idle | Wrong | Correct

  /** The delayed step scheduled by the last pick. */
  datatype Timer = NoTimer | AdvanceDue | RetryDue

  datatype Flight = Flight(index: nat, selected: Option<string>, status: Status, score: nat, pending: Timer)

  const Start := Flight(0, None, Idle, 0, NoTimer)

  /** The "MISSION COMPLETE" screen replaces the game once `index` reaches the end. */
  predicate Finished(f: Flight)
  {
    f.index >= |Scenarios|
  }

  /** A click on option `choice`. */
  function HandleChoice(f: Flight, choice: string): (r: Flight)
    requires f.index < |Scenarios|
    ensures Truthy(f.selected) ==> r == f
    ensures !Truthy(f.selected) ==>
      && r.selected == Some(choice)
      && r.index == f.index
      && (choice == Scenarios[f.index].correct ==> r.score == f.score + 1 && r.status == Correct && r.pending == AdvanceDue)
      && (choice != Scenarios[f.index].correct ==> r.score == f.score && r.status == Wrong && r.pending == RetryDue)
  {
    if Truthy(f.selected) then f
    else if choice == Scenarios[f.index].correct then
      Flight(f.index, Some(choice), Correct, f.score + 1, AdvanceDue)
    else
      Flight(f.index, Some(choice), Wrong, f.score, RetryDue)
  }

  /** The delayed step after a right pick, as written: it advances only while a later scenario exists. */
  function AdvanceFires(f: Flight): (r: Flight)
    ensures f.index < |Scenarios| - 1 ==> r.index == f.index + 1 && r.selected == None && r.status == Idle
    ensures f.index >= |Scenarios| - 1 ==> r == f.(pending := NoTimer)
    ensures r.score == f.score && r.pending == NoTimer
  {
    if f.index < |Scenarios| - 1 then Flight(f.index + 1, None, Idle, f.score, NoTimer)
    else f.(pending := NoTimer)
  }

  /**
   * The same delayed step with the finish the empty else-branch leaves out: after
   * the last scenario it moves past the end, which opens the finish screen.
   */
  function AdvanceFiresToFinish(f: Flight): (r: Flight)
    requires f.index < |Scenarios|
    ensures r.index == f.index + 1 && r.selected == None && r.status == Idle && r.score == f.score
    ensures Finished(r) <==> f.index == |Scenarios| - 1
  {
    Flight(f.index + 1, None, Idle, f.score, NoTimer)
  }

  /** The delayed step after a wrong pick: same scenario, selection cleared. */
  function RetryFires(f: Flight): (r: Flight)
    ensures r.index == f.index && r.score == f.score
    ensures r.selected == None && r.status == Idle && r.pending == NoTimer
  {
    f.(selected := None, status := Idle, pending := NoTimer)
  }

  /** "New Mission" on the finish screen. */
  function NewMission(f: Flight): (r: Flight)
    ensures r.index == 0 && r.score == 0 && r.selected == None && r.status == Idle
  {
    f.(index := 0, score := 0, selected := None, status := Idle)
  }

  /**
   * What holds along every run: the score counts the scenarios already passed
   * plus the current one when answered right, and the scheduled timer matches the
   * status. As written (`finishing` false) the index never leaves the scenarios;
   * with the finishing delayed step it may reach the finish screen, with a full score.
   */
  ghost predicate Valid(f: Flight, finishing: bool)
  {
    && (f.index < |Scenarios| || (finishing && f.index == |Scenarios|))
    && f.score == f.index + (if f.status == Correct then 1 else 0)
    && (f.status == Idle <==> !Truthy(f.selected))
    && (f.status == Idle ==> f.pending == NoTimer)
    && (f.status == Wrong <==> f.pending == RetryDue)
    && (f.status == Correct ==> f.pending == AdvanceDue || (!finishing && f.pending == NoTimer && f.index == |Scenarios| - 1))
    && (Finished(f) ==> f.status == Idle)
  }

  lemma OptionsNonEmpty(i: nat, choice: string)
    requires i < |Scenarios| && choice in Scenarios[i].options
    ensures choice != ""
  {
    ScenariosWellFormed();
    assert Scenarios[i] in Scenarios;
  }

  datatype Event = Choose(choice: string) | TimerFires | NewMissionClick

  /**
   * One event. Option buttons exist only on the game screen, for the current
   * scenario's options, and are disabled while a pick is shown; "New Mission"
   * exists only on the finish screen; a timer fires only when one is scheduled.
   * `finishing` selects the delayed step after a right pick: as written, or
   * moving on to the finish screen after the last scenario.
   */
  function Step(f: Flight, e: Event, finishing: bool): (r: Flight)
    requires Valid(f, finishing)
    ensures Valid(r, finishing)
    ensures r.score >= f.score || r == NewMission(f)
  {
    match e
    case Choose(choice) =>
      if !Finished(f) && !Truthy(f.selected) && choice in Scenarios[f.index].options then
        OptionsNonEmpty(f.index, choice);
        HandleChoice(f, choice)
      else f
    case TimerFires =>
      (match f.pending
       case NoTimer => f
       case AdvanceDue => if finishing then AdvanceFiresToFinish(f) else AdvanceFires(f)
       case RetryDue => RetryFires(f))
    case NewMissionClick =>
      if Finished(f) then NewMission(f) else f
  }

  function Run(f: Flight, events: seq<Event>, finishing: bool): (r: Flight)
    requires Valid(f, finishing)
    ensures Valid(r, finishing)
    decreases |events|
  {
    if |events| == 0 then f else Run(Step(f, events[0], finishing), events[1..], finishing)
  }

  /** As written, no run ever reaches the finish screen, so "New Mission" is never offered. */
  lemma FinishUnreachable(events: seq<Event>)
    ensures !Finished(Run(Start, events, false))
    ensures Run(Start, events, false).score <= |Scenarios|
  {
  }

  /** As written, once the last scenario is answered right and its delay has passed, no event changes anything. */
  lemma StuckAfterLastAnswer(f: Flight, e: Event)
    requires Valid(f, false) && f.index == |Scenarios| - 1 && f.status == Correct && f.pending == NoTimer
    ensures Step(f, e, false) == f
  {
  }

  /** The right answer to every scenario from `i` on, each followed by its delay. */
  function PerfectFrom(i: nat): (events: seq<Event>)
    requires i <= |Scenarios|
    ensures |events| == 2 * (|Scenarios| - i)
    decreases |Scenarios| - i
  {
    if i == |Scenarios| then [] else [Choose(Scenarios[i].correct), TimerFires] + PerfectFrom(i + 1)
  }

  lemma CorrectIsAnOption(i: nat)
    requires i < |Scenarios|
    ensures Scenarios[i].correct in Scenarios[i].options
  {
    ScenariosWellFormed();
    assert Scenarios[i] in Scenarios;
    assert multiset(Scenarios[i].options)[Scenarios[i].correct] == 1;
  }

  /** A right pick on a fresh scenario and then its delay. */
  lemma RightThenDelay(f: Flight, finishing: bool)
    requires Valid(f, finishing) && f.index < |Scenarios| && f.status == Idle
    ensures Valid(Step(Step(f, Choose(Scenarios[f.index].correct), finishing), TimerFires, finishing), finishing)
    ensures Step(Step(f, Choose(Scenarios[f.index].correct), finishing), TimerFires, finishing) ==
      if finishing || f.index < |Scenarios| - 1 then Flight(f.index + 1, None, Idle, f.score + 1, NoTimer)
      else Flight(f.index, Some(Scenarios[f.index].correct), Correct, f.score + 1, NoTimer)
  {
    CorrectIsAnOption(f.index);
  }

  /**
   * Answering every remaining scenario right: with the finishing delayed step the
   * run reaches the finish screen with a full score; as written it stops on the
   * last scenario, answered, with no timer left and the finish screen never shown.
   */
  lemma {:induction false} PerfectRun(i: nat, finishing: bool)
    requires i < |Scenarios|
    ensures Run(Flight(i, None, Idle, i, NoTimer), PerfectFrom(i), finishing) ==
      if finishing then Flight(|Scenarios|, None, Idle, |Scenarios|, NoTimer)
      else Flight(|Scenarios| - 1, Some(Scenarios[|Scenarios| - 1].correct), Correct, |Scenarios|, NoTimer)
    decreases |Scenarios| - i
  {
    var f := Flight(i, None, Idle, i, NoTimer);
    var a := Choose(Scenarios[i].correct);
    RightThenDelay(f, finishing);
    RunTwo(f, a, TimerFires, PerfectFrom(i + 1), finishing);
    if i < |Scenarios| - 1 {
      PerfectRun(i + 1, finishing);
    }
  }

  /** Running two events and then the rest is running the rest from where the two lead. */
  lemma RunTwo(f: Flight, e0: Event, e1: Event, rest: seq<Event>, finishing: bool)
    requires Valid(f, finishing)
    ensures Run(f, [e0, e1] + rest, finishing) == Run(Step(Step(f, e0, finishing), e1, finishing), rest, finishing)
  {
    var a := Step(f, e0, finishing);
    var tail := [e1] + rest;
    assert tail[0] == e1 && tail[1..] == rest;
    assert Run(a, tail, finishing) == Run(Step(a, e1, finishing), rest, finishing);
    assert [e0, e1] + rest == [e0] + tail;
    assert ([e0] + tail)[1..] == tail;
  }

  /** From the start, a perfect mission as written never shows the finish screen. */
  lemma PerfectMissionAsWritten()
    ensures !Finished(Run(Start, PerfectFrom(0), false))
    ensures Run(Start, PerfectFrom(0), false).score == |Scenarios|
  {
    PerfectRun(0, false);
  }

  /** From the start, a perfect mission with the finishing delayed step ends on the finish screen. */
  lemma PerfectMissionFinishing()
    ensures Finished(Run(Start, PerfectFrom(0), true))
    ensures Run(Start, PerfectFrom(0), true).score == |Scenarios|
  {
    PerfectRun(0, true);
  }
}
