/**
 * Math Wizard ("Time Alchemist"): each quest asks for a time quantity converted
 * into another unit; the typed answer is trimmed and compared with the quest's
 * answer string. A right answer moves on after a delay, a wrong one shakes the
 * potion for a moment.
 */
module MathWizard {
  import opened Util
  import opened Text

  // ----- Decimal numerals -----

  function DigitChar(d: nat): char
    requires d < 10
  {
    ('0' as int + d) as char
  }

  predicate IsDigit(c: char)
  {
    '0' <= c <= '9'
  }

  /** The decimal numeral of `n`, without leading zeros. */
  function DecimalString(n: nat): (s: string)
    ensures |s| > 0 && forall k :: 0 <= k < |s| ==> IsDigit(s[k])
    ensures |s| > 1 ==> s[0] != '0'
  {
    if n < 10 then [DigitChar(n)] else DecimalString(n / 10) + [DigitChar(n % 10)]
  }

  function DigitOf(c: char): nat
    requires IsDigit(c)
  {
    c as int - '0' as int
  }

  /** The value of a digit string. */
  function DigitsValue(s: string): nat
    requires forall k :: 0 <= k < |s| ==> IsDigit(s[k])
  {
    if |s| == 0 then 0 else DigitsValue(s[..|s| - 1]) * 10 + DigitOf(s[|s| - 1])
  }

  /** A non-empty run of digits read as a number; anything else is rejected. */
  function ParseDecimal(s: string): (r: Option<nat>)
    ensures r.Some? <==> |s| > 0 && forall k :: 0 <= k < |s| ==> IsDigit(s[k])
  {
    if |s| > 0 && forall k :: 0 <= k < |s| ==> IsDigit(s[k]) then Some(DigitsValue(s)) else None
  }

  /** Reading back the numeral of `n` gives `n`. */
  lemma {:induction false} DecimalRoundTrip(n: nat)
    ensures ParseDecimal(DecimalString(n)) == Some(n)
  {
    var s := DecimalString(n);
    assert DigitOf(DigitChar(n % 10)) == n % 10;
    if n >= 10 {
      DecimalRoundTrip(n / 10);
      assert s[..|s| - 1] == DecimalString(n / 10);
      assert DigitsValue(s) == (n / 10) * 10 + n % 10;
    } else {
      assert s[..|s| - 1] == [];
      assert DigitsValue(s) == n;
    }
  }

  // ----- Quests and units -----

  datatype Unit = Minute | Hour | Day | Week | Month | Year

  const MinutesPerHour := 60
  const HoursPerDay := 24
  const DaysPerWeek := 7
  const MonthsPerYear := 12

  /** A unit word, singular or plural. */
  function UnitNamed(name: string): (u: Option<Unit>)
  {
    if name == "Minute" || name == "Minutes" then Some(Minute)
    else if name == "Hour" || name == "Hours" then Some(Hour)
    else if name == "Day" || name == "Days" then Some(Day)
    else if name == "Week" || name == "Weeks" then Some(Week)
    else if name == "Month" || name == "Months" then Some(Month)
    else if name == "Year" || name == "Years" then Some(Year)
    else None
  }

  /** Units convert into each other only within one chain: minutes up to weeks, or months and years. */
  datatype Chain = MinuteChain | MonthChain

  /** A month is not a whole number of weeks, so months and years form a chain of their own. */
  function ChainOf(u: Unit): Chain
  {
    if u == Month || u == Year then MonthChain else MinuteChain
  }

  /** A unit measured in the smallest unit of its chain. */
  function Size(u: Unit): (r: nat)
    ensures r > 0
  {
    match u
    case Minute => 1
    case Hour => MinutesPerHour
    case Day => MinutesPerHour * HoursPerDay
    case Week => MinutesPerHour * HoursPerDay * DaysPerWeek
    case Month => 1
    case Year => MonthsPerYear
  }

  /** `qty` of unit `from` in unit `to`, when that is a whole number. */
  function Convert(qty: nat, from: Unit, to: Unit): (r: Option<nat>)
    ensures r.Some? ==> r.value * Size(to) == qty * Size(from)
    ensures r.None? <==> ChainOf(from) != ChainOf(to) || (qty * Size(from)) % Size(to) != 0
  {
    var m := qty * Size(from);
    if ChainOf(from) == ChainOf(to) && m % Size(to) == 0 then
      ExactQuotient(m, Size(to));
      Some(m / Size(to))
    else None
  }

  /** Dividing a multiple of `k` by `k` and multiplying back gives it again. */
  lemma ExactQuotient(m: nat, k: nat)
    requires k > 0 && m % k == 0
    ensures (m / k) * k == m
  {
  }

  /** A whole-number conversion converts back to the quantity it came from. */
  lemma ConvertRoundTrip(qty: nat, from: Unit, to: Unit)
    requires Convert(qty, from, to).Some?
    ensures Convert(Convert(qty, from, to).value, to, from) == Some(qty)
  {
    var n := Convert(qty, from, to).value;
    MultipleOf(qty, Size(from), n * Size(to));
  }

  /** A product with `k` is a multiple of `k`, and dividing by `k` gives the other factor back. */
  lemma MultipleOf(q: nat, k: nat, m: nat)
    requires k > 0 && m == q * k
    ensures m % k == 0 && m / k == q
  {
    var d, e := m / k, m % k;
    assert (d - q) * k == -e;
    if d > q {
      assert (d - q) * k == (d - q - 1) * k + k;
      NonNegProduct(d - q - 1, k);
    } else if d < q {
      assert (q - d) * k == (q - d - 1) * k + k;
      NonNegProduct(q - d - 1, k);
    }
  }

  lemma NonNegProduct(a: int, b: int)
    requires a >= 0 && b >= 0
    ensures a * b >= 0
  {
  }

  datatype Quest = Quest(id: int, prefix: string, prompt: string, targetUnit: string, arabicHint: string, correctAnswer: string)

  const Quests: seq<Quest> := [
    Quest(1, "Add", "24 Hours", "Day", "يوم واحد", "1"),
    Quest(2, "Mix", "7 Days", "Week", "أسبوع واحد", "1"),
    Quest(3, "Pour", "14 Days", "Weeks", "أسبوعين", "2"),
    Quest(4, "Stir", "12 Months", "Year", "سنة واحدة", "1"),
    Quest(5, "Infuse", "1 Hour", "Minutes", "دقيقة", "60"),
    Quest(6, "Brew", "48 Hours", "Days", "يومين", "2")
  ]

  /**
   * The quest's answer is the numeral of its prompt ("<number> <unit>") converted
   * into its target unit.
   */
  predicate AnswerConverts(q: Quest)
  {
    && ' ' in q.prompt
    && var sp := IndexOf(q.prompt, ' ');
    && var qty := ParseDecimal(q.prompt[..sp]);
    && var from := UnitNamed(q.prompt[sp + 1..]);
    && var to := UnitNamed(q.targetUnit);
    && qty.Some? && from.Some? && to.Some?
    && var n := Convert(qty.value, from.value, to.value);
    && n.Some? && q.correctAnswer == DecimalString(n.value)
  }

  /** Every quest's answer is its prompt converted with the unit factors. */
  lemma QuestAnswersConsistent()
    ensures forall i :: 0 <= i < |Quests| ==> AnswerConverts(Quests[i])
  {
    forall i | 0 <= i < |Quests| ensures AnswerConverts(Quests[i]) {
      QuestConverts(i);
    }
  }

  lemma QuestConverts(i: nat)
    requires i < |Quests|
    ensures AnswerConverts(Quests[i])
  {
    if i < 2 {
      FirstQuestsConvert(i);
    } else if i < 4 {
      MiddleQuestsConvert(i);
    } else {
      LastQuestsConvert(i);
    }
  }

  lemma FirstQuestsConvert(i: nat)
    requires i < 2
    ensures AnswerConverts(Quests[i])
  {
    match i
    case 0 => ConvertsVia(Quests[0], "24", "Hours", 24, Hour, Day, 1);
    case 1 => ConvertsVia(Quests[1], "7", "Days", 7, Day, Week, 1);
  }

  lemma MiddleQuestsConvert(i: nat)
    requires 2 <= i < 4
    ensures AnswerConverts(Quests[i])
  {
    match i
    case 2 => ConvertsVia(Quests[2], "14", "Days", 14, Day, Week, 2);
    case 3 => ConvertsVia(Quests[3], "12", "Months", 12, Month, Year, 1);
  }

  lemma LastQuestsConvert(i: nat)
    requires 4 <= i < |Quests|
    ensures AnswerConverts(Quests[i])
  {
    match i
    case 4 => ConvertsVia(Quests[4], "1", "Hour", 1, Hour, Minute, 60);
    case 5 => ConvertsVia(Quests[5], "48", "Hours", 48, Hour, Day, 2);
  }

  /** One quest's prompt split into its numeral and unit word, and the conversion it asks for. */
  lemma ConvertsVia(q: Quest, digits: string, name: string, qty: nat, from: Unit, to: Unit, n: nat)
    requires q.prompt == digits + " " + name && ' ' !in digits
    requires digits == DecimalString(qty)
    requires UnitNamed(name) == Some(from) && UnitNamed(q.targetUnit) == Some(to)
    requires Convert(qty, from, to) == Some(n) && q.correctAnswer == DecimalString(n)
    ensures AnswerConverts(q)
  {
    DecimalRoundTrip(qty);
    PromptSplits(q.prompt, digits, name);
  }

  /** A prompt "<digits> <name>" splits at its first space into the digits and the unit name. */
  lemma PromptSplits(p: string, digits: string, name: string)
    requires p == digits + " " + name && ' ' !in digits
    ensures ' ' in p && IndexOf(p, ' ') == |digits|
    ensures p[..|digits|] == digits && p[|digits| + 1..] == name
  {
    assert p[|digits|] == ' ';
    forall j | 0 <= j < |digits| ensures p[j] != ' ' {
      assert p[j] == digits[j];
    }
    IndexOfFirst(p, ' ', |digits|);
  }

  lemma IndexOfFirst<T>(s: seq<T>, x: T, i: nat)
    requires i < |s| && s[i] == x && forall j :: 0 <= j < i ==> s[j] != x
    ensures IndexOf(s, x) == i
  {
    var k := IndexOf(s, x);
    assert !(k < i) && !(i < k);
  }

  /** Every answer is a bare numeral, so typing it, with any padding, passes the check. */
  lemma AnswersAreTrimmed(i: nat)
    requires i < |Quests|
    ensures forall k :: 0 <= k < |Quests[i].correctAnswer| ==> IsDigit(Quests[i].correctAnswer[k])
    ensures Quests[i].correctAnswer != ""
    ensures Trim(Quests[i].correctAnswer) == Quests[i].correctAnswer
  {
    QuestAnswersConsistent();
    var a := Quests[i].correctAnswer;
    assert AnswerConverts(Quests[i]);
    assert IsDigit(a[0]) && IsDigit(a[|a| - 1]);
    TrimPadded("", a, "");
    assert "" + a + "" == a;
  }

  /** The title shown next to the progress bar. */
  function Rank(quest: nat): (r: string)
    ensures r == "Apprentice" <==> quest < 2
    ensures r == "Time Traveler" <==> 2 <= quest < 4
    ensures r == "Master Alchemist" <==> quest >= 4
  {
    if quest < 2 then "Apprentice"
    else if quest < 4 then "Time Traveler"
    else "Master Alchemist"
  }

  function RankLevel(r: string): nat
  {
    if r == "Apprentice" then 0 else if r == "Time Traveler" then 1 else 2
  }

  /** Progress never lowers the rank. */
  lemma RankMonotone(i: nat, j: nat)
    requires i <= j
    ensures RankLevel(Rank(i)) <= RankLevel(Rank(j))
  {
  }

  // ----- The game -----

  /** A scheduled delayed step; a right check's step remembers the quest it was checked on. */
  datatype Timer = CorrectDue(captured: nat) | WrongDue

  datatype Wizard = Wizard(
    quest: nat,
    input: string,
    isCorrect: Option<bool>,
    showHint: bool,
    finished: bool,
    shake: bool,
    timers: seq<Timer>)

  const Start := Wizard(0, "", None, false, false, false, [])

  /** "Cast Spell!" or Enter, as written: nothing guards against a second check while the first one's delay runs. */
  function HandleCheck(w: Wizard): (r: Wizard)
    ensures w.quest >= |Quests| ==> r == w
    ensures w.quest < |Quests| ==>
      var ok := Trim(w.input) == Quests[w.quest].correctAnswer;
      && r.isCorrect == Some(ok)
      && r.quest == w.quest && r.input == w.input && r.finished == w.finished
      && r.timers == w.timers + [if ok then CorrectDue(w.quest) else WrongDue]
      && (ok ==> !r.showHint && r.shake == w.shake)
      && (!ok ==> r.shake && r.showHint == w.showHint)
  {
    if w.quest >= |Quests| then w
    else if Trim(w.input) == Quests[w.quest].correctAnswer then
      w.(isCorrect := Some(true), showHint := false, timers := w.timers + [CorrectDue(w.quest)])
    else
      w.(isCorrect := Some(false), shake := true, timers := w.timers + [WrongDue])
  }

  /** A right-check delay is already running. */
  predicate AdvancePending(w: Wizard)
  {
    exists k :: 0 <= k < |w.timers| && w.timers[k].CorrectDue?
  }

  /** The check with the guard the delayed advance needs: ignored while an advance is pending. */
  function HandleCheckGuarded(w: Wizard): (r: Wizard)
    ensures AdvancePending(w) ==> r == w
    ensures !AdvancePending(w) ==> r == HandleCheck(w)
  {
    if AdvancePending(w) then w else HandleCheck(w)
  }

  /**
   * The `k`-th scheduled delay fires. A right check's step either advances from
   * the current quest (a functional update, whatever quest it was checked on) with
   * the input cleared, or, when checked on the last quest, finishes.
   */
  function FireTimer(w: Wizard, k: nat): (r: Wizard)
    requires k < |w.timers|
    ensures r.timers == RemoveAt(w.timers, k)
    ensures w.timers[k].CorrectDue? && w.timers[k].captured < |Quests| - 1 ==>
      r.quest == w.quest + 1 && r.input == "" && r.isCorrect == None && r.finished == w.finished
    ensures w.timers[k].CorrectDue? && w.timers[k].captured >= |Quests| - 1 ==>
      r.finished && r.quest == w.quest && r.input == w.input
    ensures w.timers[k].WrongDue? ==>
      !r.shake && r.isCorrect == None && r.quest == w.quest && r.input == w.input && r.finished == w.finished
  {
    var rest := RemoveAt(w.timers, k);
    match w.timers[k]
    case CorrectDue(c) =>
      if c < |Quests| - 1 then w.(quest := w.quest + 1, input := "", isCorrect := None, timers := rest)
      else w.(finished := true, timers := rest)
    case WrongDue => w.(shake := false, isCorrect := None, timers := rest)
  }

  /** "Brew Again" on the finish screen. */
  function BrewAgain(w: Wizard): (r: Wizard)
    ensures r.quest == 0 && !r.finished && r.input == ""
    ensures r.isCorrect == w.isCorrect && r.showHint == w.showHint && r.timers == w.timers
  {
    w.(quest := 0, finished := false, input := "")
  }

  /**
   * What every run keeps. As written, each scheduled advance was checked on an
   * existing quest. With the guard, in addition: the quest exists, at most one
   * advance is scheduled, and it belongs to the current quest, which is unfinished.
   */
  ghost predicate Valid(w: Wizard, guarded: bool)
  {
    && (forall t :: t in w.timers && t.CorrectDue? ==> t.captured < |Quests|)
    && (guarded ==>
      && w.quest < |Quests|
      && multiset(w.timers)[CorrectDue(w.quest)] <= 1
      && (forall t :: t in w.timers && t.CorrectDue? ==> t.captured == w.quest && !w.finished))
  }

  datatype Event = Type(text: string) | Check | Hint | BrewAgainClick | TimerFires(k: nat)

  /**
   * One event. The finish screen shows only "Brew Again"; past the last quest
   * without the finish flag nothing is rendered; otherwise the input, "Magic Hint"
   * and "Cast Spell!" are live. Scheduled delays fire whatever the screen.
   * `guarded` selects the guarded check.
   */
  function Step(w: Wizard, e: Event, guarded: bool): (r: Wizard)
    requires Valid(w, guarded)
    ensures Valid(r, guarded)
  {
    var playing := !w.finished && w.quest < |Quests|;
    match e
    case Type(text) => if playing then w.(input := text) else w
    case Check =>
      if !playing then w
      else if guarded then
        GuardedCheckKeeps(w);
        HandleCheckGuarded(w)
      else HandleCheck(w)
    case Hint => if playing then w.(showHint := true) else w
    case BrewAgainClick => if w.finished then BrewAgainKeeps(w, guarded); BrewAgain(w) else w
    case TimerFires(k) =>
      if k < |w.timers| then
        FireKeeps(w, k, guarded);
        FireTimer(w, k)
      else w
  }

  lemma GuardedCheckKeeps(w: Wizard)
    requires Valid(w, true) && !w.finished
    ensures Valid(HandleCheckGuarded(w), true)
  {
    var r := HandleCheckGuarded(w);
    if !AdvancePending(w) {
      assert forall t :: t in w.timers ==> t.WrongDue? by {
        forall t | t in w.timers ensures t.WrongDue? {
          var k :| 0 <= k < |w.timers| && w.timers[k] == t;
        }
      }
      assert multiset(w.timers)[CorrectDue(w.quest)] == 0;
    }
  }

  lemma BrewAgainKeeps(w: Wizard, guarded: bool)
    requires Valid(w, guarded) && w.finished
    ensures Valid(BrewAgain(w), guarded)
  {
  }

  lemma FireKeeps(w: Wizard, k: nat, guarded: bool)
    requires Valid(w, guarded) && k < |w.timers|
    ensures Valid(FireTimer(w, k), guarded)
  {
    var r := FireTimer(w, k);
    var rest := RemoveAt(w.timers, k);
    assert forall t :: t in rest ==> t in w.timers by {
      forall t | t in rest ensures t in w.timers {
        assert t in multiset(rest);
      }
    }
    if guarded && w.timers[k].CorrectDue? {
      assert multiset(rest)[CorrectDue(w.quest)] == 0;
      assert forall t :: t in rest ==> t.WrongDue? by {
        forall t | t in rest ensures t.WrongDue? {
          assert t in multiset(rest);
        }
      }
    }
  }

  function Run(w: Wizard, events: seq<Event>, guarded: bool): (r: Wizard)
    requires Valid(w, guarded)
    ensures Valid(r, guarded)
    decreases |events|
  {
    if |events| == 0 then w else Run(Step(w, events[0], guarded), events[1..], guarded)
  }

  /** With the guard, every run from the start keeps the quest index on an existing quest. */
  lemma GuardedQuestInRange(events: seq<Event>)
    ensures Run(Start, events, true).quest < |Quests|
  {
  }

  /** Past the last quest without the finish flag, nothing is rendered and, once no delay is left, nothing changes any more. */
  lemma BlankScreenIsFinal(w: Wizard, e: Event)
    requires w.quest >= |Quests| && !w.finished && w.timers == []
    requires Valid(w, false)
    ensures Step(w, e, false) == w
  {
  }

  /** Typing the answer and casting twice before the delay ends, then both delays. */
  function DoubleCast(answer: string): seq<Event>
  {
    [Type(answer), Check, Check, TimerFires(0), TimerFires(0)]
  }

  lemma RunFive(w: Wizard, es: seq<Event>, guarded: bool)
    requires Valid(w, guarded) && |es| == 5
    ensures Run(w, es, guarded) ==
      var a := Step(w, es[0], guarded);
      var b := Step(a, es[1], guarded);
      var c := Step(b, es[2], guarded);
      var d := Step(c, es[3], guarded);
      Step(d, es[4], guarded)
  {
    var a := Step(w, es[0], guarded);
    var b := Step(a, es[1], guarded);
    var c := Step(b, es[2], guarded);
    var d := Step(c, es[3], guarded);
    assert es[1..][1..] == es[2..] && es[2..][1..] == es[3..] && es[3..][1..] == es[4..] && es[4..][1..] == [];
    assert es[2..][0] == es[2] && es[3..][0] == es[3] && es[4..][0] == es[4];
    assert Run(d, es[4..], guarded) == Step(d, es[4], guarded);
    assert Run(c, es[3..], guarded) == Run(d, es[4..], guarded);
    assert Run(b, es[2..], guarded) == Run(c, es[3..], guarded);
    assert Run(a, es[1..], guarded) == Run(b, es[2..], guarded);
  }

  /** As written, a double cast on a quest before the last one skips a quest. */
  lemma DoubleCastSkips(w: Wizard)
    requires Valid(w, false) && w.quest < |Quests| - 1 && !w.finished && w.timers == []
    ensures Run(w, DoubleCast(Quests[w.quest].correctAnswer), false) ==
      w.(quest := w.quest + 2, input := "", isCorrect := None, showHint := false)
  {
    var es := DoubleCast(Quests[w.quest].correctAnswer);
    RunFive(w, es, false);
    CheckTwiceAsWritten(w);
    var c := Step(Step(Step(w, es[0], false), es[1], false), es[2], false);
    FireAdvance(c, false);
    FireAdvance(Step(c, es[3], false), false);
  }

  /** As written, typing the right answer and casting twice schedules two advances from the same quest. */
  lemma CheckTwiceAsWritten(w: Wizard)
    requires Valid(w, false) && w.quest < |Quests| && !w.finished && w.timers == []
    ensures
      var ans := Quests[w.quest].correctAnswer;
      Step(Step(Step(w, Type(ans), false), Check, false), Check, false) ==
        w.(input := ans, isCorrect := Some(true), showHint := false, timers := [CorrectDue(w.quest), CorrectDue(w.quest)])
  {
    var ans := Quests[w.quest].correctAnswer;
    AnswersAreTrimmed(w.quest);
    var a := Step(w, Type(ans), false);
    assert a == w.(input := ans);
    CastRight(a, false);
  }

  /** With the guard, the same double cast moves on by exactly one quest. */
  lemma DoubleCastGuarded(w: Wizard)
    requires Valid(w, true) && w.quest < |Quests| - 1 && !w.finished && w.timers == []
    ensures Run(w, DoubleCast(Quests[w.quest].correctAnswer), true) ==
      w.(quest := w.quest + 1, input := "", isCorrect := None, showHint := false)
  {
    var es := DoubleCast(Quests[w.quest].correctAnswer);
    RunFive(w, es, true);
    CheckTwiceGuarded(w);
    var c := Step(Step(Step(w, es[0], true), es[1], true), es[2], true);
    FireAdvance(c, true);
    var d := Step(c, es[3], true);
    assert d == w.(quest := w.quest + 1, input := "", isCorrect := None, showHint := false);
    assert es[4] == TimerFires(0);
    NoTimerToFire(d, 0, true);
  }

  /** A delay that is not scheduled does not fire. */
  lemma NoTimerToFire(w: Wizard, k: nat, guarded: bool)
    requires Valid(w, guarded) && k >= |w.timers|
    ensures Step(w, TimerFires(k), guarded) == w
  {
  }

  /** With the guard, the second cast is ignored while the first one's delay runs. */
  lemma CheckTwiceGuarded(w: Wizard)
    requires Valid(w, true) && w.quest < |Quests| && !w.finished && w.timers == []
    ensures
      var ans := Quests[w.quest].correctAnswer;
      Step(Step(Step(w, Type(ans), true), Check, true), Check, true) ==
        w.(input := ans, isCorrect := Some(true), showHint := false, timers := [CorrectDue(w.quest)])
  {
    var ans := Quests[w.quest].correctAnswer;
    AnswersAreTrimmed(w.quest);
    var a := Step(w, Type(ans), true);
    assert a == w.(input := ans);
    CastRight(a, true);
    var b := Step(a, Check, true);
    assert AdvancePending(b) by { assert b.timers[0].CorrectDue?; }
  }

  /** A check of the right answer with no delay running. */
  lemma CastRight(w: Wizard, guarded: bool)
    requires Valid(w, guarded) && !w.finished && w.quest < |Quests| && w.timers == []
    requires Trim(w.input) == Quests[w.quest].correctAnswer
    ensures Step(w, Check, guarded) == w.(isCorrect := Some(true), showHint := false, timers := [CorrectDue(w.quest)])
  {
    assert !AdvancePending(w);
  }

  /** The first scheduled delay is a right check's advance before the last quest. */
  lemma FireAdvance(w: Wizard, guarded: bool)
    requires Valid(w, guarded) && |w.timers| > 0 && w.timers[0].CorrectDue? && w.timers[0].captured < |Quests| - 1
    ensures Step(w, TimerFires(0), guarded) == w.(quest := w.quest + 1, input := "", isCorrect := None, timers := w.timers[1..])
  {
    assert RemoveAt(w.timers, 0) == w.timers[1..];
  }

  /**
   * As written, a double cast on the fifth quest, reached fresh (for instance by
   * double casts on the first and third), leaves the index at `QUESTS.length`
   * without the finish flag: the component renders nothing until its tab is left.
   */
  lemma DoubleCastBlanksTheScreen(w: Wizard)
    requires w == Start.(quest := |Quests| - 2)
    ensures
      var r := Run(w, DoubleCast(Quests[|Quests| - 2].correctAnswer), false);
      r.quest == |Quests| && !r.finished && r.timers == []
  {
    DoubleCastSkips(w);
  }

  /** Running `a` and then `b` is running `a + b`. */
  lemma {:induction false} RunAppend(w: Wizard, a: seq<Event>, b: seq<Event>, guarded: bool)
    requires Valid(w, guarded)
    ensures Run(w, a + b, guarded) == Run(Run(w, a, guarded), b, guarded)
    decreases |a|
  {
    if |a| > 0 {
      assert (a + b)[0] == a[0] && (a + b)[1..] == a[1..] + b;
      RunAppend(Step(w, a[0], guarded), a[1..], b, guarded);
    } else {
      assert a + b == b;
    }
  }

  /**
   * The blank screen is reached from the start: double casts on the first,
   * third and fifth quest move the index to `QUESTS.length` without finishing.
   */
  lemma DoubleCastsFromStart()
    ensures
      var es := DoubleCast(Quests[0].correctAnswer) + DoubleCast(Quests[2].correctAnswer) + DoubleCast(Quests[4].correctAnswer);
      var r := Run(Start, es, false);
      r.quest == |Quests| && !r.finished && r.timers == []
  {
    var a := DoubleCast(Quests[0].correctAnswer);
    var b := DoubleCast(Quests[2].correctAnswer);
    var c := DoubleCast(Quests[4].correctAnswer);
    RunAppend(Start, a + b, c, false);
    RunAppend(Start, a, b, false);
    DoubleCastSkips(Start);
    var w1 := Run(Start, a, false);
    DoubleCastSkips(w1);
    var w2 := Run(w1, b, false);
    DoubleCastBlanksTheScreen(w2);
  }
}
