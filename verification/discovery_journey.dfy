/**
 * Discovery Journey: one word at a time, a flashcard to hear and flip, then a
 * three-way quiz on its Arabic term. A right pick moves on after a delay, a wrong
 * pick's message is cleared after a delay.
 */
module DiscoveryJourney {
  import opened Util
  import opened Shuffling
  import opened Constants

  // ----- The quiz options -----

  /** `ws.filter(w => w.arabic !== a)`. */
  function OtherWords(ws: seq<TimeWord>, a: string): (r: seq<TimeWord>)
    ensures |r| <= |ws|
    ensures forall k :: 0 <= k < |r| ==> r[k] in ws && r[k].arabic != a
    ensures forall w :: w in ws && w.arabic != a ==> w in r
  {
    if |ws| == 0 then []
    else
      var rest := OtherWords(ws[1..], a);
      assert forall w :: w in ws[1..] ==> w in ws;
      if ws[0].arabic != a then [ws[0]] + rest else rest
  }

  /** `.map(w => w.arabic)`. */
  function Arabics(ws: seq<TimeWord>): (r: seq<string>)
    ensures |r| == |ws| && forall k :: 0 <= k < |ws| ==> r[k] == ws[k].arabic
  {
    seq(|ws|, k requires 0 <= k < |ws| => ws[k].arabic)
  }

  function Min(a: nat, b: nat): nat
  {
    if a <= b then a else b
  }

  /** Up to two Arabic terms of other words, in shuffled order. */
  function Distractors(ws: seq<TimeWord>, i: nat, seed: seq<nat>): (d: seq<string>)
    requires i < |ws|
    ensures |d| == Min(2, |OtherWords(ws, ws[i].arabic)|)
  {
    var others := Shuffle(OtherWords(ws, ws[i].arabic), seed);
    Arabics(others[..Min(2, |others|)])
  }

  /** The quiz options built when word `i` comes up: its Arabic term with the distractors, shuffled. */
  function Choices(ws: seq<TimeWord>, i: nat, seed1: seq<nat>, seed2: seq<nat>): (c: seq<string>)
    requires i < |ws|
    ensures |c| == 1 + |Distractors(ws, i, seed1)|
    ensures multiset(c) == multiset([ws[i].arabic] + Distractors(ws, i, seed1))
  {
    Shuffle([ws[i].arabic] + Distractors(ws, i, seed1), seed2)
  }

  /** Shuffling the words and then taking their Arabic terms is shuffling the terms. */
  lemma {:induction false} ShuffleArabics(ws: seq<TimeWord>, seed: seq<nat>)
    ensures Arabics(Shuffle(ws, seed)) == Shuffle(Arabics(ws), seed)
    decreases |ws|
  {
    if |ws| > 0 {
      var k := if |seed| == 0 then 0 else seed[0] % |ws|;
      var rest := if |seed| == 0 then [] else seed[1..];
      var r := RemoveAt(ws, k);
      assert Shuffle(ws, seed) == [ws[k]] + Shuffle(r, rest);
      assert Shuffle(Arabics(ws), seed) == [ws[k].arabic] + Shuffle(RemoveAt(Arabics(ws), k), rest);
      ArabicsRemoveAt(ws, k);
      ShuffleArabics(r, rest);
      ArabicsCons(ws[k], Shuffle(r, rest));
    }
  }

  lemma ArabicsCons(w: TimeWord, ws: seq<TimeWord>)
    ensures Arabics([w] + ws) == [w.arabic] + Arabics(ws)
  {
  }

  lemma ArabicsRemoveAt(ws: seq<TimeWord>, k: nat)
    requires k < |ws|
    ensures Arabics(RemoveAt(ws, k)) == RemoveAt(Arabics(ws), k)
  {
    var r := RemoveAt(ws, k);
    var a := RemoveAt(Arabics(ws), k);
    forall m | 0 <= m < |r| ensures a[m] == r[m].arabic {
      if m < k {
        assert a[m] == a[..k][m] && r[m] == r[..k][m];
      } else {
        assert a[m] == a[k..][m - k] && r[m] == r[k..][m - k];
      }
    }
  }

  /** Every word other than the one whose Arabic term is `a` survives the filter. */
  lemma {:induction false} OtherWordsDistinct(ws: seq<TimeWord>, a: string)
    requires ArabicUnique(ws)
    ensures Distinct(Arabics(OtherWords(ws, a)))
    decreases |ws|
  {
    if |ws| > 0 {
      var rest := OtherWords(ws[1..], a);
      assert ArabicUnique(ws[1..]);
      OtherWordsDistinct(ws[1..], a);
      if ws[0].arabic != a {
        var r := [ws[0]] + rest;
        forall p, q | 0 <= p < q < |r| ensures r[p].arabic != r[q].arabic {
          if p == 0 {
            assert r[q] in ws[1..];
            var m :| 0 <= m < |ws[1..]| && ws[1..][m] == r[q];
            assert ws[m + 1] == r[q];
          } else {
            assert Arabics(rest)[p - 1] != Arabics(rest)[q - 1];
          }
        }
      }
    }
  }

  /** With unique Arabic terms, the filter removes exactly one word. */
  lemma {:induction false} OtherWordsCount(ws: seq<TimeWord>, i: nat)
    requires ArabicUnique(ws) && i < |ws|
    ensures |OtherWords(ws, ws[i].arabic)| == |ws| - 1
    decreases |ws|
  {
    var a := ws[i].arabic;
    if i == 0 {
      assert forall w :: w in ws[1..] ==> w.arabic != a by {
        forall w | w in ws[1..] ensures w.arabic != a {
          var m :| 0 <= m < |ws[1..]| && ws[1..][m] == w;
          assert ws[m + 1] == w;
        }
      }
      NothingFiltered(ws[1..], a);
    } else {
      assert ws[1..][i - 1] == ws[i];
      assert ArabicUnique(ws[1..]);
      OtherWordsCount(ws[1..], i - 1);
    }
  }

  lemma {:induction false} NothingFiltered(ws: seq<TimeWord>, a: string)
    requires forall w :: w in ws ==> w.arabic != a
    ensures OtherWords(ws, a) == ws
    decreases |ws|
  {
    if |ws| > 0 {
      assert forall w :: w in ws[1..] ==> w in ws;
      NothingFiltered(ws[1..], a);
      assert ws == [ws[0]] + ws[1..];
    }
  }

  /** Each distractor is the Arabic term of a word other than word `i`, and differs from word `i`'s term. */
  lemma DistractorsFromOthers(ws: seq<TimeWord>, i: nat, seed: seq<nat>)
    requires i < |ws|
    ensures |Distractors(ws, i, seed)| <= 2
    ensures forall x :: x in Distractors(ws, i, seed) ==> x != ws[i].arabic && TermOfOther(ws, i, x)
  {
    var d := Distractors(ws, i, seed);
    forall p | 0 <= p < |d| ensures d[p] != ws[i].arabic && TermOfOther(ws, i, d[p]) {
      DistractorAt(ws, i, seed, p);
    }
  }

  lemma DistractorAt(ws: seq<TimeWord>, i: nat, seed: seq<nat>, p: nat)
    requires i < |ws| && p < |Distractors(ws, i, seed)|
    ensures Distractors(ws, i, seed)[p] != ws[i].arabic && TermOfOther(ws, i, Distractors(ws, i, seed)[p])
  {
    var a := ws[i].arabic;
    var w := Shuffle(OtherWords(ws, a), seed)[p];
    ShuffledOtherWord(ws, a, seed, p);
    assert Distractors(ws, i, seed)[p] == w.arabic;
    var j :| 0 <= j < |ws| && ws[j] == w;
  }

  /** A word of the shuffled filter is a word of the list without the term `a`. */
  lemma ShuffledOtherWord(ws: seq<TimeWord>, a: string, seed: seq<nat>, p: nat)
    requires p < |Shuffle(OtherWords(ws, a), seed)|
    ensures Shuffle(OtherWords(ws, a), seed)[p] in ws
    ensures Shuffle(OtherWords(ws, a), seed)[p].arabic != a
  {
    var filtered := OtherWords(ws, a);
    var w := Shuffle(filtered, seed)[p];
    assert w in multiset(filtered);
    assert w in filtered;
  }

  /** With unique Arabic terms and at least three words, there are two distinct distractors. */
  lemma DistractorsDistinct(ws: seq<TimeWord>, i: nat, seed: seq<nat>)
    requires i < |ws| && ArabicUnique(ws) && |ws| >= 3
    ensures |Distractors(ws, i, seed)| == 2 && Distinct(Distractors(ws, i, seed))
  {
    var others := Shuffle(OtherWords(ws, ws[i].arabic), seed);
    ShuffledOthers(ws, i, seed);
    ArabicsPrefix(others, 2);
    DistinctPrefix(Arabics(others), 2);
  }

  lemma ArabicsPrefix(ws: seq<TimeWord>, n: nat)
    requires n <= |ws|
    ensures Arabics(ws[..n]) == Arabics(ws)[..n]
  {
  }

  lemma DistinctPrefix(s: seq<string>, n: nat)
    requires n <= |s| && Distinct(s)
    ensures Distinct(s[..n])
  {
    forall p, q | 0 <= p < q < n ensures s[..n][p] != s[..n][q] {
      assert s[..n][p] == s[p] && s[..n][q] == s[q];
    }
  }

  /** The shuffled other words: all but one word, with pairwise different Arabic terms. */
  lemma ShuffledOthers(ws: seq<TimeWord>, i: nat, seed: seq<nat>)
    requires i < |ws| && ArabicUnique(ws)
    ensures |Shuffle(OtherWords(ws, ws[i].arabic), seed)| == |ws| - 1
    ensures Distinct(Arabics(Shuffle(OtherWords(ws, ws[i].arabic), seed)))
  {
    var a := ws[i].arabic;
    var filtered := OtherWords(ws, a);
    OtherWordsCount(ws, i);
    OtherWordsDistinct(ws, a);
    var terms := Arabics(filtered);
    ShuffleArabics(filtered, seed);
    DistinctPermutation(terms, Shuffle(terms, seed));
  }

  /** `o` is the Arabic term of some word other than word `i`. */
  ghost predicate TermOfOther(ws: seq<TimeWord>, i: nat, o: string)
  {
    exists j :: 0 <= j < |ws| && j != i && ws[j].arabic == o
  }

  /**
   * Whatever the two shuffles, the options hold word `i`'s Arabic term exactly
   * once, and every other option is the Arabic term of another word; with unique
   * Arabic terms and at least three words there are exactly three distinct options.
   */
  lemma ChoicesContents(ws: seq<TimeWord>, i: nat, seed1: seq<nat>, seed2: seq<nat>)
    requires i < |ws|
    ensures multiset(Choices(ws, i, seed1, seed2))[ws[i].arabic] == 1
    ensures forall o :: o in Choices(ws, i, seed1, seed2) && o != ws[i].arabic ==> TermOfOther(ws, i, o)
    ensures |Choices(ws, i, seed1, seed2)| <= 3
    ensures ArabicUnique(ws) && |ws| >= 3 ==>
      |Choices(ws, i, seed1, seed2)| == 3 && Distinct(Choices(ws, i, seed1, seed2))
  {
    var a := ws[i].arabic;
    var d := Distractors(ws, i, seed1);
    DistractorsFromOthers(ws, i, seed1);
    assert a !in d;
    PoolPermuted(a, d, Choices(ws, i, seed1, seed2));
    if ArabicUnique(ws) && |ws| >= 3 {
      DistractorsDistinct(ws, i, seed1);
    }
  }

  /** Any reordering of a term with distractors that do not repeat it. */
  lemma PoolPermuted(a: string, d: seq<string>, c: seq<string>)
    requires a !in d && multiset(c) == multiset([a] + d)
    ensures multiset(c)[a] == 1
    ensures forall o :: o in c ==> o == a || o in d
    ensures |c| == 1 + |d|
    ensures Distinct(d) ==> Distinct(c)
  {
    var pool := [a] + d;
    assert multiset(pool) == multiset{a} + multiset(d);
    assert a !in multiset(d);
    assert |c| == |pool| by { assert |multiset(c)| == |multiset(pool)|; }
    forall o | o in c ensures o == a || o in d {
      assert o in multiset(pool);
      assert o in pool;
    }
    if Distinct(d) {
      assert Distinct(pool) by {
        forall p, q | 0 <= p < q < |pool| ensures pool[p] != pool[q] {
          if p == 0 {
            assert pool[q] in d;
          } else {
            assert pool[p] == d[p - 1] && pool[q] == d[q - 1];
          }
        }
      }
      DistinctPermutation(pool, c);
    }
  }

  // ----- The journey -----

  datatype Stage = Intro | Test

  datatype Feedback = Feedback(success: bool, msg: string)

  const RightMsg := "Correct! ممتاز!"
  const MasteredMsg := "You mastered all words! لقد أتقنت كل الكلمات!"
  const WrongMsg := "Try again! حاول مرة أخرى"

  /** A scheduled delayed step; a right pick's step remembers the word it was made on. */
  datatype Timer = AdvanceDue(captured: nat) | ClearDue

  /** `speeches` counts pronunciations whose end has not been reported yet. */
  datatype Journey = Journey(
    index: nat,
    step: Stage,
    flipped: bool,
    listened: bool,
    options: seq<string>,
    feedback: Option<Feedback>,
    timers: seq<Timer>,
    speeches: nat)

  /** The options of word `index`: its term once, two terms of other words, no repeats. */
  ghost predicate OptionsFor(index: nat, options: seq<string>)
    requires index < |TimeWords|
  {
    && |options| == 3
    && Distinct(options)
    && multiset(options)[TimeWords[index].arabic] == 1
    && (forall o :: o in options && o != TimeWords[index].arabic ==> TermOfOther(TimeWords, index, o))
  }

  /** Every right pick's delayed step was made on a word of the table. */
  predicate TimersBounded(ts: seq<Timer>)
  {
    forall t :: t in ts && t.AdvanceDue? ==> t.captured < |TimeWords|
  }

  ghost predicate Valid(j: Journey)
  {
    && j.index < |TimeWords|
    && OptionsFor(j.index, j.options)
    && TimersBounded(j.timers)
  }

  /** Same word, same step on it, same card and options. */
  predicate SameWord(a: Journey, b: Journey)
  {
    && a.index == b.index && a.step == b.step && a.flipped == b.flipped && a.listened == b.listened
    && a.options == b.options && a.speeches == b.speeches
  }

  /** The effect that runs whenever the index changes: fresh options, flags and feedback reset. */
  function Enter(j: Journey, n: nat, seed1: seq<nat>, seed2: seq<nat>): (r: Journey)
    requires n < |TimeWords|
    ensures r.index == n && r.options == Choices(TimeWords, n, seed1, seed2)
    ensures r.step == Intro && !r.flipped && !r.listened && r.feedback == None
    ensures r.timers == j.timers && r.speeches == j.speeches
    ensures OptionsFor(n, r.options)
  {
    TimeWordsUnique();
    ChoicesContents(TimeWords, n, seed1, seed2);
    j.(index := n, step := Intro, flipped := false, listened := false,
       options := Choices(TimeWords, n, seed1, seed2), feedback := None)
  }

  /** `setIndex(n)`: setting the same index changes nothing and does not rerun the effect. */
  function SetIndex(j: Journey, n: nat, seed1: seq<nat>, seed2: seq<nat>): (r: Journey)
    requires n < |TimeWords|
    ensures n == j.index ==> r == j
    ensures n != j.index ==> r == Enter(j, n, seed1, seed2)
  {
    if n == j.index then j else Enter(j, n, seed1, seed2)
  }

  /** The first render and its effect. */
  function Init(seed1: seq<nat>, seed2: seq<nat>): (j: Journey)
    ensures Valid(j) && j.index == 0 && j.step == Intro && j.timers == []
  {
    Enter(Journey(0, Intro, false, false, [], None, [], 0), 0, seed1, seed2)
  }

  /**
   * A pick among the options: the verdict shows at once and a delayed step is
   * scheduled, an advance remembering the current word for a right pick, a clear
   * for a wrong one.
   */
  function HandleCheck(j: Journey, choice: string): (r: Journey)
    requires Valid(j)
    ensures Valid(r) && SameWord(r, j)
    ensures r.feedback.Some? && (r.feedback.value.success <==> choice == TimeWords[j.index].arabic)
    ensures r.feedback.value.msg == if choice == TimeWords[j.index].arabic then RightMsg else WrongMsg
    ensures r.timers == j.timers + [if choice == TimeWords[j.index].arabic then AdvanceDue(j.index) else ClearDue]
  {
    if choice == TimeWords[j.index].arabic then
      j.(feedback := Some(Feedback(true, RightMsg)), timers := j.timers + [AdvanceDue(j.index)])
    else
      j.(feedback := Some(Feedback(false, WrongMsg)), timers := j.timers + [ClearDue])
  }

  /**
   * A right pick's delayed step, made on word `c`: the word after it, or on the
   * last word the mastery message.
   */
  function AdvanceFires(j: Journey, c: nat, seed1: seq<nat>, seed2: seq<nat>): (r: Journey)
    requires Valid(j) && c < |TimeWords|
    ensures Valid(r)
    ensures r.timers == j.timers && r.speeches == j.speeches
    ensures c < |TimeWords| - 1 ==> r.index == c + 1
    ensures c < |TimeWords| - 1 && c + 1 != j.index ==>
      && r.step == Intro && !r.flipped && !r.listened && r.feedback == None
      && r.options == Choices(TimeWords, c + 1, seed1, seed2)
    ensures c < |TimeWords| - 1 && c + 1 == j.index ==> r == j
    ensures c == |TimeWords| - 1 ==> SameWord(r, j) && r.feedback == Some(Feedback(true, MasteredMsg))
  {
    if c < |TimeWords| - 1 then SetIndex(j, c + 1, seed1, seed2)
    else j.(feedback := Some(Feedback(true, MasteredMsg)))
  }

  /** Firing a delayed step takes it off the schedule and leaves the others bounded. */
  lemma DropTimer(ts: seq<Timer>, k: nat)
    requires TimersBounded(ts) && k < |ts|
    ensures TimersBounded(RemoveAt(ts, k))
    ensures ts[k].AdvanceDue? ==> ts[k].captured < |TimeWords|
  {
    assert ts[k] in ts;
    forall t | t in RemoveAt(ts, k) ensures t in ts {
      assert t in multiset(RemoveAt(ts, k));
    }
  }

  /**
   * The `k`-th scheduled delay fires and leaves the schedule. A wrong pick's step
   * clears the message, whatever it is by then; only a right pick's step changes
   * the word, to the one after the word it was made on, and on a fresh intro.
   */
  function FireTimer(j: Journey, k: nat, seed1: seq<nat>, seed2: seq<nat>): (r: Journey)
    requires Valid(j) && k < |j.timers|
    ensures Valid(r)
    ensures r.timers == RemoveAt(j.timers, k)
    ensures j.timers[k].ClearDue? ==> r.feedback == None && SameWord(r, j)
    ensures j.timers[k].AdvanceDue? ==> r == AdvanceFires(j.(timers := RemoveAt(j.timers, k)), j.timers[k].captured, seed1, seed2)
    ensures r.index != j.index ==>
      && j.timers[k].AdvanceDue? && j.timers[k].captured + 1 == r.index
      && r.step == Intro && !r.flipped && !r.listened && r.feedback == None
  {
    var rest := RemoveAt(j.timers, k);
    DropTimer(j.timers, k);
    match j.timers[k]
    case AdvanceDue(c) => AdvanceFires(j.(timers := rest), c, seed1, seed2)
    case ClearDue => j.(feedback := None, timers := rest)
  }

  /** A tap on the card turns it over. */
  function Flip(j: Journey): (r: Journey)
    requires Valid(j)
    ensures Valid(r)
    ensures r.flipped == !j.flipped && r.listened == j.listened
    ensures r.index == j.index && r.step == j.step && r.feedback == j.feedback && r.timers == j.timers
  {
    j.(flipped := !j.flipped)
  }

  /** The speaker button asks for the word's pronunciation; the card does not turn. */
  function StartSpeech(j: Journey): (r: Journey)
    requires Valid(j)
    ensures Valid(r)
    ensures r.speeches == j.speeches + 1
    ensures r.index == j.index && r.step == j.step && r.flipped == j.flipped && r.listened == j.listened
    ensures r.feedback == j.feedback && r.timers == j.timers
  {
    j.(speeches := j.speeches + 1)
  }

  /** A pronunciation finished: the current word counts as heard, whichever word asked for it. */
  function SpeechEnded(j: Journey): (r: Journey)
    requires Valid(j) && j.speeches > 0
    ensures Valid(r)
    ensures r.listened && r.speeches == j.speeches - 1
    ensures r.index == j.index && r.step == j.step && r.flipped == j.flipped
    ensures r.feedback == j.feedback && r.timers == j.timers
  {
    j.(speeches := j.speeches - 1, listened := true)
  }

  /** "I'm Ready for the Quiz!" turns the intro into the test. */
  function GetReady(j: Journey): (r: Journey)
    requires Valid(j)
    ensures Valid(r)
    ensures r.step == Test
    ensures r.index == j.index && r.options == j.options && r.feedback == j.feedback && r.timers == j.timers
  {
    j.(step := Test)
  }

  datatype Event =
    | FlipCard
    | Listen
    | SpeechEnds
    | Ready
    | Choose(choice: string)
    | TimerFires(k: nat, seed1: seq<nat>, seed2: seq<nat>)

  /**
   * One event. The card, its speaker button and "I'm Ready" live on the intro
   * step, the latter only once the word was heard and the card flipped; option
   * buttons live on the test step. A pronunciation's end and the scheduled delays
   * may arrive at any time, in any order.
   */
  function Step(j: Journey, e: Event): (r: Journey)
    requires Valid(j)
    ensures Valid(r)
  {
    match e
    case FlipCard => if j.step == Intro then Flip(j) else j
    case Listen => if j.step == Intro then StartSpeech(j) else j
    case SpeechEnds => if j.speeches > 0 then SpeechEnded(j) else j
    case Ready => if j.step == Intro && j.listened && j.flipped then GetReady(j) else j
    case Choose(choice) => if j.step == Test && choice in j.options then HandleCheck(j, choice) else j
    case TimerFires(k, seed1, seed2) => if k < |j.timers| then FireTimer(j, k, seed1, seed2) else j
  }

  /** The quiz starts only from "I'm Ready", once the word was heard and the card flipped. */
  lemma TestOnlyWhenReady(j: Journey, e: Event)
    requires Valid(j) && j.step == Intro && Step(j, e).step == Test
    ensures j.listened && j.flipped && e == Ready
  {
  }

  /**
   * The word changes only when a right pick's delayed step fires, to the word
   * after the one it was made on, and the new word starts on a fresh intro.
   */
  lemma WordChangesOnlyByAdvance(j: Journey, e: Event)
    requires Valid(j) && Step(j, e).index != j.index
    ensures e.TimerFires? && e.k < |j.timers| && j.timers[e.k].AdvanceDue?
    ensures j.timers[e.k].captured + 1 == Step(j, e).index
    ensures Step(j, e).step == Intro && !Step(j, e).flipped && !Step(j, e).listened && Step(j, e).feedback == None
  {
  }

  function Run(j: Journey, events: seq<Event>): (r: Journey)
    requires Valid(j)
    ensures Valid(r)
    decreases |events|
  {
    if |events| == 0 then j else Run(Step(j, events[0]), events[1..])
  }

  /**
   * Unlike the alchemy game, repeated right picks cannot push the index past the
   * last word: each delayed step sets the index from the word it was made on.
   */
  lemma IndexAlwaysInRange(seed1: seq<nat>, seed2: seq<nat>, events: seq<Event>)
    ensures Run(Init(seed1, seed2), events).index < |TimeWords|
  {
  }

  /** A right pick on the test step: praise, and an advance scheduled from the current word. */
  lemma PickRight(j: Journey)
    requires Valid(j) && j.step == Test
    ensures Step(j, Choose(TimeWords[j.index].arabic)).timers == j.timers + [AdvanceDue(j.index)]
    ensures SameWord(Step(j, Choose(TimeWords[j.index].arabic)), j)
  {
    assert TimeWords[j.index].arabic in j.options by { assert TimeWords[j.index].arabic in multiset(j.options); }
  }

  lemma StepFires(j: Journey, k: nat, s1: seq<nat>, s2: seq<nat>)
    requires Valid(j) && k < |j.timers|
    ensures Step(j, TimerFires(k, s1, s2)) == FireTimer(j, k, s1, s2)
  {
  }

  /** The first scheduled delay is a right pick's advance before the last word. */
  lemma FireAdvance(j: Journey, s1: seq<nat>, s2: seq<nat>)
    requires Valid(j) && |j.timers| > 0 && j.timers[0].AdvanceDue? && j.timers[0].captured < |TimeWords| - 1
    ensures Step(j, TimerFires(0, s1, s2)) == AdvanceFires(j.(timers := j.timers[1..]), j.timers[0].captured, s1, s2)
  {
    StepFires(j, 0, s1, s2);
    assert RemoveAt(j.timers, 0) == j.timers[1..];
  }

  /**
   * Two right picks on one word, then both delays: the first moves to the next
   * word, the second sets that same index again and changes nothing but the schedule.
   */
  lemma RepeatedRightPickHarmless(j: Journey, s1: seq<nat>, s2: seq<nat>, t1: seq<nat>, t2: seq<nat>)
    requires Valid(j) && j.step == Test && j.timers == [] && j.index < |TimeWords| - 1
    ensures
      var a := Step(Step(j, Choose(TimeWords[j.index].arabic)), Choose(TimeWords[j.index].arabic));
      var b := Step(a, TimerFires(0, s1, s2));
      && b.index == j.index + 1 && b.step == Intro
      && Step(b, TimerFires(0, t1, t2)) == b.(timers := [])
  {
    var right := TimeWords[j.index].arabic;
    PickRight(j);
    var a1 := Step(j, Choose(right));
    PickRight(a1);
    var a := Step(a1, Choose(right));
    assert a.timers == [AdvanceDue(j.index), AdvanceDue(j.index)];
    FireAdvance(a, s1, s2);
    var b := Step(a, TimerFires(0, s1, s2));
    assert b.index == j.index + 1 && b.timers == [AdvanceDue(j.index)];
    FireAdvance(b, t1, t2);
  }
}
