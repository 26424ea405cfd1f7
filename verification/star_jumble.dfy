/**
 * Star Jumble: the English word for the shown Arabic term is spelled by moving
 * letter tiles from the jumbled pool into the guess row, then verified.
 */
module StarJumble {
  import opened Util
  import opened Shuffling
  import opened Constants

  /** `toUpperCase` on one character; every vocabulary word is plain ASCII. */
  function UpperChar(c: char): (r: char)
    ensures !('a' <= r <= 'z')
    ensures 'a' <= c <= 'z' ==> 'A' <= r <= 'Z' && r as int - 'A' as int == c as int - 'a' as int
    ensures !('a' <= c <= 'z') ==> r == c
  {
    if 'a' <= c <= 'z' then (c as int - 32) as char else c
  }

  function Upper(s: string): (r: string)
    ensures |r| == |s|
    ensures forall i :: 0 <= i < |s| ==> r[i] == UpperChar(s[i])
  {
    seq(|s|, i requires 0 <= i < |s| => UpperChar(s[i]))
  }

  /** Upper-casing twice is upper-casing once. */
  lemma UpperIdempotent(s: string)
    ensures Upper(Upper(s)) == Upper(s)
  {
    assert forall i :: 0 <= i < |s| ==> Upper(Upper(s))[i] == Upper(s)[i];
  }

  /** The spelling to reach for word `index`, upper-cased. */
  function Target(index: nat): string
    requires index < |TimeWords|
  {
    Upper(TimeWords[index].english)
  }

  predicate AllSame(s: string)
  {
    forall i :: 0 <= i < |s| ==> s[i] == s[0]
  }

  function RotateLeft(s: string): (r: string)
    requires |s| > 0
    ensures multiset(r) == multiset(s)
  {
    assert s == [s[0]] + s[1..];
    s[1..] + [s[0]]
  }

  /** Rotating by one gives the same word back exactly when all its letters are equal. */
  lemma RotationFixedIffAllSame(s: string)
    requires |s| > 0
    ensures RotateLeft(s) == s <==> AllSame(s)
  {
    var r := RotateLeft(s);
    if r == s {
      forall i | 0 <= i < |s| ensures s[i] == s[0] {
        RotationShifts(s, i);
      }
    }
  }

  lemma {:induction false} RotationShifts(s: string, i: nat)
    requires |s| > 0 && RotateLeft(s) == s && i < |s|
    ensures s[i] == s[0]
  {
    if i > 0 {
      RotationShifts(s, i - 1);
      assert RotateLeft(s)[i - 1] == s[i];
    }
  }

  /**
   * `initJumble`'s tile order: a shuffle of the letters, rotated left by one when
   * it reproduces the word.
   */
  function Scramble(letters: string, seed: seq<nat>): (r: string)
    requires |letters| > 0
    ensures multiset(r) == multiset(letters)
    ensures !AllSame(letters) ==> r != letters
  {
    var shuffled := Shuffle(letters, seed);
    if shuffled == letters then
      RotationFixedIffAllSame(letters);
      RotateLeft(shuffled)
    else shuffled
  }

  /** The delayed step scheduled by the last check. */
  datatype Timer = NoTimer | AdvanceDue | ResetDue

  datatype Game = Game(
    index: nat,
    jumbled: string,
    guess: string,
    isCorrect: Option<bool>,
    completed: seq<string>,
    pending: Timer)

  /** Every completed entry is the target of some word. */
  ghost predicate CompletedTargets(completed: seq<string>)
  {
    forall k :: 0 <= k < |completed| ==> exists i :: 0 <= i < |TimeWords| && completed[k] == Target(i)
  }

  ghost predicate Valid(g: Game)
  {
    && g.index < |TimeWords|
    && multiset(g.jumbled + g.guess) == multiset(Target(g.index))
    && Distinct(g.completed)
    && CompletedTargets(g.completed)
    && (g.isCorrect == Some(true) <==> g.pending == AdvanceDue)
    && (g.isCorrect == Some(false) <==> g.pending == ResetDue)
    && (g.pending == AdvanceDue ==> Target(g.index) in g.completed)
  }

  lemma TargetsNonEmpty(index: nat)
    requires index < |TimeWords|
    ensures |Target(index)| > 0
  {
    TimeWordsUnique();
    assert TimeWords[index] in TimeWords;
  }

  /** `initJumble` for word `index`; the completed list is kept. */
  function Start(index: nat, completed: seq<string>, seed: seq<nat>): (g: Game)
    requires index < |TimeWords|
    requires Distinct(completed) && CompletedTargets(completed)
    ensures Valid(g)
    ensures g.index == index && g.guess == [] && g.isCorrect == None && g.completed == completed
    ensures multiset(g.jumbled) == multiset(Target(index))
    ensures !AllSame(Target(index)) ==> g.jumbled != Target(index)
  {
    TargetsNonEmpty(index);
    Game(index, Scramble(Target(index), seed), [], None, completed, NoTimer)
  }

  function Init(seed: seq<nat>): (g: Game)
    ensures Valid(g) && g.index == 0 && g.completed == []
  {
    Start(0, [], seed)
  }

  /** A click on tile `idx`, which shows `letter`. */
  function AddLetter(g: Game, letter: char, idx: nat): (r: Game)
    requires idx < |g.jumbled| && g.jumbled[idx] == letter
    ensures r.guess == g.guess + [letter]
    ensures |r.jumbled| == |g.jumbled| - 1
    ensures r.jumbled[..idx] == g.jumbled[..idx] && r.jumbled[idx..] == g.jumbled[idx + 1..]
    ensures multiset(r.jumbled + r.guess) == multiset(g.jumbled + g.guess)
    ensures r.index == g.index && r.isCorrect == g.isCorrect && r.completed == g.completed && r.pending == g.pending
  {
    var r := g.(guess := g.guess + [letter], jumbled := RemoveAt(g.jumbled, idx));
    assert r.jumbled + r.guess == r.jumbled + g.guess + [letter];
    r
  }

  /** A click on guess slot `idx`, which shows `letter`. */
  function RemoveLetter(g: Game, letter: char, idx: nat): (r: Game)
    requires idx < |g.guess| && g.guess[idx] == letter
    ensures r.jumbled == g.jumbled + [letter]
    ensures |r.guess| == |g.guess| - 1
    ensures r.guess[..idx] == g.guess[..idx] && r.guess[idx..] == g.guess[idx + 1..]
    ensures multiset(r.jumbled + r.guess) == multiset(g.jumbled + g.guess)
    ensures r.index == g.index && r.isCorrect == g.isCorrect && r.completed == g.completed && r.pending == g.pending
  {
    g.(guess := RemoveAt(g.guess, idx), jumbled := g.jumbled + [letter])
  }

  /** Taking a tile and putting it straight back restores the guess; the tile moves to the end of the pool. */
  lemma AddThenRemove(g: Game, letter: char, idx: nat)
    requires idx < |g.jumbled| && g.jumbled[idx] == letter
    ensures RemoveLetter(AddLetter(g, letter, idx), letter, |g.guess|).guess == g.guess
    ensures RemoveLetter(AddLetter(g, letter, idx), letter, |g.guess|).jumbled
      == g.jumbled[..idx] + g.jumbled[idx + 1..] + [letter]
  {
    var a := AddLetter(g, letter, idx);
    assert a.jumbled == a.jumbled[..idx] + a.jumbled[idx..];
    assert a.guess[..|g.guess|] == g.guess;
  }

  /** "Verify!": compares the upper-cased guess with the upper-cased word. */
  function CheckResult(g: Game): (r: Game)
    requires Valid(g) && g.pending == NoTimer
    ensures Valid(r)
    ensures r.isCorrect == Some(Upper(g.guess) == Target(g.index))
    ensures r.index == g.index && r.jumbled == g.jumbled && r.guess == g.guess
    ensures g.completed <= r.completed
    ensures Target(g.index) in r.completed <==> (Target(g.index) in g.completed || Upper(g.guess) == Target(g.index))
  {
    var target := Target(g.index);
    if Upper(g.guess) == target then
      var completed := if target in g.completed then g.completed else g.completed + [target];
      assert CompletedTargets(completed) by {
        forall k | 0 <= k < |completed|
          ensures exists i :: 0 <= i < |TimeWords| && completed[k] == Target(i)
        {
          if k == |g.completed| {
            assert completed[k] == Target(g.index);
          } else {
            assert completed[k] == g.completed[k];
          }
        }
      }
      g.(isCorrect := Some(true), completed := completed, pending := AdvanceDue)
    else
      g.(isCorrect := Some(false), pending := ResetDue)
  }

  /** Upper-casing leaves upper-cased letters alone. */
  lemma UpperOfTargetLetters(guess: string, index: nat)
    requires index < |TimeWords|
    requires forall c :: c in guess ==> c in Target(index)
    ensures Upper(guess) == guess
  {
    forall i | 0 <= i < |guess| ensures UpperChar(guess[i]) == guess[i] {
      assert guess[i] in Target(index);
      var j :| 0 <= j < |Target(index)| && Target(index)[j] == guess[i];
    }
  }

  /** Since tiles only ever hold the word's own upper-case letters, a check succeeds exactly on the exact spelling. */
  lemma CheckMeansExactSpelling(g: Game)
    requires Valid(g) && g.pending == NoTimer
    ensures CheckResult(g).isCorrect == Some(true) <==> g.guess == Target(g.index)
  {
    forall c | c in g.guess ensures c in Target(g.index) {
      assert c in multiset(g.jumbled + g.guess);
    }
    UpperOfTargetLetters(g.guess, g.index);
  }

  /** The delayed step after a correct check: the next word, or stay on the last one. */
  function AdvanceFires(g: Game, seed: seq<nat>): (r: Game)
    requires Valid(g) && g.pending == AdvanceDue
    ensures Valid(r) && r.pending == NoTimer
    ensures r.completed == g.completed
    ensures g.index < |TimeWords| - 1 ==> r.index == g.index + 1 && r.guess == [] && r.isCorrect == None
    ensures g.index == |TimeWords| - 1 ==> r.index == g.index && r.isCorrect == None
  {
    if g.index < |TimeWords| - 1 then Start(g.index + 1, g.completed, seed)
    else g.(isCorrect := None, pending := NoTimer)
  }

  /** The delayed step after a wrong check: every tile returns, reshuffled, to the pool. */
  function ResetFires(g: Game, seed: seq<nat>): (r: Game)
    requires Valid(g) && g.pending == ResetDue
    ensures Valid(r) && r.pending == NoTimer
    ensures r.guess == [] && r.isCorrect == None
    ensures multiset(r.jumbled) == multiset(g.jumbled + g.guess)
    ensures r.index == g.index && r.completed == g.completed
  {
    g.(jumbled := Shuffle(g.jumbled + g.guess, seed), guess := [], isCorrect := None, pending := NoTimer)
  }

  datatype Event =
    | TakeTile(idx: nat)
    | ReturnTile(idx: nat)
    | Verify
    | TimerFires(seed: seq<nat>)

  /**
   * One event. Tiles exist for each pool position, a guess slot is clickable when
   * it holds a letter, and "Verify!" is shown only with an empty pool and no
   * verdict on screen; anything else changes nothing.
   */
  function Step(g: Game, e: Event): (r: Game)
    requires Valid(g)
    ensures Valid(r)
    ensures g.completed <= r.completed
    ensures r.index != g.index ==> e.TimerFires? && g.pending == AdvanceDue && r.index == g.index + 1
  {
    match e
    case TakeTile(idx) =>
      if idx < |g.jumbled| then AddLetter(g, g.jumbled[idx], idx) else g
    case ReturnTile(idx) =>
      if idx < |g.guess| && idx < |TimeWords[g.index].english| then RemoveLetter(g, g.guess[idx], idx) else g
    case Verify =>
      if g.jumbled == [] && g.isCorrect == None then CheckResult(g) else g
    case TimerFires(seed) =>
      match g.pending
      case NoTimer => g
      case AdvanceDue => AdvanceFires(g, seed)
      case ResetDue => ResetFires(g, seed)
  }

  function Run(g: Game, events: seq<Event>): (r: Game)
    requires Valid(g)
    ensures Valid(r)
    ensures g.completed <= r.completed
    ensures r.index >= g.index
    decreases |events|
  {
    if |events| == 0 then g else Run(Step(g, events[0]), events[1..])
  }
}
