/**
 * Size Sorter ("Time Ladder"): the learner reorders a shuffled copy of the
 * vocabulary with up/down arrows and checks it against the table's own order,
 * smallest unit first.
 */
module SizeSorter {
  import opened Util
  import opened Shuffling
  import opened Constants

  datatype Status = Idle | Wrong | Win

  datatype Ladder = Ladder(items: seq<TimeWord>, status: Status)

  /** The items are a reordering of the vocabulary table. */
  ghost predicate Valid(l: Ladder)
  {
    multiset(l.items) == multiset(TimeWords)
  }

  /** A freshly shuffled ladder: the initial state and the "Shuffle Again" button. */
  function Fresh(seed: seq<nat>): (l: Ladder)
    ensures Valid(l) && l.status == Idle
  {
    Ladder(Shuffle(TimeWords, seed), Idle)
  }

  /** An arrow on row `idx`: `dir` is -1 for up and 1 for down. */
  function Move(l: Ladder, idx: nat, dir: int): (r: Ladder)
    requires idx < |l.items| && (dir == -1 || dir == 1)
    ensures idx + dir < 0 || idx + dir >= |l.items| ==> r == l
    ensures 0 <= idx + dir < |l.items| ==>
      && |r.items| == |l.items|
      && r.items[idx] == l.items[idx + dir]
      && r.items[idx + dir] == l.items[idx]
      && (forall k :: 0 <= k < |l.items| && k != idx && k != idx + dir ==> r.items[k] == l.items[k])
      && r.status == Idle
    ensures multiset(r.items) == multiset(l.items)
  {
    var target := idx + dir;
    if target < 0 || target >= |l.items| then l
    else
      var items := l.items[idx := l.items[target]][target := l.items[idx]];
      assert multiset(items) == multiset(l.items) by {
        SwapMultiset(l.items, idx, target);
      }
      Ladder(items, Idle)
  }

  lemma SwapMultiset<T>(s: seq<T>, i: nat, j: nat)
    requires i < |s| && j < |s|
    ensures multiset(s[i := s[j]][j := s[i]]) == multiset(s)
  {
    var t := s[i := s[j]];
    assert multiset(t) == multiset(s) - multiset{s[i]} + multiset{s[j]};
    assert multiset(t[j := s[i]]) == multiset(t) - multiset{t[j]} + multiset{s[i]};
  }

  /** Row `i` holds the word the reference order puts there, compared by English term. */
  predicate InPlace(items: seq<TimeWord>, i: nat)
    requires i < |items| && i < |TimeWords|
  {
    items[i].english == TimeWords[i].english
  }

  /** "Check My English": compares every row with the reference order. */
  function Check(l: Ladder): (r: Ladder)
    requires |l.items| <= |TimeWords|
    ensures r.items == l.items
    ensures r.status == Win <==> forall i :: 0 <= i < |l.items| ==> InPlace(l.items, i)
    ensures r.status == Win || r.status == Wrong
  {
    var ok := forall i :: 0 <= i < |l.items| ==> InPlace(l.items, i);
    Ladder(l.items, if ok then Win else Wrong)
  }

  /**
   * On a reordering of the table, the check wins exactly on the reference order
   * itself: a rotation or any other misordering is reported wrong.
   */
  lemma CheckWinsOnlyInOrder(l: Ladder)
    requires Valid(l)
    ensures |l.items| == |TimeWords|
    ensures Check(l).status == Win <==> l.items == TimeWords
  {
    assert |l.items| == |TimeWords| by { assert |multiset(l.items)| == |multiset(TimeWords)|; }
    if Check(l).status == Win {
      TimeWordsUnique();
      forall i | 0 <= i < |l.items| ensures l.items[i].english == TimeWords[i].english {
        assert InPlace(l.items, i);
      }
      SameTermsSameWords(l.items, TimeWords);
    }
  }

  /** A reordering of a table with distinct terms that matches it term by term is the table itself. */
  lemma SameTermsSameWords(items: seq<TimeWord>, ws: seq<TimeWord>)
    requires multiset(items) == multiset(ws) && |items| == |ws| && EnglishUnique(ws)
    requires forall i :: 0 <= i < |items| ==> items[i].english == ws[i].english
    ensures items == ws
  {
    forall i | 0 <= i < |items| ensures items[i] == ws[i] {
      assert items[i] in multiset(ws);
      var j :| 0 <= j < |ws| && ws[j] == items[i];
      assert !(i < j) && !(j < i);
    }
  }

  datatype Event = Up(idx: nat) | Down(idx: nat) | CheckOrder | ShuffleAgain(seed: seq<nat>)

  /**
   * One click. The arrows and the check button are shown only while not won,
   * "Shuffle Again" only once won; a click on a hidden button changes nothing.
   */
  function Step(l: Ladder, e: Event): (r: Ladder)
    requires Valid(l)
    ensures Valid(r)
  {
    assert |l.items| == |TimeWords| by { assert |multiset(l.items)| == |multiset(TimeWords)|; }
    match e
    case Up(idx) => if l.status != Win && idx < |l.items| then Move(l, idx, -1) else l
    case Down(idx) => if l.status != Win && idx < |l.items| then Move(l, idx, 1) else l
    case CheckOrder => if l.status != Win then Check(l) else l
    case ShuffleAgain(seed) => if l.status == Win then Fresh(seed) else l
  }

  function Run(l: Ladder, events: seq<Event>): (r: Ladder)
    requires Valid(l)
    ensures Valid(r)
    decreases |events|
  {
    if |events| == 0 then l else Run(Step(l, events[0]), events[1..])
  }
}
