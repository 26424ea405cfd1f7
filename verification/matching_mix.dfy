/**
 * Matching Mix: a memory game over a shuffled deck holding one English and one
 * Arabic card per word. Up to two cards are selected; a translation pair is
 * solved at once, any other pair stays visible until a delayed clear.
 */
module MatchingMix {
  import opened Util
  import opened Shuffling
  import opened Constants

  datatype Lang = En | Ar

  datatype Card = Card(content: string, matchId: string, lang: Lang)

  function EnglishCard(w: TimeWord): Card
  {
    Card(w.english, w.english, En)
  }

  function ArabicCard(w: TimeWord): Card
  {
    Card(w.arabic, w.english, Ar)
  }

  /** Two cards match when they carry the same key in different languages. */
  predicate Matches(c1: Card, c2: Card)
  {
    c1.matchId == c2.matchId && c1.lang != c2.lang
  }

  /** The deck before shuffling: every English card, then every Arabic card. */
  function OrderedDeck(ws: seq<TimeWord>): (d: seq<Card>)
    ensures |d| == 2 * |ws|
    ensures forall i :: 0 <= i < |ws| ==> d[i] == EnglishCard(ws[i]) && d[|ws| + i] == ArabicCard(ws[i])
  {
    seq(|ws|, i requires 0 <= i < |ws| => EnglishCard(ws[i]))
      + seq(|ws|, i requires 0 <= i < |ws| => ArabicCard(ws[i]))
  }

  /** The deck laid out on mount. */
  function Deck(ws: seq<TimeWord>, seed: seq<nat>): (d: seq<Card>)
    ensures |d| == 2 * |ws|
    ensures multiset(d) == multiset(OrderedDeck(ws))
  {
    Shuffle(OrderedDeck(ws), seed)
  }

  /** The card is one of the two cards of some word. */
  predicate CardOf(ws: seq<TimeWord>, c: Card)
  {
    exists i :: 0 <= i < |ws| && (c == EnglishCard(ws[i]) || c == ArabicCard(ws[i]))
  }

  lemma OrderedDeckMembers(ws: seq<TimeWord>, c: Card)
    ensures c in OrderedDeck(ws) <==> CardOf(ws, c)
  {
    var o := OrderedDeck(ws);
    if c in o {
      var k :| 0 <= k < |o| && o[k] == c;
      if k < |ws| {
        assert c == EnglishCard(ws[k]);
      } else {
        assert c == ArabicCard(ws[k - |ws|]);
      }
    }
    if CardOf(ws, c) {
      var i :| 0 <= i < |ws| && (c == EnglishCard(ws[i]) || c == ArabicCard(ws[i]));
      assert o[i] == EnglishCard(ws[i]) && o[|ws| + i] == ArabicCard(ws[i]);
    }
  }

  lemma OrderedDeckDistinct(ws: seq<TimeWord>)
    requires EnglishUnique(ws)
    ensures Distinct(OrderedDeck(ws))
  {
    var o := OrderedDeck(ws);
    forall a, b | 0 <= a < b < |o| ensures o[a] != o[b] {
      var wa := if a < |ws| then a else a - |ws|;
      var wb := if b < |ws| then b else b - |ws|;
      assert o[a].matchId == ws[wa].english && o[b].matchId == ws[wb].english;
      if wa < wb {
        assert ws[wa].english != ws[wb].english;
      } else if wb < wa {
        assert ws[wb].english != ws[wa].english;
      } else {
        assert o[a].lang != o[b].lang;
      }
    }
  }

  /**
   * Whatever the shuffle, the deck holds 2 * |ws| cards, exactly the English and
   * Arabic card of each word, and with unique English terms no card twice.
   */
  lemma DeckContents(ws: seq<TimeWord>, seed: seq<nat>)
    ensures |Deck(ws, seed)| == 2 * |ws|
    ensures forall c :: c in Deck(ws, seed) <==> CardOf(ws, c)
    ensures EnglishUnique(ws) ==> Distinct(Deck(ws, seed))
  {
    var o := OrderedDeck(ws);
    var d := Deck(ws, seed);
    forall c ensures c in d <==> CardOf(ws, c) {
      assert c in d <==> c in multiset(o);
      OrderedDeckMembers(ws, c);
    }
    if EnglishUnique(ws) {
      OrderedDeckDistinct(ws);
      DistinctPermutation(o, d);
    }
  }

  /** With unique English terms, two deck cards match exactly when they are the two cards of one word. */
  lemma MatchIffTranslation(ws: seq<TimeWord>, c1: Card, c2: Card)
    requires EnglishUnique(ws)
    requires CardOf(ws, c1) && CardOf(ws, c2)
    ensures Matches(c1, c2) <==>
      exists i :: 0 <= i < |ws| &&
        ((c1 == EnglishCard(ws[i]) && c2 == ArabicCard(ws[i])) || (c1 == ArabicCard(ws[i]) && c2 == EnglishCard(ws[i])))
  {
    var i :| 0 <= i < |ws| && (c1 == EnglishCard(ws[i]) || c1 == ArabicCard(ws[i]));
    var j :| 0 <= j < |ws| && (c2 == EnglishCard(ws[j]) || c2 == ArabicCard(ws[j]));
  }

  /**
   * The game state. `selected` and `solved` hold deck positions; `clearPending`
   * records the scheduled clear of a mismatched pair.
   */
  datatype Board = Board(cards: seq<Card>, selected: seq<nat>, solved: seq<nat>, clearPending: bool)

  /** Every entry is a valid position of a sequence of length `n`. */
  predicate InRange(s: seq<nat>, n: nat)
  {
    forall j :: 0 <= j < |s| ==> s[j] < n
  }

  /** The `k`-th pair of `solved`, in the order pairs were solved, is a matching pair. */
  predicate PairMatches(cards: seq<Card>, solved: seq<nat>, k: nat)
    requires InRange(solved, |cards|) && 2 * k + 1 < |solved|
  {
    Matches(cards[solved[2 * k]], cards[solved[2 * k + 1]])
  }

  /** `solved` is a list of matching pairs. */
  ghost predicate PairsMatch(cards: seq<Card>, solved: seq<nat>)
    requires InRange(solved, |cards|)
  {
    |solved| % 2 == 0 && forall k: nat :: 2 * k + 1 < |solved| ==> PairMatches(cards, solved, k)
  }

  /** What holds of every board the game can reach. */
  ghost predicate Valid(b: Board)
  {
    && InRange(b.selected, |b.cards|)
    && InRange(b.solved, |b.cards|)
    && |b.selected| <= 2
    && Distinct(b.selected)
    && Distinct(b.solved)
    && (forall i :: i in b.selected ==> i !in b.solved)
    && (b.clearPending <==> |b.selected| == 2)
    && PairsMatch(b.cards, b.solved)
  }

  function Init(seed: seq<nat>): (b: Board)
    ensures Valid(b)
    ensures |b.cards| == 2 * |TimeWords| && b.selected == [] && b.solved == []
  {
    Board(Deck(TimeWords, seed), [], [], false)
  }

  /** The user clicks the card at deck position `idx`. */
  function Click(b: Board, idx: nat): (r: Board)
    requires Valid(b) && idx < |b.cards|
    ensures Valid(r)
    ensures r.cards == b.cards
    ensures b.solved <= r.solved
    ensures idx in b.solved || idx in b.selected || |b.selected| >= 2 ==> r == b
    ensures |b.selected| == 0 && idx !in b.solved ==> r.selected == [idx] && r.solved == b.solved
    ensures |r.solved| > |b.solved| <==>
      (|b.selected| == 1 && idx != b.selected[0] && idx !in b.solved && Matches(b.cards[b.selected[0]], b.cards[idx]))
    ensures |r.solved| > |b.solved| ==> r.solved == b.solved + [b.selected[0], idx] && r.selected == []
    ensures |b.selected| == 1 && idx != b.selected[0] && idx !in b.solved && !Matches(b.cards[b.selected[0]], b.cards[idx])
      ==> r.solved == b.solved && r.selected == [b.selected[0], idx] && r.clearPending
  {
    if idx in b.solved || idx in b.selected || |b.selected| >= 2 then b
    else
      var pick := b.selected + [idx];
      if |pick| == 2 then
        if Matches(b.cards[pick[0]], b.cards[pick[1]]) then
          var r := b.(selected := [], solved := b.solved + pick);
          assert Distinct(r.solved) by {
            assert pick[0] !in b.solved && pick[1] !in b.solved && pick[0] != pick[1];
          }
          assert PairsMatch(r.cards, r.solved) by {
            forall k: nat | 2 * k + 1 < |r.solved| ensures PairMatches(r.cards, r.solved, k) {
              if 2 * k + 1 < |b.solved| {
                assert PairMatches(b.cards, b.solved, k);
              } else {
                assert 2 * k == |b.solved|;
              }
            }
          }
          r
        else b.(selected := pick, clearPending := true)
      else b.(selected := pick)
  }

  /** The delayed clear after a mismatch. */
  function ClearFires(b: Board): (r: Board)
    requires Valid(b)
    ensures Valid(r)
    ensures r.cards == b.cards && r.solved == b.solved && r.selected == []
  {
    b.(selected := [], clearPending := false)
  }

  /** The win banner: every card solved, on a non-empty deck. */
  function Won(b: Board): (won: bool)
    requires Valid(b)
    ensures won <==> |b.cards| > 0 && forall i :: 0 <= i < |b.cards| ==> i in b.solved
  {
    FullIffAllSolved(b);
    |b.solved| == |b.cards| && |b.cards| > 0
  }

  /** A solved list of distinct positions on the deck is as long as the deck exactly when it holds every position. */
  lemma FullIffAllSolved(b: Board)
    requires Valid(b)
    ensures |b.solved| == |b.cards| <==> forall i :: 0 <= i < |b.cards| ==> i in b.solved
  {
    var n := |b.cards|;
    DistinctElems(b.solved);
    IndicesCard(n);
    assert Elems(b.solved) <= Elems(Indices(n));
    SubsetCard(Elems(b.solved), Elems(Indices(n)));
    if |b.solved| == n {
      forall i | 0 <= i < n ensures i in b.solved {
        assert i in Elems(Indices(n));
      }
    }
    if forall i :: 0 <= i < n ==> i in b.solved {
      forall x | x in Elems(Indices(n)) ensures x in Elems(b.solved) {
        assert x < n;
      }
      SubsetCard(Elems(Indices(n)), Elems(b.solved));
    }
  }

  datatype Event = ClickCard(idx: nat) | ClearTimer

  /** One event; a click outside the deck or a timer with nothing scheduled changes nothing. */
  function Step(b: Board, e: Event): (r: Board)
    requires Valid(b)
    ensures Valid(r)
    ensures r.cards == b.cards && b.solved <= r.solved
  {
    match e
    case ClickCard(idx) => if idx < |b.cards| then Click(b, idx) else b
    case ClearTimer => if b.clearPending then ClearFires(b) else b
  }

  function Run(b: Board, events: seq<Event>): (r: Board)
    requires Valid(b)
    ensures Valid(r)
    ensures r.cards == b.cards && b.solved <= r.solved
    decreases |events|
  {
    if |events| == 0 then b else Run(Step(b, events[0]), events[1..])
  }

  /** A card solved at some point is still solved, and never selected, after any further events. */
  lemma SolvedStaysSolved(b: Board, events: seq<Event>, i: nat)
    requires Valid(b) && i in b.solved
    ensures i in Run(b, events).solved && i !in Run(b, events).selected
  {
    var r := Run(b, events);
    assert r.solved[..|b.solved|] == b.solved;
    var k :| 0 <= k < |b.solved| && b.solved[k] == i;
    assert r.solved[k] == i;
  }
}
