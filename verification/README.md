# Time words mini-games, modelled in Dafny

The application teaches the English words for time units (hour, day, week, month,
year) to Arabic-speaking children through six small React games. Each game is a
small state machine over a few `useState` hooks. This project models each game as
an immutable state record, with one pure function per user action and per
`setTimeout` callback, and proves what the games promise. It also models the
content tables the games read.

Modules, one per source file:

- `Util`: `Option` for nullable state, JavaScript truthiness of a `string | null`,
  `splice(i, 1)`, and duplicate-freedom.
- `Shuffling`: every `sort(() => Math.random() - 0.5)` in the games. The random
  comparator is replaced by a `seed`, and it is proved that every permutation is
  the shuffle of some seed. A property proved for all seeds therefore holds for
  every order the sort can produce.
- `Constants`: the `TIME_WORDS`, `QUIZ_QUESTIONS` and `SCENARIOS` tables, with
  their uniqueness facts.
- `MatchingMix`, `SizeSorter`, `StarJumble`, `TimePilot`, `Quiz`, `MathWizard`,
  `DiscoveryJourney`: the games.
  - Each has a state datatype and a `Valid` invariant, which every handler keeps.
  - Each has a `Step` function that dispatches one event. It only lets through
    clicks on buttons the screen actually shows.
  - Each has a `Run` function that folds `Step` over a sequence of events.
- `Text`: `String.prototype.trim`, which the alchemy game applies to the typed
  answer. It strips ECMAScript white space and line terminators.

How timers are modelled:

- A game with at most one delay in flight keeps it in a single `pending` field.
  This covers three games, each for its own reason:
  - Matching Mix: the click handler returns early while two cards are selected,
    so no second clear is scheduled. The cards themselves stay clickable.
  - Star Jumble: the check button is hidden while a result is shown. The tiles
    and slots stay clickable.
  - Time Pilot: the option buttons are disabled once a choice is made.
- A game that can schedule several delays keeps a list of them, and any of them
  may fire next. This covers the alchemy game and Discovery Journey. Each
  scheduled step remembers the index its closure captured.

## Model

| member | source | states |
|---|---|---|
| Util.RemoveAt | components/StarJumble.tsx:33-34 | `splice(idx, 1)` drops exactly position `idx`: one element shorter, that element leaves the multiset, everything before and after it is kept in order; an index past the end changes nothing |
| Util.DistinctIffSingleCounts | constants.tsx:52-83 | a list repeats no option exactly when every option it holds occurs once in it, in both directions |
| Shuffling.Shuffle | components/SizeSorter.tsx:6 | a random-comparator sort returns a reordering of its input: same length, same multiset |
| Shuffling.EveryPermutationIsAShuffle | components/SizeSorter.tsx:89 | every reordering of the input is produced by some seed, so no outcome of the sort is left out of a for-all-seeds property |
| Constants.TimeWordsUnique | constants.tsx:4-50 | the five words have pairwise different English terms (the match keys and list keys) and pairwise different Arabic terms (what the distractor filter compares), and no empty English term |
| Constants.KeysDistinctUnique | constants.tsx:4-50 | the per-element freshness check on a word list implies pairwise-distinct English and Arabic terms |
| Constants.QuizQuestionsWellFormed | constants.tsx:52-83 | there are five questions, and each has pairwise different, non-empty options that contain its correct answer exactly once |
| Constants.ScenariosWellFormed | constants.tsx:85-126 | every scenario has pairwise different, non-empty options that contain its correct unit exactly once, and scenario ids are distinct |
| MatchingMix.OrderedDeck | components/MatchingMix.tsx:11-13 | the unshuffled deck has `2n` cards: English card of word `i` at `i`, its Arabic card at `n + i`, both keyed by the English term |
| MatchingMix.Deck | components/MatchingMix.tsx:11-14 | the dealt deck is the English cards and the Arabic cards in some order: `2 * |words|` cards, the same multiset as the ordered deck |
| MatchingMix.DeckContents | components/MatchingMix.tsx:11-14 | whatever the shuffle, the deck has `2 * |words|` cards, a card is in it exactly when it is one of the two cards of some word, and with unique English terms no card occurs twice |
| MatchingMix.MatchIffTranslation | components/MatchingMix.tsx:28 | two cards of the deck match (same key, different language) exactly when they are the English and the Arabic card of one word |
| MatchingMix.Init | components/MatchingMix.tsx:10-16 | the dealt board satisfies the invariant, holds `2 * |TIME_WORDS|` cards and nothing selected or solved |
| MatchingMix.Click | components/MatchingMix.tsx:18-35 | a click on a solved or selected card, or with two cards up, changes nothing; a first pick selects the card; the solved list grows exactly when the second card matches the first, by that pair, and the selection empties at once; a mismatch keeps both cards selected with a clear scheduled; the invariant (at most two distinct selected cards, disjoint from solved, solved a list of matching pairs) is kept |
| MatchingMix.ClearFires | components/MatchingMix.tsx:32 | the delayed clear empties the selection and leaves solved cards and the deck alone |
| MatchingMix.Won | components/MatchingMix.tsx:57 | the win banner (`solved.length === cards.length`, non-empty deck) shows exactly when every position of the deck is solved |
| MatchingMix.FullIffAllSolved | components/MatchingMix.tsx:57 | a duplicate-free list of positions on the deck is as long as the deck exactly when it holds every position, so comparing lengths is comparing contents |
| MatchingMix.Step | components/MatchingMix.tsx:41-44 | any event keeps the invariant and the deck and never removes a solved card |
| MatchingMix.SolvedStaysSolved | components/MatchingMix.tsx:29-32 | a solved card is still solved, and not selected, after any further events |
| SizeSorter.Fresh | components/SizeSorter.tsx:88-90 | the initial order and "Shuffle Again" give a reordering of the vocabulary with status idle |
| SizeSorter.Move | components/SizeSorter.tsx:9-16 | an arrow that would leave the list changes nothing, status included; otherwise rows `idx` and `idx + dir` trade places, every other row stays, status returns to idle, and the multiset is kept |
| SizeSorter.SwapMultiset | components/SizeSorter.tsx:13 | swapping two positions keeps the multiset of the list |
| SizeSorter.Check | components/SizeSorter.tsx:18-21 | the check keeps the items and reports win exactly when every row's English term is the reference row's, wrong otherwise |
| SizeSorter.CheckWinsOnlyInOrder | components/SizeSorter.tsx:19-20 | on any reordering of the vocabulary the check wins exactly on the reference order itself |
| SizeSorter.SameTermsSameWords | components/SizeSorter.tsx:19 | a reordering of a table with unique English terms that agrees with it term by term is the table |
| SizeSorter.Step | components/SizeSorter.tsx:56-96 | every click keeps the ladder a reordering of the vocabulary |
| StarJumble.UpperChar | components/StarJumble.tsx:15 | upper-casing one character: a lower-case ASCII letter becomes its capital, anything else is kept, and no lower-case ASCII letter remains |
| StarJumble.Upper | components/StarJumble.tsx:46-47 | `toUpperCase` on a word keeps its length and upper-cases each character in place |
| StarJumble.UpperIdempotent | components/StarJumble.tsx:46-47 | upper-casing an already upper-cased word changes nothing, so the tiles, already upper case, compare as they are |
| StarJumble.RotateLeft | components/StarJumble.tsx:20 | moving the first tile to the end keeps the multiset of letters |
| StarJumble.RotationFixedIffAllSame | components/StarJumble.tsx:19-21 | the rotation gives back the same word exactly when all its letters are equal |
| StarJumble.Scramble | components/StarJumble.tsx:15-21 | the tile order is a reordering of the upper-cased letters, and differs from the word unless all its letters are equal |
| StarJumble.Start | components/StarJumble.tsx:14-25 | a word starts with every letter of its upper-cased spelling in the pool, in a jumbled order, an empty guess, no verdict, and the completed list kept |
| StarJumble.AddLetter | components/StarJumble.tsx:31-36 | taking tile `idx` appends its letter to the guess and removes exactly position `idx` from the pool; the letters of pool and guess together are kept |
| StarJumble.RemoveLetter | components/StarJumble.tsx:38-43 | returning slot `idx` removes exactly that position from the guess and appends the letter to the pool; the letters are kept |
| StarJumble.AddThenRemove | components/StarJumble.tsx:31-43 | taking a tile and returning it restores the guess and puts the letter at the end of the pool |
| StarJumble.CheckResult | components/StarJumble.tsx:45-67 | the verdict is whether the upper-cased guess spells the upper-cased word; a right guess adds the target to the completed list unless it is there; the completed list only grows and stays duplicate-free; the matching delay is scheduled |
| StarJumble.CheckMeansExactSpelling | components/StarJumble.tsx:46-48 | since tiles only carry the word's own upper-case letters, the check succeeds exactly on the exact spelling |
| StarJumble.AdvanceFires | components/StarJumble.tsx:53-59 | after a right guess the delay starts the next word, or on the last word only clears the verdict; the completed list is kept |
| StarJumble.ResetFires | components/StarJumble.tsx:62-66 | after a wrong guess the delay returns every guessed letter to the pool (same letters in total), empties the guess and clears the verdict, on the same word |
| StarJumble.Step | components/StarJumble.tsx:115-151 | every event keeps the letters of pool and guess those of the word, the completed list growing and duplicate-free, and changes the word only by a right guess's delay, by one |
| StarJumble.Run | components/StarJumble.tsx:53-58 | along any run the word index never decreases and stays on the table, and completed words are never lost |
| TimePilot.HandleChoice | components/TimePilot.tsx:13-35 | a click while a choice is shown does nothing; a right choice scores one and schedules the advance; a wrong one leaves the score and schedules the retry; both show the choice |
| TimePilot.AdvanceFires | components/TimePilot.tsx:19-27 | the advance as written moves to the next scenario with the choice cleared and the score kept; after the last scenario it only drops the finished delay, leaving the answered scenario on screen |
| TimePilot.AdvanceFiresToFinish | components/TimePilot.tsx:19-27 | the advance with the finish: one scenario further, which is the finish screen exactly after the last scenario |
| TimePilot.RetryFires | components/TimePilot.tsx:30-33 | the retry clears the choice and returns to idle on the same scenario with the same score |
| TimePilot.NewMission | components/TimePilot.tsx:44-49 | "New Mission" returns to scenario 0 with score 0, no choice, idle |
| TimePilot.Step | components/TimePilot.tsx:13-56 | every event keeps `score == index + (status == correct ? 1 : 0)`, the timer matching the status, and the index on the scenarios (or, with the finishing advance, at most on the finish screen); the score never drops except by "New Mission" |
| TimePilot.FinishUnreachable | components/TimePilot.tsx:37 | as written, no run from the start reaches the finish screen, and the score never exceeds the number of scenarios |
| TimePilot.StuckAfterLastAnswer | components/TimePilot.tsx:20-26 | as written, once the last scenario is answered right and its delay has passed, no event changes anything |
| TimePilot.RightThenDelay | components/TimePilot.tsx:16-27 | a right pick and its delay move one scenario on with one more point, except on the last scenario as written |
| TimePilot.PerfectRun | components/TimePilot.tsx:13-27 | answering every remaining scenario right reaches the finish screen with a full score when the advance finishes, and as written stops on the last scenario, answered, with a full score |
| TimePilot.PerfectMissionAsWritten | components/TimePilot.tsx:37-42 | a perfect mission as written never shows the finish screen, though the score is full |
| TimePilot.PerfectMissionFinishing | components/TimePilot.tsx:37-42 | with the finishing advance a perfect mission ends on the finish screen with a full score |
| Quiz.FeedbackText | services/gemini.ts:34-56 | the feedback line is one of the praises for a right answer and one of the tips for a wrong one, never empty |
| Quiz.HandleAnswer | components/Quiz.tsx:16-29 | an answer while one is shown or feedback is loading does nothing; otherwise the option is shown, a feedback request with the verdict is in flight, and the score rises by one exactly on the correct answer |
| Quiz.FeedbackArrives | components/Quiz.tsx:26-28 | the arriving feedback is shown and loading ends; a praise for a right verdict, a tip for a wrong one |
| Quiz.NextQuestion | components/Quiz.tsx:31-39 | before the last question: the next one with selection and feedback cleared; on the last: the final screen, index kept; the score is kept |
| Quiz.TryAgain | components/Quiz.tsx:50-56 | "Try Again!" resets index, selection, feedback, final screen and score |
| Quiz.Step | components/Quiz.tsx:79-105 | every event keeps the score at most the number of questions already left behind plus one for the current question once it is answered (the per-question fact is `Quiz.SecondAnswerIgnored`), feedback only after an answer and never while loading, and the final screen only after the last feedback |
| Quiz.Run | components/Quiz.tsx:47 | along any run the score never exceeds the number of questions |
| Quiz.SecondAnswerIgnored | components/Quiz.tsx:17 | once an option is picked, a second pick on the same question changes nothing |
| Quiz.ScoresIffCorrect | components/Quiz.tsx:22-23 | an answer on a fresh question scores exactly when it is the correct answer, and leaves the score exactly when it is not |
| Quiz.RightAnswerRound | components/Quiz.tsx:16-39 | the correct answer, its feedback and "Next Question" move to the next fresh question with one more point, or open the final screen with a full score |
| Quiz.PerfectQuiz | components/Quiz.tsx:41-48 | answering every remaining question right ends on the final screen with a full score |
| Text.Trim | components/MathWizard.tsx:34 | what `trim` returns is never longer than its input, and a text of white space only trims to the empty string; its shape and what it removes are the next three rows |
| Text.TrimShape | components/MathWizard.tsx:34 | what `trim` returns is empty or starts and ends with a character other than white space |
| Text.TrimRemovesOnlySpace | components/MathWizard.tsx:34 | `trim` removes only white space: the input is the result between a run of white space before and one after |
| Text.TrimPadded | components/MathWizard.tsx:34 | padding a text that neither starts nor ends with white space, on either side, is undone by `trim` |
| MathWizard.DecimalRoundTrip | components/MathWizard.tsx:14-19 | reading back the decimal numeral of a number gives the number |
| MathWizard.Convert | components/MathWizard.tsx:13-20 | a conversion fails exactly between the minute chain and the month chain or when the result is not whole; when it succeeds, `result * size(to) == qty * size(from)` with 60 min/h, 24 h/day, 7 days/week, 12 months/year |
| MathWizard.ConvertRoundTrip | components/MathWizard.tsx:13-20 | converting a quantity and converting the result back gives the quantity |
| MathWizard.QuestAnswersConsistent | components/MathWizard.tsx:13-20 | every quest's answer is the numeral of its prompt quantity converted into its target unit |
| MathWizard.AnswersAreTrimmed | components/MathWizard.tsx:34 | every answer is a non-empty numeral that `trim` leaves alone, so typing it exactly passes the check |
| MathWizard.Rank | components/MathWizard.tsx:56-60 | "Apprentice" exactly below quest 2, "Time Traveler" exactly for quests 2 and 3, "Master Alchemist" exactly from quest 4 |
| MathWizard.RankMonotone | components/MathWizard.tsx:56-60 | moving on never lowers the rank |
| MathWizard.HandleCheck | components/MathWizard.tsx:30-54 | past the quests nothing happens; otherwise the verdict is whether the trimmed input equals the answer exactly; right hides the hint and schedules an advance remembering the quest; wrong shakes and schedules a reset; quest and input are kept |
| MathWizard.HandleCheckGuarded | components/MathWizard.tsx:30-45 | the check with a guard: ignored while an advance is scheduled, the check as written otherwise |
| MathWizard.FireTimer | components/MathWizard.tsx:37-53 | a fired delay leaves the schedule; a right check's delay made before the last quest moves one quest on from the current one (a functional `prev + 1`, not the quest it was made on) with input and verdict cleared, and one made on the last quest sets the finish flag; a wrong check's delay stops the shake and clears the verdict on the same quest |
| MathWizard.BrewAgain | components/MathWizard.tsx:69-73 | "Brew Again" returns to quest 0, unfinished, with empty input |
| MathWizard.Step | components/MathWizard.tsx:62-85 | every event keeps every scheduled advance tied to an existing quest; with the guard it also keeps the quest on the table, at most one advance scheduled, and that one made on the current, unfinished quest |
| MathWizard.GuardedQuestInRange | components/MathWizard.tsx:38-43 | with the guard, no run from the start moves the quest index past the last quest |
| MathWizard.BlankScreenIsFinal | components/MathWizard.tsx:82-85 | past the last quest without the finish flag and with no delay left, no event changes anything |
| MathWizard.CastRight | components/MathWizard.tsx:34-37 | a check of the right answer with no delay running shows success, hides the hint and schedules one advance |
| MathWizard.CheckTwiceAsWritten | components/MathWizard.tsx:30-45 | as written, typing the answer and casting twice schedules two advances from the same quest |
| MathWizard.DoubleCastSkips | components/MathWizard.tsx:37-41 | as written, a double cast before the last quest moves two quests on when both delays fire |
| MathWizard.DoubleCastBlanksTheScreen | components/MathWizard.tsx:38-43 | as written, a double cast on the second-to-last quest leaves the index at `QUESTS.length`, unfinished, with no delay left: the blank screen of lines 84-85 |
| MathWizard.DoubleCastsFromStart | components/MathWizard.tsx:30-45 | as written, from the start, double casts on the first, third and fifth quests leave the index at `QUESTS.length`, unfinished, with no delay left: the blank screen is reachable |
| MathWizard.CheckTwiceGuarded | components/MathWizard.tsx:30-45 | with the guard the second cast is ignored and one advance is scheduled |
| MathWizard.DoubleCastGuarded | components/MathWizard.tsx:37-41 | with the guard the same double cast moves exactly one quest on |
| DiscoveryJourney.OtherWords | components/DiscoveryJourney.tsx:18 | the filter keeps exactly the words whose Arabic term differs from the current one |
| DiscoveryJourney.ShuffleArabics | components/DiscoveryJourney.tsx:19-21 | shuffling the words and then mapping them to Arabic terms is shuffling their terms with the same seed |
| DiscoveryJourney.Distractors | components/DiscoveryJourney.tsx:18-21 | `slice(0, 2)` of the shuffled other words: two terms, or all of them when fewer than two words have another term |
| DiscoveryJourney.DistractorsFromOthers | components/DiscoveryJourney.tsx:18-21 | at most two distractors, each the Arabic term of another word and different from the current term |
| DiscoveryJourney.DistractorsDistinct | components/DiscoveryJourney.tsx:18-21 | with unique Arabic terms and at least three words there are exactly two different distractors |
| DiscoveryJourney.Choices | components/DiscoveryJourney.tsx:22 | the options are the current term and the distractors in some order: one more than the distractors, the same multiset |
| DiscoveryJourney.ChoicesContents | components/DiscoveryJourney.tsx:18-22 | whatever the two shuffles, the options hold the current term exactly once and otherwise only terms of other words, at most three; with unique terms and at least three words, exactly three different options |
| DiscoveryJourney.PoolPermuted | components/DiscoveryJourney.tsx:22 | reordering a term with distractors that do not repeat it keeps the term exactly once, adds nothing, and keeps duplicate-freedom |
| DiscoveryJourney.Enter | components/DiscoveryJourney.tsx:16-27 | entering word `n` builds its options from the two shuffles, which hold its term once, two terms of other words and no repeats, and resets step, flip, listen flag and feedback; scheduled delays are kept |
| DiscoveryJourney.SetIndex | components/DiscoveryJourney.tsx:40 | setting the index it already has changes nothing and does not rerun the effect; any other index enters that word |
| DiscoveryJourney.Init | components/DiscoveryJourney.tsx:6-27 | the journey starts on word 0, on the intro, with valid options and nothing scheduled |
| DiscoveryJourney.HandleCheck | components/DiscoveryJourney.tsx:35-49 | a pick shows success exactly when it is the current word's term, with the praise or the retry message, and schedules an advance remembering the word or a clear; the word and card are kept |
| DiscoveryJourney.AdvanceFires | components/DiscoveryJourney.tsx:38-44 | a right pick's delay sets the index to the word after the one it was made on, entering it afresh unless it is already current; on the last word it only shows the mastery message |
| DiscoveryJourney.FireTimer | components/DiscoveryJourney.tsx:38-47 | a fired delay leaves the schedule; a clear removes the message on the same word; only an advance changes the word, to one after its captured word, on a fresh intro |
| DiscoveryJourney.Flip | components/DiscoveryJourney.tsx:70 | a tap turns the card over and keeps the word, the step, the listen flag, the feedback and the schedule |
| DiscoveryJourney.StartSpeech | components/DiscoveryJourney.tsx:29-31 | the speaker button starts one more pronunciation and changes nothing else: the card does not turn (the click does not reach the card) and the word is not yet marked heard |
| DiscoveryJourney.SpeechEnded | components/DiscoveryJourney.tsx:31-32 | a finished pronunciation marks the current word heard and changes neither word, step nor card |
| DiscoveryJourney.GetReady | components/DiscoveryJourney.tsx:98-100 | "I'm Ready" switches to the test on the same word and options |
| DiscoveryJourney.Step | components/DiscoveryJourney.tsx:64-122 | every event keeps the index on the table, the options three different terms holding the current word's term once, and every scheduled advance tied to an existing word |
| DiscoveryJourney.TestOnlyWhenReady | components/DiscoveryJourney.tsx:98-100 | the test starts only by "I'm Ready", and only once the word was heard and the card flipped |
| DiscoveryJourney.WordChangesOnlyByAdvance | components/DiscoveryJourney.tsx:23-26 | the word changes only when a right pick's delay fires, to the word after its captured one, and then on a fresh intro |
| DiscoveryJourney.IndexAlwaysInRange | components/DiscoveryJourney.tsx:38-41 | no run from the start moves the index off the table |
| DiscoveryJourney.PickRight | components/DiscoveryJourney.tsx:36-40 | a right pick on the test keeps the word and schedules an advance from it |
| DiscoveryJourney.RepeatedRightPickHarmless | components/DiscoveryJourney.tsx:38-41 | two right picks on one word and both delays move exactly one word on: the second delay sets the same index again |

## Left out

- App.tsx: the tab navigation and the analytics calls are not modelled.
- components/VocabularyCard.tsx and components/Converter.tsx are not part of this model. The card is only a speech button. The converter computes floating-point rates and is not mounted.
- types.ts is not modelled: it only declares types, whose shapes the datatypes reuse.
- The pronunciation (`getGeminiTTS`, browser speech synthesis) is reduced to two events: its start and its end. No audio is modelled.
- The 300 ms wait and the random pick in `getAIFeedback` become the `FeedbackLands(pick)` event. `pick` stands for the random index.
- Every `Math.random` comparator sort takes a `seed` parameter. The distribution, including uniformity, is not modelled.
- Timer delays (500–1500 ms) are not modelled as durations. Each callback is an event that may fire at any time.
  - In MatchingMix, StarJumble and TimePilot, a callback only fires while it is scheduled. The source offers no second schedule before it fires.
  - In MathWizard and DiscoveryJourney, scheduled callbacks fire in any order.
- `Quiz.Step`: an answer is accepted only while no feedback request is in flight. The awaited feedback therefore arrives before the next answer. The model never has two requests pending.
- StarJumble.UpperChar: `toUpperCase` is modelled for ASCII letters only. Every word in the table is plain ASCII.
- Rendering is not modelled: CSS, animations, star positions, the shake animation, the progress and fuel percentages, and the "GALAXY MASTER" banner.
- "Play Again" in MatchingMix reloads the page, which the model has no notion of. A new game is `MatchingMix.Init` with a new seed.
- The alchemy quests are checked against a conversion in whole numbers. A month is not a whole number of weeks, so months and years form a separate chain from minutes to weeks.

## Findings

| source | as written | input that shows it | evidently intended | confidence | as-written member | corrected member |
|---|---|---|---|---|---|---|
| components/MathWizard.tsx:30-45 | `handleCheck` has no guard while the advance delay runs. Each check schedules a functional `prev + 1`. | On quest 4 (index 4 of 6), type "60" and press "Cast Spell!" twice before 1.2 s. Both delays fire: the index reaches 6 == `QUESTS.length` and `isFinished` stays false. The fallback at line 85 then renders nothing until the tab is left, since App.tsx mounts a fresh game when the tab is opened again. From a fresh game, the same double cast on quests 0, 2 and 4 gets there. | A check during a pending advance is ignored, so each right answer moves exactly one quest on. | not executed | MathWizard.DoubleCastBlanksTheScreen | MathWizard.DoubleCastGuarded |
| components/TimePilot.tsx:19-27 | On the last scenario the advance's else-branch is empty, so `index` never reaches `SCENARIOS.length`. | Answer all five scenarios right. The index stays 4 with the answer shown, and the "MISSION COMPLETE" screen at line 37 never appears. | After the last scenario the index moves past the end, which opens the finish screen. | not executed | TimePilot.PerfectMissionAsWritten | TimePilot.PerfectMissionFinishing |
