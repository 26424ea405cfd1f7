/** The static content tables every game reads: vocabulary, quiz questions and pilot scenarios. */
module Constants {
  import opened Util

  datatype TimeWord = TimeWord(
    english: string,
    arabic: string,
    transliteration: string,
    pluralEnglish: string,
    pluralArabic: string,
    fact: string,
    icon: string)

  datatype QuizQuestion = QuizQuestion(
    question: string,
    arabicQuestion: string,
    options: seq<string>,
    correctAnswer: string)

  datatype Scenario = Scenario(
    id: int,
    text: string,
    arabicText: string,
    options: seq<string>,
    correct: string,
    icon: string)

  /** The five time units, smallest first; this order is also the sorter's reference order. */
  const TimeWords: seq<TimeWord> := [
    TimeWord("Hour", "ساعة", "Sa'ah", "Hours", "ساعات", "60 Minutes = 1 Hour", "⏰"),
    TimeWord("Day", "يوم", "Yawm", "Days", "أيام", "24 Hours = 1 Day", "☀️"),
    TimeWord("Week", "أسبوع", "Usbu'", "Weeks", "أسابيع", "7 Days = 1 Week", "📅"),
    TimeWord("Month", "شهر", "Shahr", "Months", "شهور", "4 Weeks ≈ 1 Month", "🌙"),
    TimeWord("Year", "سنة", "Sanah", "Years", "سنوات", "12 Months = 1 Year", "🌎")
  ]

  const QuizQuestions: seq<QuizQuestion> := [
    QuizQuestion("How many hours are in a day?", "كم ساعة في اليوم؟",
      ["12", "24", "7", "60"], "24"),
    QuizQuestion("What is 'Month' in Arabic?", "ما معنى كلمة 'شهر' بالإنجليزية؟",
      ["Day", "Week", "Month", "Year"], "Month"),
    QuizQuestion("How many days are in a week?", "كم يوماً في الأسبوع؟",
      ["5", "7", "10", "12"], "7"),
    QuizQuestion("How many months are in a year?", "كم شهراً في السنة؟",
      ["4", "12", "24", "52"], "12"),
    QuizQuestion("Which unit is larger?", "أي وحدة هي الأكبر؟",
      ["Hour", "Day", "Week", "Month"], "Month")
  ]

  const Scenarios: seq<Scenario> := [
    Scenario(1, "A school day usually lasts for 7...", "يستمر اليوم الدراسي عادة لمدة 7...",
      ["Hours", "Days", "Weeks"], "Hours", "🏫"),
    Scenario(2, "Summer vacation is about 3...", "إجازة الصيف مدتها حوالي 3...",
      ["Days", "Months", "Years"], "Months", "🏖️"),
    Scenario(3, "We celebrate our birthday once every...", "نحتفل بعيد ميلادنا مرة واحدة كل...",
      ["Month", "Week", "Year"], "Year", "🎂"),
    Scenario(4, "You can finish a small drawing in one...", "يمكنك إنهاء رسمة صغيرة في...",
      ["Hour", "Year", "Month"], "Hour", "🎨"),
    Scenario(5, "The distance from Earth to the Moon takes 3...", "المسافة من الأرض إلى القمر تستغرق 3...",
      ["Hours", "Days", "Years"], "Days", "🚀")
  ]

  /** English terms identify words: they serve as match keys and list keys. */
  predicate EnglishUnique(ws: seq<TimeWord>)
  {
    forall i, j :: 0 <= i < j < |ws| ==> ws[i].english != ws[j].english
  }

  /** Arabic terms identify words: distractor filtering compares them. */
  predicate ArabicUnique(ws: seq<TimeWord>)
  {
    forall i, j :: 0 <= i < j < |ws| ==> ws[i].arabic != ws[j].arabic
  }

  /** A multiple-choice option list: no repeated option, no empty option, the answer exactly once. */
  predicate ChoiceList(options: seq<string>, answer: string)
  {
    && Distinct(options)
    && (forall o :: o in options ==> o != "")
    && multiset(options)[answer] == 1
  }

  lemma TimeWordsUnique()
    ensures EnglishUnique(TimeWords) && ArabicUnique(TimeWords)
    ensures |TimeWords| == 5
    ensures forall w :: w in TimeWords ==> w.english != ""
  {
    assert KeysDistinct(TimeWords);
    KeysDistinctUnique(TimeWords);
  }

  /** Neither key of `w` occurs in `ws`; written recursively so it can be evaluated on the table. */
  predicate KeysFresh(w: TimeWord, ws: seq<TimeWord>)
  {
    |ws| == 0 || (ws[0].english != w.english && ws[0].arabic != w.arabic && KeysFresh(w, ws[1..]))
  }

  predicate KeysDistinct(ws: seq<TimeWord>)
  {
    |ws| == 0 || (ws[0].english != "" && KeysFresh(ws[0], ws[1..]) && KeysDistinct(ws[1..]))
  }

  lemma {:induction false} KeysFreshAt(w: TimeWord, ws: seq<TimeWord>, k: nat)
    requires KeysFresh(w, ws) && k < |ws|
    ensures ws[k].english != w.english && ws[k].arabic != w.arabic
  {
    if k > 0 {
      KeysFreshAt(w, ws[1..], k - 1);
    }
  }

  lemma {:induction false} KeysDistinctUnique(ws: seq<TimeWord>)
    requires KeysDistinct(ws)
    ensures EnglishUnique(ws) && ArabicUnique(ws)
    ensures forall w :: w in ws ==> w.english != ""
  {
    if |ws| > 0 {
      var t := ws[1..];
      KeysDistinctUnique(t);
      forall i, j | 0 <= i < j < |ws|
        ensures ws[i].english != ws[j].english && ws[i].arabic != ws[j].arabic
      {
        if i == 0 {
          KeysFreshAt(ws[0], t, j - 1);
        } else {
          assert ws[i] == t[i - 1] && ws[j] == t[j - 1];
        }
      }
      forall w | w in ws ensures w.english != "" {
        if w != ws[0] {
          assert w in t;
        }
      }
    }
  }

  lemma QuizQuestionsWellFormed()
    ensures |QuizQuestions| == 5
    ensures forall q :: q in QuizQuestions ==> ChoiceList(q.options, q.correctAnswer)
  {
    forall i | 0 <= i < |QuizQuestions|
      ensures ChoiceList(QuizQuestions[i].options, QuizQuestions[i].correctAnswer)
    {
      var q := QuizQuestions[i];
      FourOptions(q.options, q.correctAnswer);
    }
  }

  /** Four distinct non-empty options containing the answer form a choice list. */
  lemma FourOptions(options: seq<string>, answer: string)
    requires |options| == 4
    requires options[0] != options[1] && options[0] != options[2] && options[0] != options[3]
    requires options[1] != options[2] && options[1] != options[3] && options[2] != options[3]
    requires forall o :: o in options ==> o != ""
    requires answer in options
    ensures ChoiceList(options, answer)
  {
    DistinctIffSingleCounts(options);
  }

  /** Three distinct non-empty options containing the answer form a choice list. */
  lemma ThreeOptions(options: seq<string>, answer: string)
    requires |options| == 3
    requires options[0] != options[1] && options[0] != options[2] && options[1] != options[2]
    requires forall o :: o in options ==> o != ""
    requires answer in options
    ensures ChoiceList(options, answer)
  {
    DistinctIffSingleCounts(options);
  }

  lemma ScenariosWellFormed()
    ensures |Scenarios| == 5
    ensures forall s :: s in Scenarios ==> ChoiceList(s.options, s.correct)
    ensures forall i, j :: 0 <= i < j < |Scenarios| ==> Scenarios[i].id != Scenarios[j].id
  {
    assert forall i :: 0 <= i < |Scenarios| ==> Scenarios[i].id == i + 1;
    forall i | 0 <= i < |Scenarios|
      ensures ChoiceList(Scenarios[i].options, Scenarios[i].correct)
    {
      var sc := Scenarios[i];
      ThreeOptions(sc.options, sc.correct);
    }
  }
}
