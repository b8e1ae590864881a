/**
 * The rule-based "AI" of the page: the intent classifier, the mood
 * classifier, the gesture-context matcher and the response strategy that
 * combines their labels. Labels are the strings the page compares.
 */
module Assistant {
  import opened Text
  import opened KeywordTable

  /** `IntentClassificationModel.intentMap`, in declaration order. */
  const IntentTable: Table<string> := [
    ("help", ["مساعدة", "أريد مساعدة", "ممكن", "هل يمكنك"]),
    ("navigation", ["اذهب", "انتقل", "افتح", "تحرك"]),
    ("information", ["أخبرني", "اشرح", "معلومات", "تفسير"]),
    ("control", ["تحكم", "شغل", "أوقف", "تفعيل"]),
    ("emotional_support", ["محبط", "متعب", "مرهق", "حزين"])
  ]

  const IntentLabels: set<string> :=
    {"help", "navigation", "information", "control", "emotional_support", "general"}

  /** Every keyword of every entry is free of ASCII letters, so lower-casing cannot affect it. */
  predicate Caseless<L>(table: Table<L>) {
    forall j, k | 0 <= j < |table| && k in table[j].1 :: NoAsciiLetters(k)
  }

  lemma AnyKeywordIgnoresCase(keywords: seq<string>, s: string)
    requires forall k | k in keywords :: NoAsciiLetters(k)
    ensures AnyKeyword(keywords, ToLower(s)) <==> AnyKeyword(keywords, s)
  {
    forall k | k in keywords ensures Contains(ToLower(s), k) <==> Contains(s, k) {
      ContainsIgnoresCase(s, k);
    }
  }

  /**
   * `IntentClassificationModel.classify`: lower-case the input, then return
   * the first intent one of whose keywords occurs in it, or 'general'.
   */
  function Classify(input: string): (r: string)
    ensures r in IntentLabels
  {
    FirstHitIsHitLabelOrFallback(IntentTable, keywords => AnyKeyword(keywords, ToLower(input)), "general");
    FirstHit(IntentTable, keywords => AnyKeyword(keywords, ToLower(input)), "general")
  }

  lemma IntentTableIsCaseless()
    ensures Caseless(IntentTable)
  {
    forall j, k | 0 <= j < |IntentTable| && k in IntentTable[j].1 ensures NoAsciiLetters(k) {
      if j == 0 {
        assert k in ["مساعدة", "أريد مساعدة", "ممكن", "هل يمكنك"];
      } else if j == 1 {
        assert k in ["اذهب", "انتقل", "افتح", "تحرك"];
      } else if j == 2 {
        assert k in ["أخبرني", "اشرح", "معلومات", "تفسير"];
      } else if j == 3 {
        assert k in ["تحكم", "شغل", "أوقف", "تفعيل"];
      } else {
        assert k in ["محبط", "متعب", "مرهق", "حزين"];
      }
    }
  }

  /** Lower-casing is invisible to the Arabic intent table: it is hit on the raw input alike. */
  lemma ClassifyHitsRawInput(input: string, j: nat)
    requires j < |IntentTable|
    ensures AnyKeyword(IntentTable[j].1, ToLower(input)) <==> AnyKeyword(IntentTable[j].1, input)
  {
    IntentTableIsCaseless();
    AnyKeywordIgnoresCase(IntentTable[j].1, input);
  }

  /**
   * The intent of entry `i` is returned when one of its keywords occurs in
   * the input and no keyword of an earlier entry does: earlier entries win.
   */
  lemma ClassifyReturnsFirstMatchingIntent(input: string, i: nat)
    requires i < |IntentTable|
    requires AnyKeyword(IntentTable[i].1, input)
    requires forall j :: 0 <= j < i ==> !AnyKeyword(IntentTable[j].1, input)
    ensures Classify(input) == IntentTable[i].0
  {
    var hit := keywords => AnyKeyword(keywords, ToLower(input));
    forall j | 0 <= j <= i ensures hit(IntentTable[j].1) == AnyKeyword(IntentTable[j].1, input) {
      ClassifyHitsRawInput(input, j);
    }
    FirstHitIsFirstMatch(IntentTable, hit, "general", i);
  }

  /** 'general' comes back exactly when no keyword of any intent occurs in the input. */
  lemma ClassifyGeneralIffNoKeyword(input: string)
    ensures Classify(input) == "general" <==>
      forall j :: 0 <= j < |IntentTable| ==> !AnyKeyword(IntentTable[j].1, input)
  {
    var hit := keywords => AnyKeyword(keywords, ToLower(input));
    forall j | 0 <= j < |IntentTable| ensures hit(IntentTable[j].1) == AnyKeyword(IntentTable[j].1, input) {
      ClassifyHitsRawInput(input, j);
    }
    FirstHitAt(IntentTable, hit, "general");
    var i := FirstHitIndex(IntentTable, hit);
    if i < |IntentTable| {
      assert IntentTable[i].0 != "general";
      assert AnyKeyword(IntentTable[i].1, input);
    }
  }

  /** `EmotionalIntelligenceModule.assessMood`'s table, in declaration order. */
  const MoodTable: Table<string> := [
    ("stressed", ["صعب", "مرهق", "متعب"]),
    ("motivated", ["أريد", "سأحاول", "طموح"]),
    ("neutral", ["عادي", "بخير"])
  ]

  /** `assessMood`: first mood one of whose keywords occurs in the input (no lower-casing), else 'neutral'. */
  function AssessMood(input: string): (r: string)
    ensures r in {"stressed", "motivated", "neutral"}
  {
    FirstHitIsHitLabelOrFallback(MoodTable, keywords => AnyKeyword(keywords, input), "neutral");
    FirstHit(MoodTable, keywords => AnyKeyword(keywords, input), "neutral")
  }

  /**
   * A stress keyword decides the mood outright; a motivation keyword decides
   * it only without a stress keyword; otherwise the mood is 'neutral'.
   */
  lemma AssessMoodCases(input: string)
    ensures AssessMood(input) == "stressed" <==> AnyKeyword(MoodTable[0].1, input)
    ensures AssessMood(input) == "motivated" <==>
      !AnyKeyword(MoodTable[0].1, input) && AnyKeyword(MoodTable[1].1, input)
    ensures AssessMood(input) == "neutral" <==>
      !AnyKeyword(MoodTable[0].1, input) && !AnyKeyword(MoodTable[1].1, input)
  {
    FirstHitAt(MoodTable, keywords => AnyKeyword(keywords, input), "neutral");
  }

  /** `AIGestureTranslator.interpretContext`'s table, in declaration order. */
  const GestureInterpretations: Table<string> := [
    ("positive", ["👍", "✅", "🌟"]),
    ("help", ["🆘", "🤲", "🤝"]),
    ("communication", ["🗣️", "💬", "👋"])
  ]

  /**
   * `matchGestureToContext`: the first context whose gesture list holds the
   * gesture exactly (array `includes`, not substring search), else 'neutral'.
   */
  function MatchGestureToContext(gestureData: string, interpretations: Table<string>): (r: string)
    ensures r == "neutral" ||
      exists j :: 0 <= j < |interpretations| && interpretations[j].0 == r && gestureData in interpretations[j].1
    ensures (forall j :: 0 <= j < |interpretations| ==> gestureData !in interpretations[j].1) ==> r == "neutral"
  {
    FirstHitIsHitLabelOrFallback(interpretations, gestures => gestureData in gestures, "neutral");
    FirstHitAt(interpretations, gestures => gestureData in gestures, "neutral");
    FirstHit(interpretations, gestures => gestureData in gestures, "neutral")
  }

  /** Exact membership: the context of entry `i` is chosen iff the gesture is listed there and not earlier. */
  lemma MatchGestureIsFirstListing(gestureData: string, interpretations: Table<string>, i: nat)
    requires i < |interpretations| && gestureData in interpretations[i].1
    requires forall j :: 0 <= j < i ==> gestureData !in interpretations[j].1
    ensures MatchGestureToContext(gestureData, interpretations) == interpretations[i].0
  {
    FirstHitIsFirstMatch(interpretations, gestures => gestureData in gestures, "neutral", i);
  }

  /** `interpretContext`: one of the three contexts, or 'neutral'. */
  function InterpretContext(gestureData: string): (r: string)
    ensures r in {"positive", "help", "communication", "neutral"}
  {
    MatchGestureToContext(gestureData, GestureInterpretations)
  }

  /** An unlisted gesture, even one that merely contains a listed glyph, is 'neutral'. */
  lemma InterpretContextIsExact(gestureData: string)
    ensures InterpretContext(gestureData) == "neutral" <==>
      forall j :: 0 <= j < |GestureInterpretations| ==> gestureData !in GestureInterpretations[j].1
  {
    FirstHitAt(GestureInterpretations, gestures => gestureData in gestures, "neutral");
  }

  lemma DoubledGlyphIsNeutral()
    ensures InterpretContext("👍👍") == "neutral"
  {
    InterpretContextIsExact("👍👍");
  }

  datatype Strategy = Supportive | Motivational | Informative

  /** The `analysis` record of `processMultiModalInput`. */
  datatype Analysis = Analysis(voiceIntent: string, gestureContext: string, emotionalState: string)

  /** `chooseResponseStrategy`: stress first, then a 'motivation' intent, else information. */
  function ChooseResponseStrategy(analysis: Analysis): (s: Strategy)
    ensures s == Supportive <==> analysis.emotionalState == "stressed"
    ensures s == Motivational <==>
      analysis.emotionalState != "stressed" && analysis.voiceIntent == "motivation"
    ensures s == Informative <==>
      analysis.emotionalState != "stressed" && analysis.voiceIntent != "motivation"
  {
    if analysis.emotionalState == "stressed" then Supportive
    else if analysis.voiceIntent == "motivation" then Motivational
    else Informative
  }

  /** The `responseStrategies` table of `generateIntelligentResponse`. */
  function ResponseText(s: Strategy): string {
    match s
    case Supportive => "أنا هنا لمساعدتك في كل شيء"
    case Motivational => "أنت قوي وقادر على تحقيق أهدافك"
    case Informative => "دعني أساعدك في فهم المزيد"
  }

  /** `generateIntelligentResponse`: the canned text of the chosen strategy, one text per strategy. */
  function GenerateIntelligentResponse(analysis: Analysis): (r: string)
    ensures r == ResponseText(Supportive) <==> analysis.emotionalState == "stressed"
    ensures r == ResponseText(Motivational) <==>
      analysis.emotionalState != "stressed" && analysis.voiceIntent == "motivation"
    ensures analysis.emotionalState != "stressed" && analysis.voiceIntent != "motivation" ==>
      r == ResponseText(Informative)
  {
    ResponseText(ChooseResponseStrategy(analysis))
  }

  /**
   * `processMultiModalInput` (and `interact`, which only forwards to it).
   * The classifier never yields the intent 'motivation' that the strategy
   * tests for, so the reply is the supportive or the informative one, never
   * the motivational one.
   */
  function ProcessMultiModalInput(input: string, context: string): (r: string)
    ensures r in {ResponseText(Supportive), ResponseText(Informative)}
  {
    assert Classify(input) != "motivation";
    GenerateIntelligentResponse(Analysis(Classify(input), InterpretContext(context), AssessMood(input)))
  }

  /** A stress keyword in the input yields the supportive reply, whatever the intent or gesture. */
  lemma StressWinsOverIntent(input: string, context: string)
    ensures ProcessMultiModalInput(input, context) == ResponseText(Supportive) <==>
      AnyKeyword(MoodTable[0].1, input)
  {
    AssessMoodCases(input);
  }
}
