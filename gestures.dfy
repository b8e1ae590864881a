/**
 * `GestureTranslator.translateToGesture`: which gesture handler a spoken
 * command selects. What each handler then draws on the SVG is not modelled.
 */
module Gestures {
  import opened Text
  import opened KeywordTable
  import opened Wrappers

  /** The handler methods of `GestureTranslator`. */
  datatype Handler =
    | Wave | Goodbye | Point | Stop | ThumbsUp | ThumbsDown | RaiseHand
    | WalkTutorial | WalkingGesture | DefaultGesture

  /** Running the selected entry either calls a handler or throws, when the entry names no method. */
  datatype Outcome = Ran(handler: Handler) | TypeError

  /**
   * `gestureMap`, one keyword per entry, in declaration order. The entry for
   * 'وداعا' refers to `this.goodbye`, which `GestureTranslator` does not
   * define: its value is `undefined`, written `None` here.
   */
  const GestureMap: Table<Option<Handler>> := [
    (Some(Wave), ["مرحبا"]),
    (Some(Wave), ["أهلا"]),
    (None, ["وداعا"]),
    (Some(Point), ["اتصال"]),
    (Some(Stop), ["توقف"]),
    (Some(ThumbsUp), ["نعم"]),
    (Some(ThumbsDown), ["لا"]),
    (Some(RaiseHand), ["مساعدة"]),
    (Some(WalkTutorial), ["كيف أمشي"]),
    (Some(WalkTutorial), ["طريقة المشي"]),
    (Some(WalkingGesture), ["مشي"]),
    (Some(WalkingGesture), ["المشي"])
  ]

  /**
   * The selection rule over a given gesture table: first keyword found in
   * the command wins. A throw needs an unbound entry whose keyword occurs;
   * a handler other than the default is bound by an entry whose keyword occurs.
   */
  function Select(table: Table<Option<Handler>>, command: string): (r: Outcome)
    ensures r.TypeError? ==>
      exists j :: 0 <= j < |table| && table[j].0.None? && AnyKeyword(table[j].1, command)
    ensures r.Ran? && r.handler != DefaultGesture ==>
      exists j :: 0 <= j < |table| && table[j].0 == Some(r.handler) && AnyKeyword(table[j].1, command)
  {
    FirstHitIsHitLabelOrFallback(table, keywords => AnyKeyword(keywords, command), Some(DefaultGesture));
    match FirstHit(table, keywords => AnyKeyword(keywords, command), Some(DefaultGesture))
    case Some(h) => Ran(h)
    case None => TypeError
  }

  /**
   * The first entry whose keyword occurs in the command decides: it runs
   * that entry's handler, or throws when the entry names no method.
   */
  lemma SelectIsFirstMatch(table: Table<Option<Handler>>, command: string, i: nat)
    requires i < |table| && AnyKeyword(table[i].1, command)
    requires forall j :: 0 <= j < i ==> !AnyKeyword(table[j].1, command)
    ensures Select(table, command) == if table[i].0.Some? then Ran(table[i].0.value) else TypeError
  {
    FirstHitIsFirstMatch(table, keywords => AnyKeyword(keywords, command), Some(DefaultGesture), i);
  }

  /**
   * `translateToGesture` as written: no lower-casing, first match,
   * `defaultGesture` otherwise. It throws only on a farewell, and no command
   * ever runs a goodbye handler.
   */
  function TranslateToGesture(command: string): (r: Outcome)
    ensures r.TypeError? ==> Contains(command, "وداعا")
    ensures r != Ran(Goodbye)
  {
    GestureMapShape();
    Select(GestureMap, command)
  }

  /** Only the farewell entry is unbound, no entry binds `goodbye`, and the first seven never bind the help or walking handlers. */
  lemma GestureMapShape()
    ensures forall j :: 0 <= j < |GestureMap| ==> (GestureMap[j].0.None? <==> j == 2)
    ensures forall j :: 0 <= j < |GestureMap| ==> GestureMap[j].0 != Some(Goodbye)
    ensures forall j :: 0 <= j < |GestureMap| ==> GestureMap[j].0 != Some(DefaultGesture)
    ensures forall j :: 0 <= j <= 6 ==>
      GestureMap[j].0 in {Some(Wave), None, Some(Point), Some(Stop), Some(ThumbsUp), Some(ThumbsDown)}
    ensures GestureMap[2].1 == ["وداعا"]
  {
  }

  /**
   * As written, a farewell that no greeting precedes in the table throws:
   * `gesture.call` is invoked on `undefined`.
   */
  lemma FarewellThrows(command: string)
    requires Contains(command, "وداعا")
    requires !Contains(command, "مرحبا") && !Contains(command, "أهلا")
    ensures TranslateToGesture(command) == TypeError
  {
    FirstHitIsFirstMatch(GestureMap, keywords => AnyKeyword(keywords, command), Some(DefaultGesture), 2);
  }

  lemma FarewellAloneThrows()
    ensures TranslateToGesture("وداعا") == TypeError
  {
    assert OccursAt("وداعا", "وداعا", 0);
    AbsentChar("وداعا", "مرحبا", 'م');
    AbsentChar("وداعا", "أهلا", 'أ');
    FarewellThrows("وداعا");
  }

  /** The table with the farewell entry bound to a defined `goodbye` handler. */
  const FixedGestureMap: Table<Option<Handler>> := GestureMap[2 := (Some(Goodbye), ["وداعا"])]

  /** With every entry bound to a handler, no command makes the translator throw. */
  function TranslateToGestureFixed(command: string): (r: Outcome)
    ensures r.Ran?
  {
    Select(FixedGestureMap, command)
  }

  /** The fix changes nothing but the farewell: the same commands now run `goodbye`. */
  lemma FixedFarewellSaysGoodbye(command: string)
    requires Contains(command, "وداعا")
    requires !Contains(command, "مرحبا") && !Contains(command, "أهلا")
    ensures TranslateToGestureFixed(command) == Ran(Goodbye)
  {
    FirstHitIsFirstMatch(FixedGestureMap, keywords => AnyKeyword(keywords, command), Some(DefaultGesture), 2);
  }

  /**
   * The last entry, 'المشي', never decides: every command containing it also
   * contains the earlier keyword 'مشي'.
   */
  lemma LastWalkingEntryShadowed(command: string)
    ensures FirstHitIndex(GestureMap, keywords => AnyKeyword(keywords, command)) != 11
  {
    if Contains(command, "المشي") {
      assert OccursAt("المشي", "مشي", 2);
      ContainsTransitive(command, "المشي", "مشي");
    }
    ShadowedEntryNeverFirst(GestureMap, keywords => AnyKeyword(keywords, command), 10, 11);
  }

  /**
   * 'لا' is a short keyword that sits before the help and walking entries:
   * a command containing it never raises a hand, never walks and never falls
   * back to the default.
   */
  lemma NoKeywordPreemptsHelpAndWalking(command: string)
    requires Contains(command, "لا")
    ensures TranslateToGesture(command) !in
      {Ran(RaiseHand), Ran(WalkTutorial), Ran(WalkingGesture), Ran(DefaultGesture)}
  {
    var hit := keywords => AnyKeyword(keywords, command);
    assert "لا" in GestureMap[6].1;
    assert hit(GestureMap[6].1);
    FirstHitNoLaterThan(GestureMap, hit, Some(DefaultGesture), 6);
    GestureMapShape();
  }

  lemma BareNoIsThumbsDown()
    ensures TranslateToGesture("لا") == Ran(ThumbsDown)
  {
    assert OccursAt("لا", "لا", 0);
    assert Contains("لا", "لا");
    assert AnyKeyword(GestureMap[6].1, "لا");
    FirstHitIsFirstMatch(GestureMap, keywords => AnyKeyword(keywords, "لا"), Some(DefaultGesture), 6);
  }

  /**
   * `defaultGesture` runs exactly when no keyword of the map occurs in the
   * command: no entry of the map is bound to it.
   */
  lemma DefaultIffNoKeyword(command: string)
    ensures TranslateToGesture(command) == Ran(DefaultGesture) <==>
      forall j :: 0 <= j < |GestureMap| ==> !AnyKeyword(GestureMap[j].1, command)
  {
    var hit := keywords => AnyKeyword(keywords, command);
    FirstHitAt(GestureMap, hit, Some(DefaultGesture));
    GestureMapShape();
  }
}
