/**
 * `AccessibilityApp.handleVoiceCommand`: the page a recognised phrase
 * navigates to. Setting `window.location.href` is replaced by returning the
 * page; `None` means the command is ignored.
 */
module VoiceNavigation {
  import opened Text
  import opened KeywordTable
  import opened Wrappers

  const HearingPhrase := "الإعاقة السمعية"
  const VisualPhrase := "الإعاقة البصرية"
  const MotorPhrase := "الإعاقة الحركية"

  /** `navigationCommands`, one phrase per entry, in declaration order. */
  const NavigationCommands: Table<Option<string>> := [
    (Some("hearing.html"), [HearingPhrase]),
    (Some("visual.html"), [VisualPhrase]),
    (Some("motor.html"), [MotorPhrase])
  ]

  /** The page of the first phrase found in the command, if any: always one of the three pages. */
  function HandleVoiceCommand(command: string): (r: Option<string>)
    ensures r.Some? ==> r.value in {"hearing.html", "visual.html", "motor.html"}
  {
    FirstHitIsHitLabelOrFallback(NavigationCommands, keywords => AnyKeyword(keywords, command), None);
    FirstHit(NavigationCommands, keywords => AnyKeyword(keywords, command), None)
  }

  /** Each page is reached exactly when its phrase occurs and no earlier phrase does. */
  lemma HandleVoiceCommandCases(command: string)
    ensures HandleVoiceCommand(command) == Some("hearing.html") <==> Contains(command, HearingPhrase)
    ensures HandleVoiceCommand(command) == Some("visual.html") <==>
      !Contains(command, HearingPhrase) && Contains(command, VisualPhrase)
    ensures HandleVoiceCommand(command) == Some("motor.html") <==>
      !Contains(command, HearingPhrase) && !Contains(command, VisualPhrase) && Contains(command, MotorPhrase)
    ensures HandleVoiceCommand(command) == None <==>
      !Contains(command, HearingPhrase) && !Contains(command, VisualPhrase) && !Contains(command, MotorPhrase)
  {
    var hit := keywords => AnyKeyword(keywords, command);
    assert hit(NavigationCommands[0].1) == Contains(command, HearingPhrase);
    assert hit(NavigationCommands[1].1) == Contains(command, VisualPhrase);
    assert hit(NavigationCommands[2].1) == Contains(command, MotorPhrase);
    FirstHitAt(NavigationCommands, hit, None);
  }
}
