# Accessibility page: a verified model of its decision logic

The page (`app.js`) offers simulated accessibility aids: a voice "assistant"
that classifies Arabic phrases into intents and moods and picks a canned
reply, a gesture translator that picks an animation for a spoken phrase,
voice navigation between pages, a controller for three simulated household
devices (TV, air conditioner, washing machine), and a safety monitor that
keeps a short log of alerts. This project models the deterministic part of
it in Dafny and proves what that logic does.

- `text.dfy` (module `Text`): `includes` as substring occurrence, `toLowerCase`
  on ASCII capitals, decimal rendering of numbers.
- `keyword_table.dfy` (`KeywordTable`): the first-match lookup every
  classifier uses, over an explicit ordered `seq<(label, keywords)>`. It is
  a function (`FirstHit`) with lemmas, plus `FindFirst`, the `for … of`
  loop with early return, proved equal to it.
- `assistant.dfy` (`Assistant`): `classify`, `assessMood`,
  `matchGestureToContext`, `chooseResponseStrategy`,
  `generateIntelligentResponse` and `processMultiModalInput`.
- `gestures.dfy` (`Gestures`): which handler `translateToGesture` selects.
- `navigation.dfy` (`VoiceNavigation`): the page `handleVoiceCommand` opens.
- `devices.dfy` (`Devices`): the per-type state record, the registration
  list, the per-type handlers and the command router, written as functions
  from the old state to the new state plus the status message.
- `device_controller.dfy` (`DeviceControl`): the class `DeviceController`.
  Its two fields `devices` and `registeredDevices` are updated in place.
  Every method is proved against the functions of `Devices`.
- `safety.dfy` (`Safety`): the capped, newest-first alert log and the class
  that keeps it.

Behaviour worth knowing, all proved:

- State is keyed by device type. Every registration of type `tv` controls
  the same record, and which id is registered makes no difference
  (`ControlIgnoresWhichRegistration`).
- The phrase 'التلفاز' (the TV) comes first in the command table, and both
  TV-volume phrases contain it. So no spoken command ever changes the TV
  volume (`VolumeActionsUnreachable`, `CommandSequenceKeepsVolume`).
- `chooseResponseStrategy` tests for the intent 'motivation', which
  `classify` never returns. So the motivational reply is never produced
  (`ProcessMultiModalInput`).
- Switching the washing machine off does not stop a running wash
  (`RunningSurvivesPowerOff`).
- `removeDevice` uses `splice(index, 1)`. A negative index counts from the
  end, and an index past the end removes nothing.
- Registering an id that is already present changes nothing and raises
  no error (`Registered`); the alert the page shows then is not modelled.
- "رفع صوت التلفاز" (raise the TV volume) toggles the TV's power instead
  of raising the volume (see Findings).

## Model

| member | source | states |
|---|---|---|
| `Text.ToLower` | app.js:72 | lower-casing keeps the length and changes exactly the ASCII capitals, each to its small letter |
| `Text.ContainsIgnoresCase` | app.js:72-76 | for a keyword without ASCII letters, it occurs in the lower-cased input iff it occurs in the raw input |
| `Text.NatToStringDenotes` | app.js:708-711 | a natural number renders as decimal digits with no leading zero that read back as the number |
| `Text.IntToStringDenotes` | app.js:724-727 | an integer renders as its decimal digits, after '-' when negative, with no leading zero, and reads back as the number |
| `Text.Contains` | app.js:76 | `includes`: the empty keyword occurs in every string |
| `KeywordTable.FirstHitIndex` | app.js:75-79 | the position found is the first entry hit: no earlier entry is hit, and the one found is hit (or none is and it is the table length) |
| `KeywordTable.AnyKeyword` | app.js:76 | `keywords.some(k => input.includes(k))`: an empty list is never hit, a one-keyword list is hit iff its keyword occurs |
| `KeywordTable.FirstHitAt` | app.js:75-82 | `FirstHit`, the first-match rule, returns the label at the first hit position, or the fallback when no entry is hit |
| `KeywordTable.FirstHitIsFirstMatch` | app.js:75-79 | an entry that is hit, with no earlier entry hit, decides the result |
| `KeywordTable.NoHitGivesFallback` | app.js:81-82 | with no entry hit, the fallback label is returned |
| `KeywordTable.FirstHitNoLaterThan` | app.js:75-79 | an entry that is hit bounds the result to its own label or an earlier entry's label |
| `KeywordTable.ShadowedEntryNeverFirst` | app.js:75-79 | an entry that is only hit when an earlier entry is hit never decides the lookup |
| `KeywordTable.FirstHitIsHitLabelOrFallback` | app.js:75-82 | the result is the fallback or the label of an entry that is hit |
| `KeywordTable.FindFirst` | app.js:75-82 | the early-return loop over the entries returns exactly the first-match result |
| `Assistant.Classify` | app.js:61-83 | the intent is one of help, navigation, information, control, emotional_support, general |
| `Assistant.AnyKeywordIgnoresCase` | app.js:72-76 | a keyword list without ASCII letters is hit by the lower-cased input iff it is hit by the raw input |
| `Assistant.IntentTableIsCaseless` | app.js:61-67 | no intent keyword contains an ASCII letter |
| `Assistant.ClassifyHitsRawInput` | app.js:61-76 | every intent entry is hit by the lower-cased input exactly when it is hit by the raw input |
| `Assistant.ClassifyReturnsFirstMatchingIntent` | app.js:70-79 | the first intent in table order with a keyword in the input is returned; earlier entries win ties |
| `Assistant.ClassifyGeneralIffNoKeyword` | app.js:81-82 | 'general' is returned iff no keyword of any intent occurs in the input |
| `Assistant.AssessMood` | app.js:122-136 | the mood is one of stressed, motivated, neutral |
| `Assistant.AssessMoodCases` | app.js:123-135 | 'stressed' iff a stress keyword occurs; 'motivated' iff a motivation keyword occurs and no stress keyword; 'neutral' otherwise |
| `Assistant.MatchGestureToContext` | app.js:111-116 | the result is 'neutral' or the context of an entry listing the gesture exactly; a gesture listed nowhere gives 'neutral' |
| `Assistant.InterpretContext` | app.js:100-117 | the context is one of positive, help, communication, neutral |
| `Assistant.MatchGestureIsFirstListing` | app.js:111-115 | the first context whose list holds the gesture exactly is returned |
| `Assistant.InterpretContextIsExact` | app.js:100-117 | 'neutral' iff the gesture is not listed exactly in any context |
| `Assistant.DoubledGlyphIsNeutral` | app.js:103-116 | a doubled thumbs-up, which contains a listed glyph but is not one, is 'neutral' |
| `Assistant.ChooseResponseStrategy` | app.js:50-55 | supportive iff the mood is 'stressed'; motivational iff not stressed and the intent is 'motivation'; informative otherwise |
| `Assistant.GenerateIntelligentResponse` | app.js:38-48 | the supportive text is produced iff the mood is 'stressed', the motivational text iff not stressed and the intent is 'motivation'; otherwise the informative text |
| `Assistant.StressWinsOverIntent` | app.js:27-55 | the multi-modal reply is the supportive one iff a stress keyword occurs in the input, whatever the intent and gesture |
| `Assistant.ProcessMultiModalInput` | app.js:21-55 | the reply is the supportive or the informative text, never the motivational one, because `classify` never yields 'motivation' |
| `Gestures.Select` | app.js:429-437 | a throw needs an unbound entry whose keyword occurs; a handler other than the default is bound by an entry whose keyword occurs |
| `Gestures.SelectIsFirstMatch` | app.js:429-437 | when entry i is the first whose keyword occurs, its handler runs, or the call throws if the entry is unbound |
| `Gestures.TranslateToGesture` | app.js:406-437 | as written, a command throws only if it contains 'وداعا', and no command runs a goodbye handler |
| `Gestures.GestureMapShape` | app.js:411-426 | only the 'وداعا' entry is unbound, no entry binds `goodbye` or the default handler, the first seven entries bind none of the help or walking handlers |
| `Gestures.FarewellThrows` | app.js:411-432 | as written, a command with the farewell keyword and no greeting keyword selects an undefined handler and throws |
| `Gestures.FarewellAloneThrows` | app.js:414 | as written, the farewell word alone throws |
| `Gestures.TranslateToGestureFixed` | app.js:411-437 | with the farewell entry bound to a handler, no command throws |
| `Gestures.FixedFarewellSaysGoodbye` | app.js:411-432 | with the farewell entry bound, those same commands run the goodbye handler |
| `Gestures.LastWalkingEntryShadowed` | app.js:424-425 | the last entry 'المشي' never decides, because every command containing it contains the earlier 'مشي' |
| `Gestures.DefaultIffNoKeyword` | app.js:429-437 | the default gesture runs iff no keyword of the map occurs in the command |
| `Gestures.NoKeywordPreemptsHelpAndWalking` | app.js:418-437 | a command containing 'لا' never selects the help, walking or default handlers |
| `Gestures.BareNoIsThumbsDown` | app.js:418 | the bare word 'لا' selects thumbs-down |
| `VoiceNavigation.HandleVoiceCommand` | app.js:283-299 | a page is opened only among hearing.html, visual.html, motor.html |
| `VoiceNavigation.HandleVoiceCommandCases` | app.js:283-299 | each page is opened iff its phrase occurs and no earlier phrase does; nothing happens iff no phrase occurs |
| `Devices.TvStep` | app.js:701-715 | only 'power' flips power, and it reports the new on/off state; only volume actions move the volume; volume stays in [0,100]; volume-up gives min(v + 10, 100) and volume-down max(v - 10, 0); the message reports the new volume; an unknown action changes nothing and says so |
| `Devices.AcStep` | app.js:717-731 | only 'power' flips power, and it reports the new on/off state; only temperature actions move the temperature; temp-up gives min(t + 1, 30) and temp-down max(t - 1, 16), so it stays in [16,30]; the message reports the new temperature; an unknown action changes nothing and says so |
| `Devices.WashingMachineStep` | app.js:733-750 | 'start' without power changes nothing and asks to switch on first; with power it sets running and says the wash began; 'stop' clears running and says the wash stopped; 'power' flips power, keeps `running` and reports the new on/off state; a wash only starts on a powered machine; an unknown action changes nothing and says so |
| `Devices.RunningSurvivesPowerOff` | app.js:735-746 | power on, start, power off leaves the machine running while off |
| `Devices.Find` | app.js:574-576 | `find` returns nothing iff no registration satisfies the test, else the first that does |
| `Devices.FindByType` | app.js:672-674 | the registration found has the requested type and is in the list; nothing is found iff no registration has that type |
| `Devices.Registered` | app.js:572-585 | a known id leaves the list unchanged; a new id is appended as `{id, type}` at the end; the id is then present and ids stay unique |
| `Devices.RegisterTwiceKeepsFirst` | app.js:574-581 | registering an id again, with any type, changes nothing |
| `Devices.SpliceStart` | app.js:619 | the removal position is within the list length |
| `Devices.Spliced` | app.js:619 | `splice(index, 1)` removes the element at the index and keeps the order of the rest; a negative index counts from the end; past the end nothing is removed |
| `Devices.SplicedKeepsUniqueIds` | app.js:617-619 | removal keeps registration ids unique |
| `Devices.RemovedAtShifts` | app.js:619 | after removing position k, the elements before it stay and the ones after it move down by one |
| `Devices.ControlStep` | app.js:670-699 | an unregistered type changes nothing and yields the not-registered message; a registered 'tv', 'ac' or 'washing-machine' runs that type's handler on its record and returns its message; any other registered type changes nothing and yields an empty message; only the named type's record changes; ranges are kept |
| `Devices.ControlIgnoresWhichRegistration` | app.js:672-683 | a control call depends only on whether some device of that type is registered, not on which one |
| `Devices.ControlCallsKeepRanges` | app.js:706-727 | no sequence of control calls takes the volume out of [0,100] or the temperature out of [16,30] |
| `Devices.VolumeUpSaturates` | app.js:706-708 | n volume-ups from an in-range volume v give min(v + 10n, 100) |
| `Devices.TwentyVolumeUpsFromFifty` | app.js:706-708 | twenty volume-ups from 50 give exactly 100 |
| `Devices.TemperatureDownSaturates` | app.js:725-727 | n temperature-downs from an in-range t give max(t - n, 16) |
| `Devices.Route` | app.js:660-665 | a route is chosen only through an entry whose phrase occurs; with every entry bound, no route means no phrase occurs |
| `Devices.RouteIsFirstMatch` | app.js:660-665 | when entry i is the first whose phrase occurs, the route is that entry's (type, action) pair |
| `Devices.ProcessWith` | app.js:648-668 | with no phrase found, nothing changes and the not-understood message names the command; with a route, the result is that control call; ranges are kept |
| `Devices.TvNameSelectsPower` | app.js:650 | any command containing 'التلفاز' selects the TV power toggle |
| `Devices.TvNameTogglesPower` | app.js:650 | with a TV registered, any command containing 'التلفاز' toggles the TV's power and reports the new state |
| `Devices.VolumeActionsUnreachable` | app.js:650-654 | no command is routed to volume-up or volume-down |
| `Devices.CommandStep` | app.js:648-668 | as written, no spoken command changes the TV volume, and ranges are kept |
| `Devices.CommandSequenceKeepsVolume` | app.js:648-668 | no sequence of spoken commands changes the TV volume |
| `Devices.VolumeUpPhraseTogglesPower` | app.js:650-653 | as written, "رفع صوت التلفاز" with a TV registered toggles the TV's power and reports it |
| `Devices.FixedTableReachesEveryAction` | app.js:649-658 | with the specific phrases first, each phrase said alone selects its own action |
| `Devices.FixedVolumeUpPhraseRaisesVolume` | app.js:653 | with the fixed order, "رفع صوت التلفاز" raises a registered TV's volume by one clamped step and reports it |
| `Devices.FixedVolumeUpFromFifty` | app.js:653 | with the fixed order, volume 50 becomes 60 and the message says 60 |
| `DeviceControl.DeviceController.constructor` | app.js:524-546 | initial states (TV off at 50, AC off at 22, washer off and idle) and no registrations |
| `DeviceControl.DeviceController.RegisterDevice` | app.js:572-589 | a duplicate id is refused and nothing changes; a new id is appended at the end; device states untouched |
| `DeviceControl.DeviceController.RemoveDevice` | app.js:617-623 | the list becomes its `splice(index, 1)`; device states untouched; ids stay unique |
| `DeviceControl.DeviceController.ControlTv` | app.js:701-715 | the shared TV record and message follow `TvStep`; other records and the list untouched |
| `DeviceControl.DeviceController.ControlAc` | app.js:717-731 | the shared AC record and message follow `AcStep`; other records and the list untouched |
| `DeviceControl.DeviceController.ControlWashingMachine` | app.js:733-750 | the shared washer record and message follow `WashingMachineStep`; other records and the list untouched |
| `DeviceControl.DeviceController.ControlDevice` | app.js:670-699 | an unregistered type mutates nothing and only reports so; otherwise the type's handler runs; the list is untouched |
| `DeviceControl.DeviceController.ProcessDeviceCommand` | app.js:648-668 | runs the first matching phrase's action, or changes nothing and reports the command not understood; never changes the TV volume |
| `Safety.Logged` | app.js:924-936 | the new entry is at index 0; from at most ten entries the log becomes the first ten of the new entry followed by the old log |
| `Safety.LogIsNewestTenOfHistory` | app.js:924-936 | after any calls the log is the newest ten of all messages, newest first, followed by the earlier log |
| `Safety.LogStaysBoundedAndOrdered` | app.js:929-934 | at most ten entries, the latest message first, the survivors in logging order |
| `Safety.NavigationSafetyManager.constructor` | app.js:761-765 | the log starts empty |
| `Safety.NavigationSafetyManager.LogAlert` | app.js:924-936 | prepend then drop the last entry above ten; the log stays at most ten, newest at index 0 |

## Findings

| source | as written | input that shows it | evidently intended | confidence | as-written member | corrected member |
|---|---|---|---|---|---|---|
| app.js:649-654 | 'التلفاز' is tried before 'رفع صوت التلفاز' and 'خفض صوت التلفاز', and both contain it | "رفع صوت التلفاز" with a TV registered toggles power instead of raising the volume | the volume phrases reach the volume actions (volume 50 becomes 60) | high; not executed | `Devices.VolumeUpPhraseTogglesPower` | `Devices.FixedVolumeUpFromFifty` |
| app.js:414 | the entry for 'وداعا' refers to `this.goodbye`, which `GestureTranslator` does not define | "وداعا" makes `gesture.call` run on `undefined` and throw a TypeError | a farewell gesture handler runs | high; not executed | `Gestures.FarewellAloneThrows` | `Gestures.FixedFarewellSaysGoodbye` |

The class `DeviceController` and the function `TranslateToGesture` keep the
as-written tables because they model the page as it is. The corrected tables
(`FixedDeviceCommands`, `FixedGestureMap`) are used by `CommandStepFixed` and
`TranslateToGestureFixed`, and the corrected properties are proved about
those.

## Left out

- DOM lookups, `textContent`/`innerHTML` writes, list re-rendering and event-listener wiring (app.js:191-257, 548-570, 591-615, 752-757, 767-815, 873-890). Status texts are returned instead of displayed.
- Speech recognition and synthesis, geolocation, audio playback and `alert` (app.js:259-281, 327-394, 625-646, 847-864, 917-922). These are platform APIs. Before calling the modelled functions, the gesture callback trims the transcript (app.js:230), and the navigation and device callbacks trim and lower-case it (app.js:267, 633). That preprocessing is not modelled.
- The `setInterval` detectors driven by `Math.random`, and the safety toggles, emergency contacts and alert triggers of `NavigationSafetyManager` (app.js:760-922). Only the log buffer they write to is modelled.
- The time-of-day prefix of each log entry (app.js:928). It is locale-dependent and non-deterministic. The guard for a missing log container (app.js:926) is also left out: the model assumes the container exists.
- Safety.NavigationSafetyManager.LogAlert: the container is assumed to start empty (its initial content comes from the page markup, which the constructor at app.js:761-765 never sets) and to hold only element children. The page counts element `children` but removes `lastChild`, any node (app.js:932-933). Trailing whitespace text in the container would be removed first, and the log would then hold 11 entries. A static child would be evicted like an entry.
- What the gesture handlers draw (app.js:440-520). Only which handler is selected is modelled.
- `PersonalizationEngine` and `ContextualAssistanceSystem` (app.js:139-183). They are a map wrapper and a constant lookup.
- Text.ToLower: only ASCII capitals are lowered. JavaScript also lowers other cased scripts. Every keyword is Arabic or emoji and has no case, and `ContainsIgnoresCase` shows that lowering never changes a match against such keywords.
- Text.Contains: compares Unicode code points rather than UTF-16 code units. The two agree for the well-formed strings used here.
- RegisterDevice: the duplicate-id `alert` is replaced by the result `added == false`.
- Numbers are unbounded integers. Volume and temperature stay far from any floating-point limit.
