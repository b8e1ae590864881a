/**
 * The simulated household devices behind `DeviceController`: the per-type
 * state record, the registration list, the per-type handlers and the
 * command router, as functions from the old state to the new state and the
 * status message. The class in device_controller.dfy is proved against them.
 */
module Devices {
  import opened Text
  import opened KeywordTable
  import opened Wrappers

  datatype TvState = TvState(power: bool, volume: int, channel: int)
  datatype AcState = AcState(power: bool, temperature: int, mode: string)
  datatype WashingMachineState = WashingMachineState(power: bool, running: bool, program: string)

  /**
   * The `devices` record: ONE state per device type. Every registration of
   * a type controls this same record; registrations carry no state.
   */
  datatype DeviceStates = DeviceStates(tv: TvState, ac: AcState, washingMachine: WashingMachineState)

  const InitialDevices := DeviceStates(
    TvState(false, 50, 1),
    AcState(false, 22, "cool"),
    WashingMachineState(false, false, "normal"))

  const MinVolume := 0
  const MaxVolume := 100
  const VolumeStep := 10
  const MinTemperature := 16
  const MaxTemperature := 30
  const TemperatureStep := 1

  /** The bounds the handlers clamp to. */
  predicate InRange(d: DeviceStates) {
    MinVolume <= d.tv.volume <= MaxVolume && MinTemperature <= d.ac.temperature <= MaxTemperature
  }

  function Min(a: int, b: int): int { if a < b then a else b }
  function Max(a: int, b: int): int { if a < b then b else a }

  /** The word the power messages insert: switched on, or switched off. */
  function OnOff(power: bool): string { if power then "تشغيل" else "إيقاف" }

  /** `controlTV`: the TV record afterwards and the status message. */
  function TvStep(tv: TvState, action: string): (r: (TvState, string))
    ensures r.0.channel == tv.channel
    ensures r.0.power != tv.power <==> action == "power"
    ensures action != "volume-up" && action != "volume-down" ==> r.0.volume == tv.volume
    ensures MinVolume <= tv.volume <= MaxVolume ==> MinVolume <= r.0.volume <= MaxVolume
    ensures action == "volume-up" && tv.volume <= MaxVolume ==>
      tv.volume <= r.0.volume <= tv.volume + VolumeStep &&
      (r.0.volume == MaxVolume || r.0.volume == tv.volume + VolumeStep) &&
      r.1 == "تم رفع الصوت إلى " + IntToString(r.0.volume)
    ensures action == "volume-down" && tv.volume >= MinVolume ==>
      tv.volume - VolumeStep <= r.0.volume <= tv.volume &&
      (r.0.volume == MinVolume || r.0.volume == tv.volume - VolumeStep) &&
      r.1 == "تم خفض الصوت إلى " + IntToString(r.0.volume)
    ensures action == "volume-up" ==> r.0.volume == Min(tv.volume + VolumeStep, MaxVolume)
    ensures action == "volume-down" ==> r.0.volume == Max(tv.volume - VolumeStep, MinVolume)
    ensures action == "power" ==> r == (tv.(power := !tv.power), "تم " + OnOff(!tv.power) + " التلفاز")
    ensures action !in {"power", "volume-up", "volume-down"} ==> r == (tv, "أمر غير معروف للتلفاز")
  {
    if action == "power" then
      var t := tv.(power := !tv.power);
      (t, "تم " + OnOff(t.power) + " التلفاز")
    else if action == "volume-up" then
      var t := tv.(volume := Min(tv.volume + VolumeStep, MaxVolume));
      (t, "تم رفع الصوت إلى " + IntToString(t.volume))
    else if action == "volume-down" then
      var t := tv.(volume := Max(tv.volume - VolumeStep, MinVolume));
      (t, "تم خفض الصوت إلى " + IntToString(t.volume))
    else
      (tv, "أمر غير معروف للتلفاز")
  }

  /** `controlAC`: the air-conditioner record afterwards and the status message. */
  function AcStep(ac: AcState, action: string): (r: (AcState, string))
    ensures r.0.mode == ac.mode
    ensures r.0.power != ac.power <==> action == "power"
    ensures action != "temp-up" && action != "temp-down" ==> r.0.temperature == ac.temperature
    ensures MinTemperature <= ac.temperature <= MaxTemperature ==>
      MinTemperature <= r.0.temperature <= MaxTemperature
    ensures action == "temp-up" && ac.temperature <= MaxTemperature ==>
      ac.temperature <= r.0.temperature <= ac.temperature + TemperatureStep &&
      r.1 == "تم رفع درجة الحرارة إلى " + IntToString(r.0.temperature)
    ensures action == "temp-down" && ac.temperature >= MinTemperature ==>
      ac.temperature - TemperatureStep <= r.0.temperature <= ac.temperature &&
      r.1 == "تم خفض درجة الحرارة إلى " + IntToString(r.0.temperature)
    ensures action == "temp-up" ==> r.0.temperature == Min(ac.temperature + TemperatureStep, MaxTemperature)
    ensures action == "temp-down" ==> r.0.temperature == Max(ac.temperature - TemperatureStep, MinTemperature)
    ensures action == "power" ==> r == (ac.(power := !ac.power), "تم " + OnOff(!ac.power) + " المكيف")
    ensures action !in {"power", "temp-up", "temp-down"} ==> r == (ac, "أمر غير معروف للمكيف")
  {
    if action == "power" then
      var a := ac.(power := !ac.power);
      (a, "تم " + OnOff(a.power) + " المكيف")
    else if action == "temp-up" then
      var a := ac.(temperature := Min(ac.temperature + TemperatureStep, MaxTemperature));
      (a, "تم رفع درجة الحرارة إلى " + IntToString(a.temperature))
    else if action == "temp-down" then
      var a := ac.(temperature := Max(ac.temperature - TemperatureStep, MinTemperature));
      (a, "تم خفض درجة الحرارة إلى " + IntToString(a.temperature))
    else
      (ac, "أمر غير معروف للمكيف")
  }

  const TurnOnFirst := "يرجى تشغيل الغسالة أولاً"

  /**
   * `controlWashingMachine`: 'start' needs power and otherwise changes
   * nothing; 'stop' always clears `running`; only 'power' flips the power.
   */
  function WashingMachineStep(w: WashingMachineState, action: string): (r: (WashingMachineState, string))
    ensures r.0.program == w.program
    ensures r.0.power != w.power <==> action == "power"
    ensures r.0.running && !w.running ==> action == "start" && w.power
    ensures action == "start" && !w.power ==> r == (w, TurnOnFirst)
    ensures action == "start" && w.power ==> r == (w.(running := true), "بدأ برنامج الغسيل")
    ensures action == "stop" ==> r == (w.(running := false), "تم إيقاف الغسيل")
    ensures action == "power" ==> r == (w.(power := !w.power), "تم " + OnOff(!w.power) + " الغسالة")
    ensures action !in {"power", "start", "stop"} ==> r == (w, "أمر غير معروف للغسالة")
  {
    if action == "power" then
      var m := w.(power := !w.power);
      (m, "تم " + OnOff(m.power) + " الغسالة")
    else if action == "start" then
      if w.power then (w.(running := true), "بدأ برنامج الغسيل")
      else (w, TurnOnFirst)
    else if action == "stop" then
      (w.(running := false), "تم إيقاف الغسيل")
    else
      (w, "أمر غير معروف للغسالة")
  }

  /**
   * Powering the machine off does not stop a running wash: power on, start,
   * power off leaves it running while switched off.
   */
  lemma RunningSurvivesPowerOff()
    ensures var w0 := InitialDevices.washingMachine;
      var w1 := WashingMachineStep(w0, "power").0;
      var w2 := WashingMachineStep(w1, "start").0;
      var w3 := WashingMachineStep(w2, "power").0;
      w3.running && !w3.power
  {
  }

  /** A registered device: only its id and its type. */
  datatype Registration = Registration(id: string, deviceType: string)

  /** Position `i` holds the first registration satisfying `p`. */
  predicate FirstSatisfying(regs: seq<Registration>, p: Registration -> bool, i: int) {
    0 <= i < |regs| && p(regs[i]) && forall j :: 0 <= j < i ==> !p(regs[j])
  }

  /** `registeredDevices.find(p)`: the first registration satisfying `p`. */
  function Find(regs: seq<Registration>, p: Registration -> bool): (r: Option<Registration>)
    ensures r.None? <==> forall i :: 0 <= i < |regs| ==> !p(regs[i])
    ensures r.Some? ==> exists i :: FirstSatisfying(regs, p, i) && regs[i] == r.value
  {
    if |regs| == 0 then None
    else if p(regs[0]) then
      assert FirstSatisfying(regs, p, 0);
      Some(regs[0])
    else
      var r := Find(regs[1..], p);
      if r.Some? then
        var i :| FirstSatisfying(regs[1..], p, i) && regs[1..][i] == r.value;
        assert FirstSatisfying(regs, p, i + 1);
        r
      else r
  }

  /** `registeredDevices.find(d => d.type === deviceType)`. */
  function FindByType(regs: seq<Registration>, deviceType: string): (r: Option<Registration>)
    ensures r.Some? ==> r.value in regs && r.value.deviceType == deviceType
    ensures r.None? <==> forall i :: 0 <= i < |regs| ==> regs[i].deviceType != deviceType
  {
    Find(regs, (r: Registration) => r.deviceType == deviceType)
  }

  predicate HasId(regs: seq<Registration>, id: string) {
    exists i :: 0 <= i < |regs| && regs[i].id == id
  }

  predicate UniqueIds(regs: seq<Registration>) {
    forall i, j :: 0 <= i < j < |regs| ==> regs[i].id != regs[j].id
  }

  /**
   * `registerDevice`: a known id leaves the list as it is; a new id is
   * appended with its type at the end, and ids stay unique.
   */
  function Registered(regs: seq<Registration>, id: string, deviceType: string): (r: seq<Registration>)
    ensures HasId(regs, id) ==> r == regs
    ensures !HasId(regs, id) ==> r == regs + [Registration(id, deviceType)]
    ensures HasId(r, id)
    ensures UniqueIds(regs) ==> UniqueIds(r)
  {
    if Find(regs, (r: Registration) => r.id == id).Some? then regs
    else
      var r := regs + [Registration(id, deviceType)];
      assert r[|regs|].id == id;
      r
  }

  /** Registering an id a second time, with any type, is refused: one entry stays. */
  lemma RegisterTwiceKeepsFirst(regs: seq<Registration>, id: string, t1: string, t2: string)
    ensures Registered(Registered(regs, id, t1), id, t2) == Registered(regs, id, t1)
  {
  }

  /** The position `splice(start, 1)` removes at, per ECMAScript: negative counts from the end. */
  function SpliceStart(len: nat, start: int): (k: nat)
    ensures k <= len
  {
    if start < 0 then (if len + start < 0 then 0 else len + start)
    else if start > len then len
    else start
  }

  /**
   * `s.splice(start, 1)`: removes one element at the normalised position,
   * keeping the order of the others; an index past the end removes nothing.
   */
  function Spliced<T>(s: seq<T>, start: int): (r: seq<T>)
    ensures 0 <= start < |s| ==>
      |r| == |s| - 1 && forall j :: 0 <= j < |r| ==> r[j] == if j < start then s[j] else s[j + 1]
    ensures start >= |s| ==> r == s
    ensures -|s| <= start < 0 ==> r == s[..|s| + start] + s[|s| + start + 1..]
    ensures start < -|s| ==> r == if |s| == 0 then s else s[1..]
    ensures multiset(r) <= multiset(s)
  {
    var k := SpliceStart(|s|, start);
    if k < |s| then
      assert s == s[..k] + [s[k]] + s[k + 1..];
      s[..k] + s[k + 1..]
    else s
  }

  /** Removal keeps registration ids unique. */
  lemma {:induction false} SplicedKeepsUniqueIds(regs: seq<Registration>, index: int)
    requires UniqueIds(regs)
    ensures UniqueIds(Spliced(regs, index))
  {
    var k := SpliceStart(|regs|, index);
    var r := Spliced(regs, index);
    if k < |regs| {
      RemovedAtShifts(regs, k, r);
      forall i, j | 0 <= i < j < |r| ensures r[i].id != r[j].id {
        var i' := if i < k then i else i + 1;
        var j' := if j < k then j else j + 1;
        assert r[i] == regs[i'] && r[j] == regs[j'];
      }
    }
  }

  /** After removing position `k`, later elements move down by one. */
  lemma RemovedAtShifts<T>(s: seq<T>, k: nat, r: seq<T>)
    requires k < |s| && r == s[..k] + s[k + 1..]
    ensures |r| == |s| - 1
    ensures forall i :: 0 <= i < |r| ==> r[i] == s[if i < k then i else i + 1]
  {
  }

  /**
   * `controlDevice`: an unregistered type changes nothing and only reports
   * so; otherwise the handler of that type updates that type's record alone.
   */
  function ControlStep(d: DeviceStates, regs: seq<Registration>, deviceName: string, action: string)
    : (r: (DeviceStates, string))
    ensures FindByType(regs, deviceName).None? ==> r == (d, "الجهاز " + deviceName + " غير مسجل")
    ensures FindByType(regs, deviceName).Some? && deviceName == "tv" ==>
      r == (d.(tv := TvStep(d.tv, action).0), TvStep(d.tv, action).1)
    ensures FindByType(regs, deviceName).Some? && deviceName == "ac" ==>
      r == (d.(ac := AcStep(d.ac, action).0), AcStep(d.ac, action).1)
    ensures FindByType(regs, deviceName).Some? && deviceName == "washing-machine" ==>
      r == (d.(washingMachine := WashingMachineStep(d.washingMachine, action).0),
            WashingMachineStep(d.washingMachine, action).1)
    ensures FindByType(regs, deviceName).Some? && deviceName !in {"tv", "ac", "washing-machine"} ==> r == (d, "")
    ensures deviceName != "tv" ==> r.0.tv == d.tv
    ensures deviceName != "ac" ==> r.0.ac == d.ac
    ensures deviceName != "washing-machine" ==> r.0.washingMachine == d.washingMachine
    ensures InRange(d) ==> InRange(r.0)
  {
    if FindByType(regs, deviceName).None? then (d, "الجهاز " + deviceName + " غير مسجل")
    else if deviceName == "tv" then
      var (t, m) := TvStep(d.tv, action);
      (d.(tv := t), m)
    else if deviceName == "ac" then
      var (a, m) := AcStep(d.ac, action);
      (d.(ac := a), m)
    else if deviceName == "washing-machine" then
      var (w, m) := WashingMachineStep(d.washingMachine, action);
      (d.(washingMachine := w), m)
    else
      (d, "")
  }

  /**
   * State is keyed by type: which device of that type is registered, and
   * under which id, makes no difference to a control call.
   */
  lemma ControlIgnoresWhichRegistration(d: DeviceStates, regs1: seq<Registration>, regs2: seq<Registration>,
                                        deviceName: string, action: string)
    requires FindByType(regs1, deviceName).Some? == FindByType(regs2, deviceName).Some?
    ensures ControlStep(d, regs1, deviceName, action) == ControlStep(d, regs2, deviceName, action)
  {
  }

  /** A sequence of `controlDevice(name, action)` calls, in order. */
  function ControlAll(d: DeviceStates, regs: seq<Registration>, calls: seq<(string, string)>): DeviceStates
    decreases |calls|
  {
    if |calls| == 0 then d
    else ControlAll(ControlStep(d, regs, calls[0].0, calls[0].1).0, regs, calls[1..])
  }

  /** No sequence of control calls moves the volume out of [0, 100] or the temperature out of [16, 30]. */
  lemma {:induction false} ControlCallsKeepRanges(d: DeviceStates, regs: seq<Registration>, calls: seq<(string, string)>)
    requires InRange(d)
    ensures InRange(ControlAll(d, regs, calls))
    decreases |calls|
  {
    if |calls| > 0 {
      ControlCallsKeepRanges(ControlStep(d, regs, calls[0].0, calls[0].1).0, regs, calls[1..]);
    }
  }

  /** `n` consecutive applications of one TV action. */
  function TvRepeat(tv: TvState, action: string, n: nat): TvState
    decreases n
  {
    if n == 0 then tv else TvRepeat(TvStep(tv, action).0, action, n - 1)
  }

  /** Volume-up saturates: `n` presses from an in-range volume give min(volume + 10n, 100). */
  lemma {:induction false} VolumeUpSaturates(tv: TvState, n: nat)
    requires MinVolume <= tv.volume <= MaxVolume
    ensures TvRepeat(tv, "volume-up", n).volume == Min(tv.volume + VolumeStep * n, MaxVolume)
    decreases n
  {
    if n > 0 {
      var t := TvStep(tv, "volume-up").0;
      VolumeUpSaturates(t, n - 1);
    }
  }

  lemma TwentyVolumeUpsFromFifty(tv: TvState)
    requires tv.volume == 50
    ensures TvRepeat(tv, "volume-up", 20).volume == 100
  {
    VolumeUpSaturates(tv, 20);
  }

  /** `n` consecutive applications of one air-conditioner action. */
  function AcRepeat(ac: AcState, action: string, n: nat): AcState
    decreases n
  {
    if n == 0 then ac else AcRepeat(AcStep(ac, action).0, action, n - 1)
  }

  /** Temperature-down saturates: `n` presses give max(temperature - n, 16). */
  lemma {:induction false} TemperatureDownSaturates(ac: AcState, n: nat)
    requires MinTemperature <= ac.temperature <= MaxTemperature
    ensures AcRepeat(ac, "temp-down", n).temperature == Max(ac.temperature - TemperatureStep * n, MinTemperature)
    decreases n
  {
    if n > 0 {
      var a := AcStep(ac, "temp-down").0;
      TemperatureDownSaturates(a, n - 1);
    }
  }

  const TvName := "التلفاز"
  const VolumeUpPhrase := "رفع صوت التلفاز"
  const VolumeDownPhrase := "خفض صوت التلفاز"

  /** `deviceCommands` of `processDeviceCommand`: phrase -> (device type, action), in declaration order. */
  const DeviceCommands: Table<Option<(string, string)>> := [
    (Some(("tv", "power")), [TvName]),
    (Some(("ac", "power")), ["التكييف"]),
    (Some(("washing-machine", "power")), ["الغسالة"]),
    (Some(("tv", "volume-up")), [VolumeUpPhrase]),
    (Some(("tv", "volume-down")), [VolumeDownPhrase]),
    (Some(("ac", "temp-up")), ["رفع درجة الحرارة"]),
    (Some(("ac", "temp-down")), ["خفض درجة الحرارة"]),
    (Some(("washing-machine", "start")), ["بدء الغسيل"])
  ]

  /** The (device type, action) pair the first phrase found in the command selects, if any. */
  function Route(table: Table<Option<(string, string)>>, command: string): (r: Option<(string, string)>)
    ensures r.Some? ==> exists j :: 0 <= j < |table| && table[j].0 == r && AnyKeyword(table[j].1, command)
    ensures r.None? && (forall j :: 0 <= j < |table| ==> table[j].0.Some?) ==>
      forall j :: 0 <= j < |table| ==> !AnyKeyword(table[j].1, command)
  {
    FirstHitAt(table, keywords => AnyKeyword(keywords, command), None);
    FirstHit(table, keywords => AnyKeyword(keywords, command), None)
  }

  /**
   * The first entry whose phrases occur in the command decides the route:
   * its (type, action) pair, or no route when that entry is unbound.
   */
  lemma RouteIsFirstMatch(table: Table<Option<(string, string)>>, command: string, i: nat)
    requires i < |table| && AnyKeyword(table[i].1, command)
    requires forall j :: 0 <= j < i ==> !AnyKeyword(table[j].1, command)
    ensures Route(table, command) == table[i].0
  {
    FirstHitIsFirstMatch(table, keywords => AnyKeyword(keywords, command), None, i);
  }

  /** `processDeviceCommand` over a given command table. */
  function ProcessWith(table: Table<Option<(string, string)>>, d: DeviceStates, regs: seq<Registration>,
                       command: string): (r: (DeviceStates, string))
    ensures Route(table, command).None? ==> r == (d, "أمر غير مفهوم: " + command)
    ensures Route(table, command).Some? ==>
      r == ControlStep(d, regs, Route(table, command).value.0, Route(table, command).value.1)
    ensures InRange(d) ==> InRange(r.0)
  {
    match Route(table, command)
    case None => (d, "أمر غير مفهوم: " + command)
    case Some((deviceName, action)) => ControlStep(d, regs, deviceName, action)
  }

  /**
   * `processDeviceCommand` as written. Since no command reaches the volume
   * actions (lemma below), no spoken command changes the TV volume.
   */
  function CommandStep(d: DeviceStates, regs: seq<Registration>, command: string): (r: (DeviceStates, string))
    ensures r.0.tv.volume == d.tv.volume
    ensures InRange(d) ==> InRange(r.0)
  {
    VolumeActionsUnreachable(command);
    ProcessWith(DeviceCommands, d, regs, command)
  }

  /** Any command naming the TV selects the TV power toggle: that entry is tried first. */
  lemma TvNameSelectsPower(command: string)
    requires Contains(command, TvName)
    ensures Route(DeviceCommands, command) == Some(("tv", "power"))
  {
    FirstHitIsFirstMatch(DeviceCommands, keywords => AnyKeyword(keywords, command), None, 0);
  }

  /**
   * With a TV registered, any command that names the TV toggles its power
   * and reports the new state, whatever else the command says.
   */
  lemma TvNameTogglesPower(d: DeviceStates, regs: seq<Registration>, command: string, k: nat)
    requires Contains(command, TvName)
    requires k < |regs| && regs[k].deviceType == "tv"
    ensures CommandStep(d, regs, command) ==
      (d.(tv := d.tv.(power := !d.tv.power)), "تم " + OnOff(!d.tv.power) + " التلفاز")
  {
    TvNameSelectsPower(command);
  }

  /** The TV's name occurs inside both volume phrases. */
  lemma TvNameInVolumePhrases()
    ensures Contains(VolumeUpPhrase, TvName) && Contains(VolumeDownPhrase, TvName)
  {
    assert OccursAt(VolumeUpPhrase, TvName, 8) && OccursAt(VolumeDownPhrase, TvName, 8);
  }

  /** A command containing a volume phrase hits the first entry, the TV's name. */
  lemma TvNameEntryHit(command: string, phrase: string)
    requires phrase in {VolumeUpPhrase, VolumeDownPhrase} && Contains(command, phrase)
    ensures AnyKeyword(DeviceCommands[0].1, command)
  {
    TvNameInVolumePhrases();
    ContainsTransitive(command, phrase, TvName);
  }

  /**
   * Both volume phrases contain the TV's name, which an earlier entry
   * matches: no command reaches the volume actions.
   */
  lemma VolumeActionsUnreachable(command: string)
    ensures Route(DeviceCommands, command) != Some(("tv", "volume-up"))
    ensures Route(DeviceCommands, command) != Some(("tv", "volume-down"))
  {
    var hit := keywords => AnyKeyword(keywords, command);
    FirstHitAt(DeviceCommands, hit, None);
    var i := FirstHitIndex(DeviceCommands, hit);
    if i == 3 || i == 4 {
      assert Contains(command, DeviceCommands[i].1[0]);
      TvNameEntryHit(command, DeviceCommands[i].1[0]);
    } else if i < |DeviceCommands| {
      assert DeviceCommands[i].0 !in {Some(("tv", "volume-up")), Some(("tv", "volume-down"))};
    }
  }

  /** A sequence of spoken commands, in order. */
  function CommandAll(d: DeviceStates, regs: seq<Registration>, commands: seq<string>): DeviceStates
    decreases |commands|
  {
    if |commands| == 0 then d
    else CommandAll(CommandStep(d, regs, commands[0]).0, regs, commands[1..])
  }

  lemma {:induction false} CommandSequenceKeepsVolume(d: DeviceStates, regs: seq<Registration>, commands: seq<string>)
    ensures CommandAll(d, regs, commands).tv.volume == d.tv.volume
    decreases |commands|
  {
    if |commands| > 0 {
      CommandSequenceKeepsVolume(CommandStep(d, regs, commands[0]).0, regs, commands[1..]);
    }
  }

  /** As written, saying "raise the TV volume" with a TV registered toggles the TV's power instead. */
  lemma VolumeUpPhraseTogglesPower(d: DeviceStates, regs: seq<Registration>, k: nat)
    requires k < |regs| && regs[k].deviceType == "tv"
    ensures CommandStep(d, regs, VolumeUpPhrase) ==
      (d.(tv := d.tv.(power := !d.tv.power)), "تم " + OnOff(!d.tv.power) + " التلفاز")
  {
    assert OccursAt(VolumeUpPhrase, TvName, 8);
    TvNameTogglesPower(d, regs, VolumeUpPhrase, k);
  }

  /** The command table with the specific phrases ahead of the bare device names. */
  const FixedDeviceCommands: Table<Option<(string, string)>> := [
    (Some(("tv", "volume-up")), [VolumeUpPhrase]),
    (Some(("tv", "volume-down")), [VolumeDownPhrase]),
    (Some(("ac", "temp-up")), ["رفع درجة الحرارة"]),
    (Some(("ac", "temp-down")), ["خفض درجة الحرارة"]),
    (Some(("washing-machine", "start")), ["بدء الغسيل"]),
    (Some(("tv", "power")), [TvName]),
    (Some(("ac", "power")), ["التكييف"]),
    (Some(("washing-machine", "power")), ["الغسالة"])
  ]

  function CommandStepFixed(d: DeviceStates, regs: seq<Registration>, command: string): (DeviceStates, string) {
    ProcessWith(FixedDeviceCommands, d, regs, command)
  }

  function FixedPhrase(i: nat): string
    requires i < |FixedDeviceCommands|
  {
    FixedDeviceCommands[i].1[0]
  }

  /** No phrase of the fixed table contains a phrase listed before it. */
  lemma FixedPhrasesNotPreempted(i: nat, j: nat)
    requires j < i < |FixedDeviceCommands|
    ensures !Contains(FixedPhrase(i), FixedPhrase(j))
  {
    if i <= 3 {
      SpecificPhrasesNotPreempted(i, j);
    } else {
      NamesNotPreempted(i, j);
    }
  }

  /** The volume and temperature phrases: each lacks a letter of every phrase before it. */
  lemma SpecificPhrasesNotPreempted(i: nat, j: nat)
    requires j < i <= 3
    ensures !Contains(FixedPhrase(i), FixedPhrase(j))
  {
    var p, q := FixedPhrase(i), FixedPhrase(j);
    if i == 1 {
      AbsentChar(p, q, 'ر');
    } else if i == 2 || j < 2 {
      AbsentChar(p, q, 'ص');
    } else {
      AbsentChar(p, q, 'ع');
    }
  }

  /** The washing phrase and the device names: shorter than, or lacking a letter of, every phrase before them. */
  lemma NamesNotPreempted(i: nat, j: nat)
    requires j < i && 4 <= i < |FixedDeviceCommands|
    ensures !Contains(FixedPhrase(i), FixedPhrase(j))
  {
    var p, q := FixedPhrase(i), FixedPhrase(j);
    if |p| < |q| {
      LongerNotContained(p, q);
    } else if j == 5 {
      AbsentChar(p, q, 'ز');
    } else {
      AbsentChar(p, q, 'ي');
    }
  }

  /** With the fixed order each phrase, said on its own, selects its own action. */
  lemma FixedTableReachesEveryAction(i: nat)
    requires i < |FixedDeviceCommands|
    ensures Route(FixedDeviceCommands, FixedPhrase(i)) == FixedDeviceCommands[i].0
  {
    var phrase := FixedPhrase(i);
    var hit := keywords => AnyKeyword(keywords, phrase);
    assert OccursAt(phrase, phrase, 0);
    assert phrase in FixedDeviceCommands[i].1;
    forall j | 0 <= j < i ensures !hit(FixedDeviceCommands[j].1) {
      FixedPhrasesNotPreempted(i, j);
    }
    FirstHitIsFirstMatch(FixedDeviceCommands, hit, None, i);
  }

  /** With the fixed order, "raise the TV volume" raises a registered TV's volume by one step. */
  lemma FixedVolumeUpPhraseRaisesVolume(d: DeviceStates, regs: seq<Registration>, k: nat)
    requires k < |regs| && regs[k].deviceType == "tv"
    requires MinVolume <= d.tv.volume <= MaxVolume
    ensures var v := Min(d.tv.volume + VolumeStep, MaxVolume);
      CommandStepFixed(d, regs, VolumeUpPhrase) ==
      (d.(tv := d.tv.(volume := v)), "تم رفع الصوت إلى " + IntToString(v))
  {
    FixedTableReachesEveryAction(0);
    assert Route(FixedDeviceCommands, VolumeUpPhrase) == Some(("tv", "volume-up"));
    var v := Min(d.tv.volume + VolumeStep, MaxVolume);
    assert TvStep(d.tv, "volume-up") == (d.tv.(volume := v), "تم رفع الصوت إلى " + IntToString(v));
    assert ControlStep(d, regs, "tv", "volume-up") == (d.(tv := d.tv.(volume := v)), "تم رفع الصوت إلى " + IntToString(v));
    assert CommandStepFixed(d, regs, VolumeUpPhrase) == ControlStep(d, regs, "tv", "volume-up");
  }

  /** Volume 50 and "raise the TV volume" give volume 60 and a message saying so. */
  lemma FixedVolumeUpFromFifty(d: DeviceStates, regs: seq<Registration>, k: nat)
    requires k < |regs| && regs[k].deviceType == "tv"
    requires d.tv.volume == 50
    ensures CommandStepFixed(d, regs, VolumeUpPhrase) ==
      (d.(tv := d.tv.(volume := 60)), "تم رفع الصوت إلى 60")
  {
    FixedVolumeUpPhraseRaisesVolume(d, regs, k);
    assert Min(d.tv.volume + VolumeStep, MaxVolume) == 60;
    SixtyRendered();
  }

  lemma SixtyRendered()
    ensures "تم رفع الصوت إلى " + IntToString(60) == "تم رفع الصوت إلى 60"
  {
    assert IntToString(60) == "60";
    assert "تم رفع الصوت إلى " + "60" == "تم رفع الصوت إلى 60";
  }
}
