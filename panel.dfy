/** The joystick panel: configuration defaults, the conversions that turn a
    relayed message, a gamepad snapshot, the keyboard table or the virtual
    controller into the current Joy message, the advertise and publish
    steps, and the panel's state with the handlers that update it. */
module Panel {
  import opened JoyTypes
  import opened PanelSettings
  import opened KeyboardMode

  // ---------------------------------------------------------------------
  // Configuration defaults

  /** A saved configuration as the host hands it back; `None` stands for a
      property that is missing, undefined or null. */
  datatype PartialConfig = PartialConfig(
    dataSource: Option<string>,
    subJoyTopic: Option<string>,
    gamepadId: Option<SettingValue>,
    publishMode: Option<bool>,
    pubJoyTopic: Option<string>,
    publishFrameId: Option<string>,
    displayMode: Option<string>,
    debugGamepad: Option<bool>,
    layoutName: Option<string>,
    mappingName: Option<string>,
    extra: ExtraProperties)

  function OrElse<T>(o: Option<T>, d: T): T {
    match o
    case Some(v) => v
    case None => d
  }

  /** Fills each missing property with its default and keeps every property
      that is present. */
  function WithDefaults(p: PartialConfig): (c: Config)
    ensures forall field :: PGet(p, field).Some? ==> Get(c, field) == PGet(p, field)
    ensures c.extra == p.extra
  {
    Config(
      OrElse(p.dataSource, "sub-joy-topic"),
      OrElse(p.subJoyTopic, "/joy"),
      OrElse(p.gamepadId, Number(0)),
      OrElse(p.publishMode, false),
      OrElse(p.pubJoyTopic, "/joy"),
      OrElse(p.publishFrameId, ""),
      OrElse(p.displayMode, "auto"),
      OrElse(p.debugGamepad, false),
      OrElse(p.layoutName, "steamdeck"),
      OrElse(p.mappingName, "TODO"),
      p.extra)
  }

  const NoSavedState := PartialConfig(None, None, None, None, None, None, None, None, None, None, map[])

  /** Reads a property of a saved configuration by its name. */
  function PGet(p: PartialConfig, field: string): Option<SettingValue> {
    if field == "dataSource" then (if p.dataSource.Some? then Some(Text(p.dataSource.value)) else None)
    else if field == "subJoyTopic" then (if p.subJoyTopic.Some? then Some(Text(p.subJoyTopic.value)) else None)
    else if field == "gamepadId" then p.gamepadId
    else if field == "publishMode" then (if p.publishMode.Some? then Some(Flag(p.publishMode.value)) else None)
    else if field == "pubJoyTopic" then (if p.pubJoyTopic.Some? then Some(Text(p.pubJoyTopic.value)) else None)
    else if field == "publishFrameId" then (if p.publishFrameId.Some? then Some(Text(p.publishFrameId.value)) else None)
    else if field == "displayMode" then (if p.displayMode.Some? then Some(Text(p.displayMode.value)) else None)
    else if field == "debugGamepad" then (if p.debugGamepad.Some? then Some(Flag(p.debugGamepad.value)) else None)
    else if field == "layoutName" then (if p.layoutName.Some? then Some(Text(p.layoutName.value)) else None)
    else if field == "mapping_name" then (if p.mappingName.Some? then Some(Text(p.mappingName.value)) else None)
    else if field in p.extra then Some(p.extra[field])
    else None
  }

  /** The state the panel saves for a configuration: every property present. */
  function Saved(c: Config): PartialConfig {
    PartialConfig(Some(c.dataSource), Some(c.subJoyTopic), Some(c.gamepadId), Some(c.publishMode),
      Some(c.pubJoyTopic), Some(c.publishFrameId), Some(c.displayMode), Some(c.debugGamepad),
      Some(c.layoutName), Some(c.mappingName), c.extra)
  }

  /** Defaulting fills only what is missing: a present property keeps its
      value, a missing one takes the default configuration's. */
  lemma DefaultsFillOnlyMissing(p: PartialConfig, field: string)
    ensures Get(WithDefaults(p), field) ==
      if PGet(p, field).Some? then PGet(p, field) else Get(WithDefaults(NoSavedState), field)
  {
  }

  /** A configuration the panel saved comes back unchanged. */
  lemma SavedConfigRestores(c: Config)
    ensures WithDefaults(Saved(c)) == c
  {
  }

  /** With no saved state the panel starts subscribed to `/joy`, gamepad 0,
      not publishing, in automatic display mode. */
  lemma FreshPanelDefaults()
    ensures WithDefaults(NoSavedState) ==
      Config("sub-joy-topic", "/joy", Number(0), false, "/joy", "", "auto", false, "steamdeck", "TODO", map[])
  {
  }

  // ---------------------------------------------------------------------
  // Relay of a subscribed message

  /** The message relayed from a frame of subscribed messages: the last one,
      with its stamp, axes and buttons and the configured frame ID; nothing
      when the frame is absent or empty. */
  function RelayJoy(frame: Option<seq<Joy>>, frameId: string): (r: Option<Joy>)
    ensures r.Some? <==> frame.Some? && |frame.value| > 0
  {
    match frame
    case None => None
    case Some(ms) =>
      if |ms| == 0 then None
      else
        var last := ms[|ms| - 1];
        Some(Joy(Header(last.header.stamp, frameId), last.axes, last.buttons))
  }

  /** Only the last message of a frame matters. */
  lemma RelayUsesLastOnly(earlier: seq<Joy>, last: Joy, frameId: string)
    ensures RelayJoy(Some(earlier + [last]), frameId) == RelayJoy(Some([last]), frameId)
  {
  }

  /** The relay copies a message verbatim except for its frame ID: under any
      frame ID the stamp, axes and buttons are the message's own, relaying a
      message under its own frame ID gives it back, and relaying a relayed
      message again changes nothing. */
  lemma RelayCopiesVerbatim(m: Joy, frameId: string)
    ensures RelayJoy(Some([m]), m.header.frameId) == Some(m)
    ensures var r := RelayJoy(Some([m]), frameId);
      && r.Some? && RelayJoy(Some([r.value]), frameId) == r
      && r.value.header.frameId == frameId && r.value.header.stamp == m.header.stamp
      && r.value.axes == m.axes && r.value.buttons == m.buttons
  {
  }

  // ---------------------------------------------------------------------
  // Gamepad conversion

  /** The message for a gamepad snapshot: every axis negated, every button 1
      when pressed and 0 otherwise. */
  function GamepadJoy(gp: Gamepad, frameId: string, now: Time): (j: Joy)
    ensures j.header == Header(now, frameId)
    ensures |j.axes| == |gp.axes| && forall i :: 0 <= i < |gp.axes| ==> j.axes[i] == -gp.axes[i]
    ensures |j.buttons| == |gp.buttons|
    ensures forall i :: 0 <= i < |gp.buttons| ==> (j.buttons[i] == 1 <==> gp.buttons[i].pressed)
    ensures forall i :: 0 <= i < |gp.buttons| ==> j.buttons[i] in {0, 1}
  {
    Joy(Header(now, frameId),
      seq(|gp.axes|, i requires 0 <= i < |gp.axes| => -gp.axes[i]),
      seq(|gp.buttons|, i requires 0 <= i < |gp.buttons| => if gp.buttons[i].pressed then 1 else 0))
  }

  /** The conversion loses nothing: negating the message's axes gives the
      gamepad's axes back, its buttons give back which were pressed, and
      axes within [-1, 1] stay within it. */
  lemma GamepadJoyInvertible(gp: Gamepad, frameId: string, now: Time)
    ensures var j := GamepadJoy(gp, frameId, now);
      && seq(|j.axes|, i requires 0 <= i < |j.axes| => -j.axes[i]) == gp.axes
      && seq(|j.buttons|, i requires 0 <= i < |j.buttons| => GamepadButton(j.buttons[i] == 1)) == gp.buttons
    ensures (forall i :: 0 <= i < |gp.axes| ==> -1.0 <= gp.axes[i] <= 1.0) ==>
      var j := GamepadJoy(gp, frameId, now);
      forall i :: 0 <= i < |j.axes| ==> -1.0 <= j.axes[i] <= 1.0
  {
  }

  /** The gamepad check as written: the stored ID strictly equal to the
      numeric index. */
  function SelectsGamepadAsWritten(id: SettingValue, index: nat): (b: bool)
    ensures id.Text? ==> !b
    ensures id.Number? ==> (b <==> id.n == index)
    ensures id.Flag? ==> !b
  {
    id == Number(index)
  }

  /** The gamepad check the panel intends: the ID the settings show names
      the gamepad's index. A numeric ID selects the gamepad with that index,
      a text ID the gamepad whose index it spells in decimal. */
  function SelectsGamepad(id: SettingValue, index: nat): (b: bool)
    ensures id.Number? ==> (b <==> id.n == index)
    ensures id.Text? ==> (b <==> id.s == NatToDecimal(index))
  {
    if id.Number? then
      IntToDecimalOfIndex(id.n, index);
      GamepadIdText(id) == NatToDecimal(index)
    else
      GamepadIdText(id) == NatToDecimal(index)
  }

  /** As written, choosing any entry of the gamepad-ID select stores text,
      which no gamepad index strictly equals: after the choice no gamepad
      drives the panel any more. */
  lemma SelectedGamepadNeverMatchesAsWritten(c: Config, node: string, choice: string, index: nat)
    ensures var next := SettingsActionReducer(c, Update([node, "gamepadId"], Text(choice)));
      !SelectsGamepadAsWritten(next.gamepadId, index)
  {
  }

  /** Intended: after choosing option k of the gamepad-ID select exactly
      gamepad k drives the panel, and the numeric default n selects exactly
      gamepad n. */
  lemma {:induction false} SelectedGamepadDrives(c: Config, topics: Option<seq<Topic>>, node: string, k: nat, index: nat)
    requires k < 4
    ensures var f := Lookup(BuildSettingsTree(c, topics), "dataSource", "gamepadId");
      && f.Some? && k < |f.value.options|
      && var next := SettingsActionReducer(c, Update([node, "gamepadId"], Text(f.value.options[k].value)));
         SelectsGamepad(next.gamepadId, index) <==> index == k
    ensures SelectsGamepad(Number(k), index) <==> index == k
  {
    SelectOptionValues(c, topics);
    var f := Lookup(BuildSettingsTree(c, topics), "dataSource", "gamepadId");
    assert f.value.options[k].value == OptionValues(f.value.options)[k] == NatToDecimal(k);
    var next := SettingsActionReducer(c, Update([node, "gamepadId"], Text(NatToDecimal(k))));
    assert Get(next, "gamepadId") == Some(Text(NatToDecimal(k)));
  }

  /** The gamepad the panel listens to is the one its settings show. */
  lemma {:induction false} SelectedGamepadIsShown(c: Config, topics: Option<seq<Topic>>, index: nat)
    ensures var f := Lookup(BuildSettingsTree(c, topics), "dataSource", "gamepadId");
      f.Some? && (SelectsGamepad(c.gamepadId, index) <==> f.value.value == Text(NatToDecimal(index)))
  {
    FieldValuesEcho(c, topics, "dataSource");
  }

  // ---------------------------------------------------------------------
  // Advertising and publishing

  /** Calls the panel makes on the host. */
  datatype HostCall =
    | Advertise(topic: string, schema: string)
    | Unadvertise(topic: string)
    | Publish(topic: string, msg: Option<Joy>)

  /** The publish topic after an advertise step, and the calls it made. */
  datatype AdvertiseOutcome = AdvertiseOutcome(topic: Option<string>, calls: seq<HostCall>)

  /** A topic that names something (set and non-empty). */
  predicate Named(t: Option<string>) { t.Some? && t.value != "" }

  /** The advertise step the panel intends, the publish-topic update run in
      both modes: in publish mode, withdraw the previous topic if any and
      advertise the configured one; otherwise withdraw the previous topic
      and clear it. */
  function AdvertiseStep(publishMode: bool, pubJoyTopic: string, previous: Option<string>): (r: AdvertiseOutcome)
    ensures Named(r.topic) <==> publishMode && pubJoyTopic != ""
    ensures !publishMode ==> r.topic == Some("")
    ensures |r.calls| == (if Named(previous) then 1 else 0) + (if publishMode then 1 else 0)
    ensures Named(previous) ==> r.calls[0] == Unadvertise(previous.value)
    ensures publishMode ==> r.topic == Some(pubJoyTopic) && r.calls[|r.calls| - 1] == Advertise(pubJoyTopic, "sensor_msgs/Joy")
  {
    var withdraw := if Named(previous) then [Unadvertise(previous.value)] else [];
    if publishMode then
      AdvertiseOutcome(Some(pubJoyTopic), withdraw + [Advertise(pubJoyTopic, "sensor_msgs/Joy")])
    else
      AdvertiseOutcome(Some(""), withdraw)
  }

  /** The advertise step as written: the update runs only in publish mode,
      so outside it the previous topic stays as it was and nothing is
      called. */
  function AdvertiseStepAsWritten(publishMode: bool, pubJoyTopic: string, previous: Option<string>): (r: AdvertiseOutcome)
    ensures publishMode ==> r == AdvertiseStep(publishMode, pubJoyTopic, previous)
    ensures !publishMode ==> r == AdvertiseOutcome(previous, [])
  {
    if publishMode then AdvertiseStep(publishMode, pubJoyTopic, previous) else AdvertiseOutcome(previous, [])
  }

  /** As written, leaving publish mode keeps an advertised topic advertised
      and still set. */
  lemma LeavingPublishModeKeepsTopicAsWritten()
    ensures var r := AdvertiseStepAsWritten(false, "/joy", Some("/joy"));
      Named(r.topic) && Unadvertise("/joy") !in r.calls
  {
  }

  /** The publish step: the current message goes out only in publish mode,
      on a set topic equal to the configured one. */
  function PublishStep(publishMode: bool, pubTopic: Option<string>, pubJoyTopic: string, joy: Option<Joy>): (r: Option<HostCall>)
    ensures r.Some? <==> publishMode && Named(pubTopic) && pubTopic.value == pubJoyTopic
    ensures r.Some? ==> r.value == Publish(pubJoyTopic, joy)
  {
    if !publishMode then None
    else if Named(pubTopic) && pubTopic.value == pubJoyTopic then Some(Publish(pubTopic.value, joy))
    else None
  }

  /** After an advertise step, the publish step sends exactly when publish
      mode is on and the configured topic is not empty, on the topic just
      advertised. */
  lemma AdvertiseThenPublish(publishMode: bool, pubJoyTopic: string, previous: Option<string>, joy: Option<Joy>)
    ensures var a := AdvertiseStep(publishMode, pubJoyTopic, previous);
      var p := PublishStep(publishMode, a.topic, pubJoyTopic, joy);
      && (p.Some? <==> publishMode && pubJoyTopic != "")
      && (p.Some? ==> Advertise(pubJoyTopic, "sensor_msgs/Joy") in a.calls)
  {
  }

  // ---------------------------------------------------------------------
  // The panel's state

  class JoyPanel {
    var config: Config
    /** The current message; `None` until a source produced one. */
    var joy: Option<Joy>
    /** The topic currently advertised for publishing, if any. */
    var pubTopic: Option<string>
    var kbEnabled: bool
    var trackedKeys: seq<KeyEntry>
    /** Every call made on the host so far, in order. */
    var hostCalls: seq<HostCall>

    ghost predicate Valid()
      reads this
    {
      DistinctKeys(trackedKeys) && Binary(trackedKeys)
    }

    /** Mounts the panel with the saved state and the keyboard mapping. */
    constructor (initialState: PartialConfig, keyMapping: seq<KeySpec>)
      requires DistinctSpecKeys(keyMapping)
      ensures Valid()
      ensures config == WithDefaults(initialState)
      ensures joy == None && pubTopic == None && kbEnabled && hostCalls == []
      ensures |trackedKeys| == |keyMapping|
      ensures forall i :: 0 <= i < |trackedKeys| ==>
        && trackedKeys[i].key == keyMapping[i].key
        && trackedKeys[i].binding.button == keyMapping[i].button
        && trackedKeys[i].binding.axis == keyMapping[i].axis
        && (trackedKeys[i].binding.direction == 1 <==> keyMapping[i].direction == "+")
        && trackedKeys[i].binding.value == 0
    {
      var table := BuildKeyTable(keyMapping);
      config := WithDefaults(initialState);
      joy := None;
      pubTopic := None;
      kbEnabled := true;
      trackedKeys := table;
      hostCalls := [];
    }

    /** A settings-editor action replaces the configuration by the reducer's
        result. */
    method OnSettingsAction(action: SettingsAction)
      requires WellFormedAction(action)
      modifies this`config
      ensures config == SettingsActionReducer(old(config), action)
    {
      config := SettingsActionReducer(config, action);
    }

    /** A new frame of subscribed messages replaces the message by the relay
        of its last one; an absent or empty frame keeps the message. */
    method OnFrame(frame: Option<seq<Joy>>)
      modifies this`joy
      ensures frame.Some? && |frame.value| > 0 ==> joy == RelayJoy(frame, config.publishFrameId)
      ensures !(frame.Some? && |frame.value| > 0) ==> joy == old(joy)
    {
      var latest := RelayJoy(frame, config.publishFrameId);
      if latest.Some? {
        joy := latest;
      }
    }

    /** A gamepad snapshot replaces the message only in gamepad mode and
        only for the selected gamepad. */
    method OnGamepadUpdate(gp: Gamepad, now: Time)
      modifies this`joy
      ensures joy == if config.dataSource == "gamepad" && SelectsGamepad(config.gamepadId, gp.index)
                     then Some(GamepadJoy(gp, config.publishFrameId, now)) else old(joy)
    {
      if config.dataSource != "gamepad" {
        return;
      }
      if !SelectsGamepad(config.gamepadId, gp.index) {
        return;
      }
      joy := Some(GamepadJoy(gp, config.publishFrameId, now));
    }

    /** Finds the entry of a key in the tracked-key table. */
    method FindKey(key: string) returns (found: int)
      ensures -1 <= found < |trackedKeys|
      ensures found >= 0 ==> trackedKeys[found].key == key
      ensures found < 0 ==> !Tracks(trackedKeys, key)
    {
      found := -1;
      var i := 0;
      while i < |trackedKeys|
        invariant 0 <= i <= |trackedKeys|
        invariant forall m :: 0 <= m < i ==> trackedKeys[m].key != key
      {
        if trackedKeys[i].key == key {
          return i;
        }
        i := i + 1;
      }
    }

    /** Sets the value of a tracked key's entry; an untracked key changes
        nothing. */
    method SetKey(key: string, v: int)
      requires Valid() && v in {0, 1}
      modifies this`trackedKeys
      ensures Valid()
      ensures trackedKeys == SetKeyValue(old(trackedKeys), key, v)
    {
      SetKeyValueKeepsInvariants(trackedKeys, key, v);
      var i := FindKey(key);
      if i < 0 {
        UntrackedKeyIgnored(trackedKeys, key, v);
        return;
      }
      var e := trackedKeys[i];
      var updated := trackedKeys[i := e.(binding := e.binding.(value := v))];
      assert updated == SetKeyValue(trackedKeys, key, v) by {
        var r := SetKeyValue(trackedKeys, key, v);
        forall m | 0 <= m < |trackedKeys| ensures updated[m] == r[m] {
          assert m != i ==> trackedKeys[m].key != key;
        }
      }
      trackedKeys := updated;
    }

    method HandleKeyDown(key: string)
      requires Valid()
      modifies this`trackedKeys
      ensures Valid()
      ensures trackedKeys == SetKeyValue(old(trackedKeys), key, 1)
    {
      SetKey(key, 1);
    }

    method HandleKeyUp(key: string)
      requires Valid()
      modifies this`trackedKeys
      ensures Valid()
      ensures trackedKeys == SetKeyValue(old(trackedKeys), key, 0)
    {
      SetKey(key, 0);
    }

    /** The keyboard switch; held keys keep their values when it is turned
        off. */
    method SetKbEnabled(enabled: bool)
      modifies this`kbEnabled
      ensures kbEnabled == enabled
    {
      kbEnabled := enabled;
    }

    /** In keyboard mode with the keyboard enabled, replaces the message by
        the one synthesized from the tracked keys. */
    method GenerateFromKeys(now: Time)
      modifies this`joy
      ensures joy == if config.dataSource == "keyboard" && kbEnabled
                     then Some(Joy(Header(now, config.publishFrameId), KeyboardAxes(trackedKeys), KeyboardButtons(trackedKeys)))
                     else old(joy)
    {
      if config.dataSource != "keyboard" {
        return;
      }
      if !kbEnabled {
        return;
      }
      var axes, buttons := SynthesizeFromKeys(trackedKeys);
      joy := Some(Joy(Header(now, config.publishFrameId), axes, buttons));
    }

    /** A message from the virtual controller replaces the message, with the
        configured frame ID and the current stamp, in interactive mode only. */
    method OnInteractive(interactiveJoy: Joy, now: Time)
      modifies this`joy
      ensures joy == if config.dataSource == "interactive"
                     then Some(Joy(Header(now, config.publishFrameId), interactiveJoy.axes, interactiveJoy.buttons))
                     else old(joy)
    {
      if config.dataSource != "interactive" {
        return;
      }
      joy := Some(Joy(Header(now, config.publishFrameId), interactiveJoy.axes, interactiveJoy.buttons));
    }

    /** Re-advertises when publish mode or the publish topic changes. */
    method AdvertiseEffect()
      modifies this`pubTopic, this`hostCalls
      ensures var r := AdvertiseStep(config.publishMode, config.pubJoyTopic, old(pubTopic));
        pubTopic == r.topic && hostCalls == old(hostCalls) + r.calls
    {
      var r := AdvertiseStep(config.publishMode, config.pubJoyTopic, pubTopic);
      pubTopic := r.topic;
      hostCalls := hostCalls + r.calls;
    }

    /** Publishes the current message when the publish step allows it. */
    method PublishEffect()
      modifies this`hostCalls
      ensures var p := PublishStep(config.publishMode, pubTopic, config.pubJoyTopic, joy);
        hostCalls == old(hostCalls) + (if p.Some? then [p.value] else [])
    {
      var p := PublishStep(config.publishMode, pubTopic, config.pubJoyTopic, joy);
      if p.Some? {
        hostCalls := hostCalls + [p.value];
      }
    }
  }
}
