# Joystick panel model

A Dafny model of the logic of a Foxglove Studio panel that produces ROS
`sensor_msgs/Joy` messages. The panel takes them from one of four sources:

- a relayed subscription;
- a browser gamepad;
- the keyboard;
- a virtual controller.

It can also publish the current message on a topic. The model covers five parts:

- **`JoyTypes`** (`joy_types.dfy`): the Joy message, its header and time stamp, and the browser's gamepad snapshot.
- **`PanelSettings`** (`panel_settings.dfy`): the configuration record and the settings-action reducer. It also has the settings-tree builder with its topic filter and `disabled` flags, and the decimal rendering of the gamepad ID.
- **`KeyboardMode`** (`keyboard_mode.dfy`), covering:
  - the tracked-key table built from the key mapping;
  - the key-down and key-up updates;
  - the synthesis of axes and buttons from the table. Buttons are last-write-wins. Axes sum ±1 contributions.
- **`Panel`** (`panel.dfy`): configuration defaults, the relay, gamepad and interactive conversions, the gamepad check, and the advertise and publish steps. It also has the class `JoyPanel`, which holds the panel's state (configuration, current message, publish topic, keyboard switch, key table and a log of host calls) and whose methods are the panel's handlers and effects.
- **`GamepadHook`** (`gamepad_hook.dfy`): the polling hook as the class `GamepadPoller`. The browser's frame requests are modelled as a registry of pending ids and an allocator of fresh non-zero ids. The invariant `Valid()` says that the stored request id is the only outstanding request, or 0 when there is none.

Wall-clock stamps are a `now` parameter. The browser's gamepad slots are a
parameter of the frame callback.

`GamepadView` draws from a static `mapping1.json` and never calls the
`cbInteractChange` callback it is handed (src/JoyPanel.tsx:351), so the
interactive path is modelled only as the callback `JoyPanel.OnInteractive`.

## Model

| member | source | states |
|---|---|---|
| PanelSettings.SetField | src/panelSettings.ts:22 | writing a field by name stores the value as given: reading that field back gives the value, every other field reads as before; an undeclared name goes to the extra properties, whose keys (by their type) never shadow a declared field |
| PanelSettings.SettingsActionReducer | src/panelSettings.ts:18-25 | an update with path [node, field] sets exactly that field to the unconverted payload and leaves every other field alone; the node segment is ignored; other actions and shorter paths return the configuration unchanged |
| PanelSettings.NatToDecimal | src/panelSettings.ts:68 | the decimal rendering used by `toString()` is a non-empty digit string, two or more digits exactly from 10 up, no leading zero, whose decimal reading is the number itself |
| PanelSettings.NatToDecimalInjective | src/panelSettings.ts:68 | distinct gamepad indices render to distinct strings |
| PanelSettings.IntToDecimal | src/panelSettings.ts:68 | `toString()` of an integer: the canonical digits of a non-negative number; a minus sign before the canonical digits of the magnitude of a negative one |
| PanelSettings.IntToDecimalOfIndex | src/panelSettings.ts:68 | an integer renders like a gamepad index exactly when it equals that index |
| PanelSettings.GamepadIdText | src/panelSettings.ts:68 | the ID shown in the tree: text as stored; a non-negative number as its canonical decimal digits, whose reading is the number; a negative one as a minus sign before the canonical digits of its magnitude; a flag as `true` or `false` |
| PanelSettings.JoyTopicOptions | src/panelSettings.ts:57-62 | the subscription options are no more than the topics |
| PanelSettings.JoyTopicOptionsExact | src/panelSettings.ts:57-62 | an option is offered iff some topic of type `sensor_msgs/msg/Joy` has that name, and its caption and value are both the name |
| PanelSettings.JoyTopicOptionsAppend | src/panelSettings.ts:57-62 | the options keep the topics' input order, so filtering a concatenation gives the filtered parts one after the other |
| PanelSettings.BuildSettingsTree | src/panelSettings.ts:27-200 | the tree has three nodes |
| PanelSettings.SelectOptionValues | src/panelSettings.ts:33-162 | the fixed selects offer, in order: data sources `sub-joy-topic`, `gamepad`, `interactive`, `keyboard`; gamepad IDs 0 to 3 in decimal, the first three labelled by their value; mappings `default`, `todo`; display modes `auto`, `custom`; layouts `steamdeck`, `ipega-9083s`, `xbox`, `cheapo` |
| PanelSettings.SettingsTreeShape | src/panelSettings.ts:184-197 | the nodes are exactly `dataSource`, `publish` and `display`, in that order, with their fields in source order |
| PanelSettings.TreeLookups | src/panelSettings.ts:28-182 | every [node, field] path of the tree reaches the field built for it |
| PanelSettings.FieldValuesEcho | src/panelSettings.ts:32-180 | every field's value echoes the configuration; the gamepad ID is shown as its string form and the gamepad mapping always as `default` |
| PanelSettings.DisabledFlags | src/panelSettings.ts:56-143 | subJoyTopic is disabled iff the source is not the subscription; gamepadId and gamepadMapping iff it is not the gamepad; publishMode iff it is the subscription; layoutName iff the display mode is `auto` |
| PanelSettings.SubJoyTopicOptions | src/panelSettings.ts:52-62 | the subscription select offers the Joy topics, none when topics are unknown |
| PanelSettings.EditShowsInTree | src/panelSettings.ts:20-22 | after an update from the tree, the rebuilt tree shows the new value in that field |
| PanelSettings.GamepadIdEditShowsInTree | src/panelSettings.ts:65-88 | choosing a gamepad-ID option stores its text unconverted, and the rebuilt tree shows that text |
| KeyboardMode.BuildKeyTable | src/JoyPanel.tsx:34-47 | one entry per mapping row in `Object.entries` order, same indices, direction 1 exactly for "+", every key released; keys distinct and values binary |
| KeyboardMode.SetKeyValue | src/JoyPanel.tsx:180-206 | a key event sets only the value of that key's entry; the keys and all other entries and fields are unchanged |
| KeyboardMode.UntrackedKeyIgnored | src/JoyPanel.tsx:182-190 | an untracked key leaves the table as it was |
| KeyboardMode.SetKeyValueIdempotent | src/JoyPanel.tsx:180-192 | a repeated key-down changes nothing further |
| KeyboardMode.KeyDownThenUp | src/JoyPanel.tsx:180-206 | key-down followed by key-up equals key-up alone: the key ends released |
| KeyboardMode.PressReleaseRestores | src/JoyPanel.tsx:180-206 | pressing and releasing a released key restores the table |
| KeyboardMode.SetKeyValueKeepsInvariants | src/JoyPanel.tsx:183-201 | key events writing 0 or 1 keep keys distinct and values binary |
| KeyboardMode.KeyboardAxes | src/JoyPanel.tsx:233-248 | the published axes array has a slot for the axis of every axis-driving entry and ends at the largest such axis |
| KeyboardMode.KeyboardButtons | src/JoyPanel.tsx:233-248 | the published buttons array has a slot for the button of every button-driving entry and ends at the largest such button |
| KeyboardMode.BeyondCountIsZero | src/JoyPanel.tsx:238-245 | slots at or beyond the button or axis count are touched by no key |
| KeyboardMode.SynthesizeFromKeys | src/JoyPanel.tsx:233-248 | the arrays built by the loop equal the specification: one slot per index up to the count, each button the last write, each axis the sum of contributions |
| KeyboardMode.ButtonCountIsMax | src/JoyPanel.tsx:237-241 | the button count is 1 + the largest button index over entries with button >= 0, or 0 if there is none |
| KeyboardMode.AxisCountIsMax | src/JoyPanel.tsx:242-245 | the axis count is 1 + the largest axis index over entries with button < 0 and axis >= 0, or 0 if there is none |
| KeyboardMode.ButtonIsLastWrite | src/JoyPanel.tsx:241 | a button equals the value of the last entry, in iteration order, bound to it |
| KeyboardMode.UnboundButtonIsZero | src/JoyPanel.tsx:238-241 | a button no entry is bound to is 0 |
| KeyboardMode.ButtonsAreBinary | src/JoyPanel.tsx:41-42 | with keys released or held, every button is 0 or 1 |
| KeyboardMode.AxisValueSplit | src/JoyPanel.tsx:246 | axis contributions add up over consecutive parts of the table |
| KeyboardMode.SilentAxisIsZero | src/JoyPanel.tsx:242-246 | an axis no entry adds to is 0 |
| KeyboardMode.AxisOfOneKey | src/JoyPanel.tsx:246 | when only one entry adds to an axis, the axis is that entry's signed value |
| KeyboardMode.AxisOfTwoKeys | src/JoyPanel.tsx:246 | when two entries add to an axis, the axis is the sum of both, not the last write |
| KeyboardMode.OppositeKeysCancel | src/JoyPanel.tsx:246 | two held keys in opposite directions on one axis give 0 |
| KeyboardMode.OneHeldKeyIsFullScale | src/JoyPanel.tsx:41 | one held key gives +1 for direction "+" and -1 otherwise |
| KeyboardMode.ButtonKeysLeaveAxes | src/JoyPanel.tsx:237-247 | an entry bound to a button never affects the axes, whatever its axis index and value |
| KeyboardMode.IdleKeySlots | src/JoyPanel.tsx:237-247 | an entry with negative button and axis indices, wherever it sits, changes neither count nor any slot value |
| KeyboardMode.IdleKeyIgnored | src/JoyPanel.tsx:237-247 | such an entry changes neither the published axes nor the published buttons |
| KeyboardMode.AxisPartsAgree | src/JoyPanel.tsx:237-247 | replacing one button-bound entry by another keeps the axis count and every axis value |
| Panel.WithDefaults | src/JoyPanel.tsx:51-64 | every property present in the saved state is kept as saved, including undeclared ones |
| Panel.DefaultsFillOnlyMissing | src/JoyPanel.tsx:51-64 | every present property keeps its value; only missing ones take the default |
| Panel.SavedConfigRestores | src/JoyPanel.tsx:51-64 | a saved full configuration comes back unchanged |
| Panel.FreshPanelDefaults | src/JoyPanel.tsx:53-62 | with nothing saved: subscription to `/joy`, gamepad 0, no publishing, `auto` display, layout `steamdeck` |
| Panel.RelayJoy | src/JoyPanel.tsx:127-140 | a message is relayed iff the frame is present and non-empty |
| Panel.RelayUsesLastOnly | src/JoyPanel.tsx:128 | only the last message of the frame matters |
| Panel.RelayCopiesVerbatim | src/JoyPanel.tsx:130-137 | under any frame ID the stamp, axes and buttons are the message's own and the frame ID is the configured one; under the message's own frame ID the relay gives the message back; relaying is idempotent |
| Panel.GamepadJoy | src/JoyPanel.tsx:163-170 | each axis is the gamepad's negated, with equal length; each button is 1 iff pressed and 0 otherwise, with equal length; the header is the configured frame ID and the given stamp |
| Panel.GamepadJoyInvertible | src/JoyPanel.tsx:168-169 | negating the axes and reading the buttons back recovers the snapshot; axes within [-1, 1] stay within it |
| Panel.SelectsGamepadAsWritten | src/JoyPanel.tsx:159 | as written, the strict check: a numeric ID matches exactly the gamepad with that index, a text or flag ID matches none |
| Panel.SelectsGamepad | src/JoyPanel.tsx:159 | corrected check: a numeric ID selects exactly the gamepad with that index, a text ID exactly the gamepad whose index it spells in decimal |
| Panel.SelectedGamepadNeverMatchesAsWritten | src/JoyPanel.tsx:159 | as written, once any gamepad-ID option is chosen no gamepad index passes the strict check |
| Panel.SelectedGamepadDrives | src/JoyPanel.tsx:155-161 | with the corrected check, choosing option k (k < 4) of the gamepad-ID select the tree offers makes exactly gamepad k drive the panel; the numeric default n selects exactly gamepad n |
| Panel.SelectedGamepadIsShown | src/panelSettings.ts:65-69 | the gamepad the panel listens to is exactly the one whose index the settings tree shows |
| Panel.AdvertiseStepAsWritten | src/JoyPanel.tsx:263-280 | as written, in publish mode the step is the update (unadvertise a previous topic, advertise and store the configured one); outside publish mode the publish topic is left unchanged and nothing is called |
| Panel.LeavingPublishModeKeepsTopicAsWritten | src/JoyPanel.tsx:264-278 | as written, switching publish mode off keeps `/joy` set and never unadvertises it |
| Panel.AdvertiseStep | src/JoyPanel.tsx:265-278 | corrected step, the update run in both modes: the topic is set and non-empty iff in publish mode with a non-empty topic; outside publish mode it is cleared to ""; exactly one unadvertise of a previous named topic, first, plus in publish mode exactly one advertise of the configured topic, last, and nothing else |
| Panel.PublishStep | src/JoyPanel.tsx:283-291 | a message is published iff in publish mode, with the publish topic set, non-empty and equal to the configured one, and then on that topic |
| Panel.AdvertiseThenPublish | src/JoyPanel.tsx:263-291 | after advertising, publishing happens iff in publish mode with a non-empty topic, and only on the topic just advertised |
| Panel.JoyPanel.constructor | src/JoyPanel.tsx:29-64 | the panel starts with the defaulted configuration, no message, no topic, keyboard enabled, and one tracked entry per mapping row with its key, button and axis, direction 1 exactly for "+", released |
| Panel.JoyPanel.OnSettingsAction | src/JoyPanel.tsx:66-71 | the configuration becomes the reducer's result |
| Panel.JoyPanel.OnFrame | src/JoyPanel.tsx:127-140 | a non-empty frame replaces the message by the relay of its last message; an empty or absent frame keeps it |
| Panel.JoyPanel.OnGamepadUpdate | src/JoyPanel.tsx:153-176 | corrected handler: the message is replaced by the gamepad's conversion only in gamepad mode and for the gamepad the corrected check `SelectsGamepad` selects; otherwise it is kept |
| Panel.JoyPanel.FindKey | src/JoyPanel.tsx:182-184 | returns the index of the key's entry, or -1 iff the key is not tracked |
| Panel.JoyPanel.SetKey | src/JoyPanel.tsx:183-187 | the table becomes `SetKeyValue` of the old table, and the invariants are kept |
| Panel.JoyPanel.HandleKeyDown | src/JoyPanel.tsx:180-192 | the key's entry gets value 1 |
| Panel.JoyPanel.HandleKeyUp | src/JoyPanel.tsx:194-206 | the key's entry gets value 0 |
| Panel.JoyPanel.SetKbEnabled | src/JoyPanel.tsx:298-312 | sets the keyboard switch; key values are kept |
| Panel.JoyPanel.GenerateFromKeys | src/JoyPanel.tsx:225-260 | in keyboard mode with the keyboard enabled, the message becomes the keyboard axes and buttons with the configured frame ID; otherwise it is kept |
| Panel.JoyPanel.OnInteractive | src/JoyPanel.tsx:314-331 | in interactive mode the controller's axes and buttons pass through with the configured frame ID and the given stamp; otherwise the message is kept |
| Panel.JoyPanel.AdvertiseEffect | src/JoyPanel.tsx:263-280 | corrected effect: the topic and the host-call log follow the corrected `AdvertiseStep`, so leaving publish mode unadvertises and clears the topic |
| Panel.JoyPanel.PublishEffect | src/JoyPanel.tsx:283-291 | the host-call log gains the publish call exactly when `PublishStep` allows it |
| GamepadHook.Present | src/hooks/useGamepad.ts:18-22 | the reported gamepads are no more than the slots |
| GamepadHook.PresentEmptyIff | src/hooks/useGamepad.ts:18-26 | no gamepad is reported iff every slot is empty |
| GamepadHook.PresentMembers | src/hooks/useGamepad.ts:18-22 | a gamepad is reported iff it fills a slot |
| GamepadHook.PresentAppend | src/hooks/useGamepad.ts:18-22 | reporting follows slot order: consecutive runs of slots report their gamepads one run after the other |
| GamepadHook.PresentOfOneSlot | src/hooks/useGamepad.ts:19-21 | a filled slot reports its gamepad, an empty one nothing |
| GamepadHook.PresentCount | src/hooks/useGamepad.ts:18-22 | exactly one gamepad is reported per filled slot |
| GamepadHook.GamepadPoller.AtMostOneOutstanding | src/hooks/useGamepad.ts:11-13 | under the invariant at most one frame request is outstanding, and it is the stored non-zero id |
| GamepadHook.GamepadPoller.constructor | src/hooks/useGamepad.ts:13 | the stored id starts at 0 with nothing pending |
| GamepadHook.GamepadPoller.RequestFrame | src/hooks/useGamepad.ts:25-26 | a request registers a fresh id |
| GamepadHook.GamepadPoller.CancelFrame | src/hooks/useGamepad.ts:33-35 | a cancel withdraws exactly that id |
| GamepadHook.GamepadPoller.OnAnimationFrame | src/hooks/useGamepad.ts:15-27 | `didUpdate` is called once per present gamepad, in slot order; the stored id is 0 iff none was present, and then nothing is pending and no id is allocated; otherwise it is a fresh request; the connect logs are untouched; the invariant is kept |
| GamepadHook.GamepadPoller.RescheduleEffect | src/hooks/useGamepad.ts:32-39 | the pending request, if any, is cancelled before a new one is stored, leaving exactly one outstanding |
| GamepadHook.GamepadPoller.OnConnect | src/hooks/useGamepad.ts:41-49 | forwards to `didConnect`; requests a frame only when none is pending; a pending id is untouched |
| GamepadHook.GamepadPoller.OnDisconnect | src/hooks/useGamepad.ts:51-53 | forwards to `didDisconnect` and changes nothing else |
| GamepadHook.GamepadPoller.Unmount | src/hooks/useGamepad.ts:67-74 | cancels a pending request and leaves the id at 0 with nothing outstanding; with id 0 nothing is cancelled |

## Findings

| source | as written | input that shows it | evidently intended | confidence | as-written member | corrected member |
|---|---|---|---|---|---|---|
| src/JoyPanel.tsx:159 | the update handler compares the stored gamepad ID with `gp.index` by strict inequality. The reducer stores the select's text option unconverted (src/panelSettings.ts:22, 70-86) | choose "1" in the Gamepad ID select: the ID becomes the text "1", which equals no numeric index, so no gamepad ever drives the panel | the gamepad whose ID the settings show drives the panel | medium, not executed | Panel.SelectedGamepadNeverMatchesAsWritten | Panel.SelectedGamepadDrives |
| src/JoyPanel.tsx:264-278 | the publish-topic updater runs only inside `if (config.publishMode)`, so its `else` branch, which unadvertises and clears the topic, can never run | switch publish mode off while `/joy` is advertised: `/joy` stays advertised and stays the publish topic | leaving publish mode withdraws the advertised topic | medium, not executed | Panel.LeavingPublishModeKeepsTopicAsWritten | Panel.AdvertiseStep |

`JoyPanel.OnGamepadUpdate` uses the corrected check `SelectsGamepad`. It
compares the ID's string form with the decimal index. `JoyPanel.AdvertiseEffect`
uses the corrected `AdvertiseStep`.

## Left out

- Rendering is not modelled: the JSX return of the panel, `GamepadView`, `SimpleButtonView` and `GamepadDebug`. These files are layout and drawing only.
- The host lifecycle is not modelled: `onRender`, `watch`, `subscribe`/`unsubscribeAll`, `saveState`, the render-done callback, and extension registration in src/index.ts. This is I/O plumbing. `Saved` only gives the shape of what `saveState` stores.
- The wall clock is not modelled. Stamps are the `now` parameter.
- Browser APIs are abstracted:
  - `navigator.getGamepads()` becomes the `slots` parameter.
  - `requestAnimationFrame`/`cancelAnimationFrame` become the `pending` registry and the `nextId` allocator.
  - Document and window listeners become direct method calls.
  - `console.log` in the connect callbacks is dropped.
- The keyboard mapping and display mapping JSON documents are not part of this model. The key mapping is a parameter of `JoyPanel.constructor`.
- BuildKeyTable: takes the mapping rows already in `Object.entries` order (integer-like keys first, ascending, then the rest in document order). Computing that order from the document is not modelled, and it decides which entry wins a button under last-write-wins.
- React effect scheduling and stale closures are not modelled. Each effect is a method the caller invokes when the effect would run.
- The optional host methods (`advertise?.`, `unadvertise?.`, `publish?.`) are assumed present. Every call is recorded in `hostCalls`.
- SettingsActionReducer: requires update paths of at most two segments, and payload kinds that fit the field: text for select and string fields, a flag for boolean fields, text or a number for the gamepad ID. This is what the settings editor sends for the two-level tree `BuildSettingsTree` produces. Deeper lodash `set` paths and mismatched payloads are not modelled.
- Key handlers: the source copies the `Map` but mutates the shared entry record in place, so the previous map sees the new value too. Entries are modelled by value, so this aliasing is not captured.
- `trackedKeys` is never undefined in the source, so the model's table is never absent.
- A saved state is a `PartialConfig`. An `initialState` that is itself undefined would make the source throw on its first `??=`. That case is not modelled.
- Number types:
  - Gamepad indices are `nat`.
  - Numeric settings values are `int`. Non-integer and NaN numbers are not modelled, nor integers from 1e21 up, which `toString()` writes in exponent form.
  - Key values and button values are `int`, and axes are `real`.
- Disabling the keyboard does not clear held keys (`SetKbEnabled`), matching the source's unfinished TODO.
- The relay is not gated on the data source, matching the source. Outside subscription mode the host delivers no frames, because the panel unsubscribes.
