/** The panel's configuration record, the reducer that applies settings-editor
    actions to it, and the settings tree the panel hands to the host editor. */
module PanelSettings {
  import opened JoyTypes

  /** A settings value as the editor shows it and as an action carries it:
      select and string inputs carry text, boolean inputs a flag. `Number`
      is the numeric default of the gamepad ID. */
  datatype SettingValue = Text(s: string) | Flag(b: bool) | Number(n: int)

  const TextFields: set<string> :=
    {"dataSource", "subJoyTopic", "pubJoyTopic", "publishFrameId", "displayMode", "layoutName", "mapping_name"}
  const FlagFields: set<string> := {"publishMode", "debugGamepad"}

  /** The property names the configuration record declares. */
  const DeclaredFields: set<string> := TextFields + FlagFields + {"gamepadId"}

  /** Properties outside the declared record, keyed by names the record
      does not declare. */
  type ExtraProperties = m: map<string, SettingValue> | forall k :: k in m ==> k !in DeclaredFields
    witness map[]

  /** The panel configuration. `gamepadId` is declared a number but stores
      whatever the reducer was handed (the gamepad-ID select hands it text),
      so it is kept as a `SettingValue`. Properties outside the declared
      record, which a reducer update may add, live in `extra`. */
  datatype Config = Config(
    dataSource: string,
    subJoyTopic: string,
    gamepadId: SettingValue,
    publishMode: bool,
    pubJoyTopic: string,
    publishFrameId: string,
    displayMode: string,
    debugGamepad: bool,
    layoutName: string,
    mappingName: string,
    extra: ExtraProperties)

  /** The two kinds of action the host's settings editor dispatches. */
  datatype SettingsAction =
    | Update(path: seq<string>, value: SettingValue)
    | PerformNodeAction(id: string, path: seq<string>)

  /** The value kinds a field of the settings tree can receive: text for
      select and string inputs, a flag for boolean inputs; the gamepad ID
      keeps either of its two forms; undeclared properties take anything. */
  predicate FitsField(field: string, v: SettingValue) {
    && (field in TextFields ==> v.Text?)
    && (field in FlagFields ==> v.Flag?)
    && (field == "gamepadId" ==> !v.Flag?)
  }

  /** Updates whose path names a node and a field, as the settings editor
      sends them for the two-level tree `BuildSettingsTree` produces. */
  predicate WellFormedAction(action: SettingsAction) {
    action.Update? ==>
      |action.path| <= 2 && (|action.path| == 2 ==> FitsField(action.path[1], action.value))
  }

  /** Reads a property of the configuration by its name, as `config[field]`. */
  function Get(c: Config, field: string): Option<SettingValue> {
    if field == "dataSource" then Some(Text(c.dataSource))
    else if field == "subJoyTopic" then Some(Text(c.subJoyTopic))
    else if field == "gamepadId" then Some(c.gamepadId)
    else if field == "publishMode" then Some(Flag(c.publishMode))
    else if field == "pubJoyTopic" then Some(Text(c.pubJoyTopic))
    else if field == "publishFrameId" then Some(Text(c.publishFrameId))
    else if field == "displayMode" then Some(Text(c.displayMode))
    else if field == "debugGamepad" then Some(Flag(c.debugGamepad))
    else if field == "layoutName" then Some(Text(c.layoutName))
    else if field == "mapping_name" then Some(Text(c.mappingName))
    else if field in c.extra then Some(c.extra[field])
    else None
  }

  /** Writes one property of the configuration by its name (a one-segment
      `_.set`), storing the value as it is given. */
  function SetField(c: Config, field: string, v: SettingValue): (r: Config)
    requires FitsField(field, v)
    ensures Get(r, field) == Some(v)
    ensures forall g :: g != field ==> Get(r, g) == Get(c, g)
  {
    if field == "dataSource" then c.(dataSource := v.s)
    else if field == "subJoyTopic" then c.(subJoyTopic := v.s)
    else if field == "gamepadId" then c.(gamepadId := v)
    else if field == "publishMode" then c.(publishMode := v.b)
    else if field == "pubJoyTopic" then c.(pubJoyTopic := v.s)
    else if field == "publishFrameId" then c.(publishFrameId := v.s)
    else if field == "displayMode" then c.(displayMode := v.s)
    else if field == "debugGamepad" then c.(debugGamepad := v.b)
    else if field == "layoutName" then c.(layoutName := v.s)
    else if field == "mapping_name" then c.(mappingName := v.s)
    else c.(extra := c.extra[field := v])
  }

  /** The settings reducer: an update sets the field named by the second
      path segment to the payload, unconverted, and leaves every other field
      alone; the node segment is not consulted; any other action, and an
      update whose path is too short to name a field, returns the
      configuration unchanged. The result is a new value; `prev` is not
      touched. */
  function SettingsActionReducer(prev: Config, action: SettingsAction): (next: Config)
    requires WellFormedAction(action)
    ensures !action.Update? ==> next == prev
    ensures action.Update? && |action.path| < 2 ==> next == prev
    ensures action.Update? && |action.path| == 2 ==>
      && Get(next, action.path[1]) == Some(action.value)
      && forall g :: g != action.path[1] ==> Get(next, g) == Get(prev, g)
  {
    match action
    case Update(path, value) =>
      if |path| == 2 then SetField(prev, path[1], value) else prev
    case PerformNodeAction(_, _) => prev
  }

  // ---------------------------------------------------------------------
  // Decimal rendering, as `Number.prototype.toString()` does for integers

  function DigitChar(d: nat): (c: char)
    requires d < 10
    ensures '0' <= c <= '9' && c as int - '0' as int == d
  {
    "0123456789"[d]
  }

  /** The number a string of decimal digits stands for, most significant
      digit first. */
  function DecimalValue(s: string): int {
    if |s| == 0 then 0 else 10 * DecimalValue(s[..|s| - 1]) + (s[|s| - 1] as int - '0' as int)
  }

  /** The decimal digits of `n`, without leading zeros: reading them back
      gives `n`. */
  function NatToDecimal(n: nat): (s: string)
    ensures 1 <= |s|
    ensures forall i :: 0 <= i < |s| ==> '0' <= s[i] <= '9'
    ensures n >= 10 <==> |s| >= 2
    ensures |s| >= 2 ==> s[0] != '0'
    ensures DecimalValue(s) == n
  {
    if n < 10 then [DigitChar(n)]
    else
      var front := NatToDecimal(n / 10);
      var s := front + [DigitChar(n % 10)];
      assert s[..|s| - 1] == front;
      s
  }

  /** Distinct numbers render to distinct strings. */
  lemma NatToDecimalInjective(a: nat, b: nat)
    requires NatToDecimal(a) == NatToDecimal(b)
    ensures a == b
  {
    assert a == DecimalValue(NatToDecimal(a));
  }

  /** `Number.prototype.toString()` of an integer: a minus sign before the
      digits of a negative number. */
  function IntToDecimal(n: int): (s: string)
    ensures 1 <= |s|
    ensures n >= 0 ==> s == NatToDecimal(n)
    ensures n < 0 ==> s == "-" + NatToDecimal(-n) && s[0] == '-' && DecimalValue(s[1..]) == -n
  {
    if n < 0 then
      var s := "-" + NatToDecimal(-n);
      assert s[1..] == NatToDecimal(-n);
      s
    else NatToDecimal(n)
  }

  /** The rendering of an integer is the decimal rendering of an index
      exactly when the two numbers are equal. */
  lemma IntToDecimalOfIndex(n: int, index: nat)
    ensures IntToDecimal(n) == NatToDecimal(index) <==> n == index
  {
    if n >= 0 && IntToDecimal(n) == NatToDecimal(index) {
      NatToDecimalInjective(n, index);
    }
  }

  /** `config.gamepadId.toString()`: text is shown as it is, a number in
      decimal (reading the digits back gives the number), a flag as
      `true`/`false`. */
  function GamepadIdText(v: SettingValue): (s: string)
    ensures v.Text? ==> s == v.s
    ensures v.Number? && v.n >= 0 ==> s == NatToDecimal(v.n) && DecimalValue(s) == v.n
    ensures v.Number? && v.n < 0 ==> s == "-" + NatToDecimal(-v.n) && DecimalValue(s[1..]) == -v.n
    ensures v.Flag? ==> s == FlagText(v.b)
  {
    match v
    case Text(s) => s
    case Number(n) => IntToDecimal(n)
    case Flag(b) => FlagText(b)
  }

  /** `toString()` of a boolean. */
  function FlagText(b: bool): string {
    if b then "true" else "false"
  }

  // ---------------------------------------------------------------------
  // The settings tree

  /** A topic known to the host; `dataType` is its message type name. */
  datatype Topic = Topic(name: string, dataType: string)

  datatype InputKind = SelectInput | BooleanInput | StringInput
  datatype SelectOption = SelectOption(caption: string, value: string)

  /** A settings field; `disabled` is `None` where the field sets no flag,
      `options` is empty for inputs other than selects. */
  datatype Field = Field(caption: string, input: InputKind, value: SettingValue, disabled: Option<bool>, options: seq<SelectOption>)
  datatype FieldEntry = FieldEntry(key: string, field: Field)
  datatype TreeNode = TreeNode(caption: string, fields: seq<FieldEntry>)
  datatype NodeEntry = NodeEntry(key: string, node: TreeNode)

  const JoyDataType := "sensor_msgs/msg/Joy"

  /** The options of the subscription select: one per topic of the Joy
      message type, labelled and valued by the topic's name. */
  function JoyTopicOptions(topics: seq<Topic>): (opts: seq<SelectOption>)
    ensures |opts| <= |topics|
  {
    if |topics| == 0 then []
    else
      (if topics[0].dataType == JoyDataType then [SelectOption(topics[0].name, topics[0].name)] else [])
      + JoyTopicOptions(topics[1..])
  }

  function BuildSettingsTree(config: Config, topics: Option<seq<Topic>>): (tree: seq<NodeEntry>)
    ensures |tree| == 3
  {
    var known := match topics case Some(ts) => ts case None => [];
    var dataSourceFields := [
      FieldEntry("dataSource", Field("Data Source", SelectInput, Text(config.dataSource), None,
        [SelectOption("Subscribed Joy Topic", "sub-joy-topic"), SelectOption("Gamepad", "gamepad"),
         SelectOption("Interactive", "interactive"), SelectOption("Keyboard", "keyboard")])),
      FieldEntry("subJoyTopic", Field("Subsc. Joy Topic", SelectInput, Text(config.subJoyTopic),
        Some(config.dataSource != "sub-joy-topic"), JoyTopicOptions(known))),
      FieldEntry("gamepadId", Field("Gamepad ID", SelectInput, Text(GamepadIdText(config.gamepadId)),
        Some(config.dataSource != "gamepad"),
        [SelectOption("0", "0"), SelectOption("1", "1"), SelectOption("2", "2"), SelectOption("TODO Make this auto populate", "3")])),
      FieldEntry("gamepadMapping", Field("GP->Joy Mapping", SelectInput, Text("default"),
        Some(config.dataSource != "gamepad"),
        [SelectOption("Default", "default"), SelectOption("TODO Make selectable", "todo")]))
    ];
    var publishFields := [
      FieldEntry("publishMode", Field("Publish Mode", BooleanInput, Flag(config.publishMode),
        Some(config.dataSource == "sub-joy-topic"), [])),
      FieldEntry("pubJoyTopic", Field("Pub Joy Topic", StringInput, Text(config.pubJoyTopic), None, [])),
      FieldEntry("publishFrameId", Field("Joy Frame ID", StringInput, Text(config.publishFrameId), None, []))
    ];
    var displayFields := [
      FieldEntry("displayMode", Field("Display Mode", SelectInput, Text(config.displayMode), None,
        [SelectOption("Auto-Generated", "auto"), SelectOption("Custom Display", "custom")])),
      FieldEntry("layoutName", Field("Layout", SelectInput, Text(config.layoutName),
        Some(config.displayMode == "auto"),
        [SelectOption("Steam Deck", "steamdeck"), SelectOption("iPega PG-9083s", "ipega-9083s"),
         SelectOption("Xbox", "xbox"), SelectOption("Cheap Controller", "cheapo")])),
      FieldEntry("debugGamepad", Field("Debug Gamepad", BooleanInput, Flag(config.debugGamepad), None, []))
    ];
    [
      NodeEntry("dataSource", TreeNode("Data Source", dataSourceFields)),
      NodeEntry("publish", TreeNode("Publish", publishFields)),
      NodeEntry("display", TreeNode("Display", displayFields))
    ]
  }

  /** The first node with the given key. */
  function FindNode(nodes: seq<NodeEntry>, key: string): Option<TreeNode> {
    if |nodes| == 0 then None
    else if nodes[0].key == key then Some(nodes[0].node)
    else FindNode(nodes[1..], key)
  }

  /** The first field with the given key. */
  function FindField(fields: seq<FieldEntry>, key: string): Option<Field> {
    if |fields| == 0 then None
    else if fields[0].key == key then Some(fields[0].field)
    else FindField(fields[1..], key)
  }

  /** The field a settings path `[node, field]` points at. */
  function Lookup(tree: seq<NodeEntry>, node: string, field: string): Option<Field> {
    match FindNode(tree, node)
    case None => None
    case Some(n) => FindField(n.fields, field)
  }

  // ---------------------------------------------------------------------
  // What the settings tree promises

  /** An option is offered exactly when some topic of the Joy type has that
      name; the option's caption and value are both the name. */
  lemma {:induction false} JoyTopicOptionsExact(topics: seq<Topic>, o: SelectOption)
    ensures o in JoyTopicOptions(topics) <==>
      exists t :: t in topics && t.dataType == JoyDataType && o == SelectOption(t.name, t.name)
  {
    if |topics| > 0 {
      JoyTopicOptionsExact(topics[1..], o);
      if o in JoyTopicOptions(topics[1..]) {
        var t :| t in topics[1..] && t.dataType == JoyDataType && o == SelectOption(t.name, t.name);
        assert t in topics;
      }
      assert forall t :: t in topics ==> t == topics[0] || t in topics[1..];
    }
  }

  /** Filtering keeps the input order: the options of a concatenation are the
      options of its parts, one after the other. */
  lemma {:induction false} JoyTopicOptionsAppend(a: seq<Topic>, b: seq<Topic>)
    ensures JoyTopicOptions(a + b) == JoyTopicOptions(a) + JoyTopicOptions(b)
  {
    if |a| > 0 {
      assert (a + b)[1..] == a[1..] + b;
      JoyTopicOptionsAppend(a[1..], b);
    } else {
      assert a + b == b;
    }
  }

  lemma {:induction false} FindNodeAt(nodes: seq<NodeEntry>, key: string, i: nat)
    requires i < |nodes| && nodes[i].key == key
    requires forall m :: 0 <= m < i ==> nodes[m].key != key
    ensures FindNode(nodes, key) == Some(nodes[i].node)
  {
    if i > 0 {
      FindNodeAt(nodes[1..], key, i - 1);
    }
  }

  lemma {:induction false} FindFieldAt(fields: seq<FieldEntry>, key: string, j: nat)
    requires j < |fields| && fields[j].key == key
    requires forall m :: 0 <= m < j ==> fields[m].key != key
    ensures FindField(fields, key) == Some(fields[j].field)
  {
    if j > 0 {
      FindFieldAt(fields[1..], key, j - 1);
    }
  }

  /** Every path `[node, field]` of the tree reaches the field built for it. */
  lemma {:induction false} TreeLookups(config: Config, topics: Option<seq<Topic>>)
    ensures var t := BuildSettingsTree(config, topics);
      && Lookup(t, "dataSource", "dataSource") == Some(t[0].node.fields[0].field)
      && Lookup(t, "dataSource", "subJoyTopic") == Some(t[0].node.fields[1].field)
      && Lookup(t, "dataSource", "gamepadId") == Some(t[0].node.fields[2].field)
      && Lookup(t, "dataSource", "gamepadMapping") == Some(t[0].node.fields[3].field)
      && Lookup(t, "publish", "publishMode") == Some(t[1].node.fields[0].field)
      && Lookup(t, "publish", "pubJoyTopic") == Some(t[1].node.fields[1].field)
      && Lookup(t, "publish", "publishFrameId") == Some(t[1].node.fields[2].field)
      && Lookup(t, "display", "displayMode") == Some(t[2].node.fields[0].field)
      && Lookup(t, "display", "layoutName") == Some(t[2].node.fields[1].field)
      && Lookup(t, "display", "debugGamepad") == Some(t[2].node.fields[2].field)
  {
    var t := BuildSettingsTree(config, topics);
    SettingsTreeShape(config, topics);
    FindNodeAt(t, "dataSource", 0);
    FindNodeAt(t, "publish", 1);
    FindNodeAt(t, "display", 2);
    var f0, f1, f2 := t[0].node.fields, t[1].node.fields, t[2].node.fields;
    FindFieldAt(f0, "dataSource", 0);
    FindFieldAt(f0, "subJoyTopic", 1);
    FindFieldAt(f0, "gamepadId", 2);
    FindFieldAt(f0, "gamepadMapping", 3);
    FindFieldAt(f1, "publishMode", 0);
    FindFieldAt(f1, "pubJoyTopic", 1);
    FindFieldAt(f1, "publishFrameId", 2);
    FindFieldAt(f2, "displayMode", 0);
    FindFieldAt(f2, "layoutName", 1);
    FindFieldAt(f2, "debugGamepad", 2);
  }

  /** The tree has the nodes `dataSource`, `publish` and `display`, in that
      order, with these fields. */
  lemma SettingsTreeShape(config: Config, topics: Option<seq<Topic>>)
    ensures var t := BuildSettingsTree(config, topics);
      && [t[0].key, t[1].key, t[2].key] == ["dataSource", "publish", "display"]
      && |t[0].node.fields| == 4 && |t[1].node.fields| == 3 && |t[2].node.fields| == 3
      && [t[0].node.fields[0].key, t[0].node.fields[1].key, t[0].node.fields[2].key, t[0].node.fields[3].key]
         == ["dataSource", "subJoyTopic", "gamepadId", "gamepadMapping"]
      && [t[1].node.fields[0].key, t[1].node.fields[1].key, t[1].node.fields[2].key]
         == ["publishMode", "pubJoyTopic", "publishFrameId"]
      && [t[2].node.fields[0].key, t[2].node.fields[1].key, t[2].node.fields[2].key]
         == ["displayMode", "layoutName", "debugGamepad"]
  {
  }

  /** The fields of the tree whose value is a configuration property shown
      as it is stored. */
  const EchoFields: set<string> :=
    {"dataSource", "subJoyTopic", "publishMode", "pubJoyTopic", "publishFrameId", "displayMode", "layoutName", "debugGamepad"}

  /** The node under which the tree shows a field. */
  function NodeOf(field: string): string {
    if field in {"dataSource", "subJoyTopic", "gamepadId", "gamepadMapping"} then "dataSource"
    else if field in {"publishMode", "pubJoyTopic", "publishFrameId"} then "publish"
    else "display"
  }

  /** Each field is found under its node; its value echoes the
      configuration, except the gamepad ID, shown as its string form, and
      the gamepad mapping, always shown as `default`. */
  lemma FieldValuesEcho(config: Config, topics: Option<seq<Topic>>, field: string)
    requires field in EchoFields
    ensures var f := Lookup(BuildSettingsTree(config, topics), NodeOf(field), field);
      f.Some? && Some(f.value.value) == Get(config, field)
    ensures var g := Lookup(BuildSettingsTree(config, topics), "dataSource", "gamepadId");
      g.Some? && g.value.value == Text(GamepadIdText(config.gamepadId))
    ensures var m := Lookup(BuildSettingsTree(config, topics), "dataSource", "gamepadMapping");
      m.Some? && m.value.value == Text("default")
  {
    TreeLookups(config, topics);
  }

  /** The `disabled` flags: the subscription select only outside
      subscription mode, the gamepad fields outside gamepad mode, publish
      mode in subscription mode, the layout in automatic display mode. */
  lemma DisabledFlags(config: Config, topics: Option<seq<Topic>>)
    ensures var t := BuildSettingsTree(config, topics);
      && Lookup(t, "dataSource", "subJoyTopic").Some?
      && Lookup(t, "dataSource", "subJoyTopic").value.disabled == Some(config.dataSource != "sub-joy-topic")
      && Lookup(t, "dataSource", "gamepadId").Some?
      && Lookup(t, "dataSource", "gamepadId").value.disabled == Some(config.dataSource != "gamepad")
      && Lookup(t, "dataSource", "gamepadMapping").Some?
      && Lookup(t, "dataSource", "gamepadMapping").value.disabled == Some(config.dataSource != "gamepad")
      && Lookup(t, "publish", "publishMode").Some?
      && Lookup(t, "publish", "publishMode").value.disabled == Some(config.dataSource == "sub-joy-topic")
      && Lookup(t, "display", "layoutName").Some?
      && Lookup(t, "display", "layoutName").value.disabled == Some(config.displayMode == "auto")
  {
    TreeLookups(config, topics);
  }

  /** The values a select offers, in order. */
  function OptionValues(opts: seq<SelectOption>): seq<string> {
    seq(|opts|, i requires 0 <= i < |opts| => opts[i].value)
  }

  /** The fixed selects offer these values: the four data sources the
      panel's handlers test, the gamepad indices 0 to 3 in decimal (the
      first three labelled by their value), the single live gamepad
      mapping, and the display modes and layouts. */
  lemma SelectOptionValues(config: Config, topics: Option<seq<Topic>>)
    ensures var t := BuildSettingsTree(config, topics);
      && Lookup(t, "dataSource", "dataSource").Some?
      && OptionValues(Lookup(t, "dataSource", "dataSource").value.options)
         == ["sub-joy-topic", "gamepad", "interactive", "keyboard"]
      && Lookup(t, "dataSource", "gamepadId").Some?
      && OptionValues(Lookup(t, "dataSource", "gamepadId").value.options)
         == [NatToDecimal(0), NatToDecimal(1), NatToDecimal(2), NatToDecimal(3)]
      && (forall k :: 0 <= k < 3 ==>
           Lookup(t, "dataSource", "gamepadId").value.options[k].caption == NatToDecimal(k))
      && Lookup(t, "dataSource", "gamepadMapping").Some?
      && OptionValues(Lookup(t, "dataSource", "gamepadMapping").value.options) == ["default", "todo"]
      && Lookup(t, "display", "displayMode").Some?
      && OptionValues(Lookup(t, "display", "displayMode").value.options) == ["auto", "custom"]
      && Lookup(t, "display", "layoutName").Some?
      && OptionValues(Lookup(t, "display", "layoutName").value.options)
         == ["steamdeck", "ipega-9083s", "xbox", "cheapo"]
  {
    TreeLookups(config, topics);
    assert NatToDecimal(0) == "0" && NatToDecimal(1) == "1" && NatToDecimal(2) == "2" && NatToDecimal(3) == "3";
  }

  /** The subscription select offers the Joy topics, in input order; no
      topics known means no options. */
  lemma SubJoyTopicOptions(config: Config, topics: Option<seq<Topic>>)
    ensures var f := Lookup(BuildSettingsTree(config, topics), "dataSource", "subJoyTopic");
      && f.Some?
      && (topics.None? ==> f.value.options == [])
      && (topics.Some? ==> f.value.options == JoyTopicOptions(topics.value))
  {
    TreeLookups(config, topics);
  }

  /** Editing a field in the tree and rebuilding the tree shows the edited
      value in that field: the reducer and the tree builder agree on every
      field whose value echoes the configuration. */
  lemma {:induction false} EditShowsInTree(config: Config, topics: Option<seq<Topic>>, node: string, field: string, v: SettingValue)
    requires field in EchoFields && FitsField(field, v)
    ensures var next := SettingsActionReducer(config, Update([node, field], v));
      var f := Lookup(BuildSettingsTree(next, topics), NodeOf(field), field);
      f.Some? && f.value.value == v
  {
    var next := SettingsActionReducer(config, Update([node, field], v));
    FieldValuesEcho(next, topics, field);
  }

  /** Choosing an entry of the gamepad-ID select stores the option's text,
      which the rebuilt tree shows again as the selected ID. */
  lemma {:induction false} GamepadIdEditShowsInTree(config: Config, topics: Option<seq<Topic>>, node: string, choice: string)
    ensures var next := SettingsActionReducer(config, Update([node, "gamepadId"], Text(choice)));
      && next.gamepadId == Text(choice)
      && Lookup(BuildSettingsTree(next, topics), "dataSource", "gamepadId").Some?
      && Lookup(BuildSettingsTree(next, topics), "dataSource", "gamepadId").value.value == Text(choice)
  {
    var next := SettingsActionReducer(config, Update([node, "gamepadId"], Text(choice)));
    assert Get(next, "gamepadId") == Some(Text(choice));
    FieldValuesEcho(next, topics, "dataSource");
  }
}
