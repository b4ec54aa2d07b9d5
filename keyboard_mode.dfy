/** Keyboard mode: the table of tracked keys, the key-down and key-up
    updates of that table, and the synthesis of a Joy message's axes and
    buttons from it. */
module KeyboardMode {

  /** What one tracked key drives: a button index, or (when the button index
      is negative) an axis index with a direction (1 for "+", 0 otherwise),
      and whether the key is held (`value` 1) or released (0). */
  datatype KbMap = KbMap(button: int, axis: int, direction: int, value: int)

  /** One entry of the tracked-key map, in insertion order. */
  datatype KeyEntry = KeyEntry(key: string, binding: KbMap)

  /** One row of the keyboard mapping document: the key's button, axis and
      direction text. */
  datatype KeySpec = KeySpec(key: string, button: int, axis: int, direction: string)

  predicate DistinctKeys(es: seq<KeyEntry>) {
    forall i, j :: 0 <= i < j < |es| ==> es[i].key != es[j].key
  }

  predicate DistinctSpecKeys(specs: seq<KeySpec>) {
    forall i, j :: 0 <= i < j < |specs| ==> specs[i].key != specs[j].key
  }

  /** Every key is released or held, and every direction is 1 or 0. */
  predicate Binary(es: seq<KeyEntry>) {
    forall i :: 0 <= i < |es| ==>
      es[i].binding.value in {0, 1} && es[i].binding.direction in {0, 1}
  }

  /** Builds the tracked-key table from the rows of the mapping document as
      `Object.entries` lists them (integer-like keys first in ascending
      order, then the others in document order): one entry per row in that
      order, direction 1 exactly for "+", every key released. */
  method BuildKeyTable(specs: seq<KeySpec>) returns (es: seq<KeyEntry>)
    requires DistinctSpecKeys(specs)
    ensures |es| == |specs| && DistinctKeys(es) && Binary(es)
    ensures forall i :: 0 <= i < |es| ==>
      && es[i].key == specs[i].key
      && es[i].binding.button == specs[i].button
      && es[i].binding.axis == specs[i].axis
      && (es[i].binding.direction == 1 <==> specs[i].direction == "+")
      && es[i].binding.value == 0
  {
    es := [];
    for n := 0 to |specs|
      invariant |es| == n
      invariant forall i :: 0 <= i < n ==>
        es[i] == KeyEntry(specs[i].key,
          KbMap(specs[i].button, specs[i].axis, if specs[i].direction == "+" then 1 else 0, 0))
    {
      var spec := specs[n];
      var k := KbMap(spec.button, spec.axis, if spec.direction == "+" then 1 else 0, 0);
      es := es + [KeyEntry(spec.key, k)];
    }
  }

  // ---------------------------------------------------------------------
  // Key-down and key-up

  predicate Tracks(es: seq<KeyEntry>, key: string) {
    exists i :: 0 <= i < |es| && es[i].key == key
  }

  /** The table after a key event for `key`: the entry of that key, if it
      is tracked, gets `value` v; every key, every other entry and every
      other part of that entry are unchanged. */
  function SetKeyValue(es: seq<KeyEntry>, key: string, v: int): (r: seq<KeyEntry>)
    ensures |r| == |es|
    ensures forall i :: 0 <= i < |es| ==>
      && r[i].key == es[i].key
      && r[i].binding.(value := 0) == es[i].binding.(value := 0)
      && r[i].binding.value == (if es[i].key == key then v else es[i].binding.value)
  {
    seq(|es|, i requires 0 <= i < |es| =>
      if es[i].key == key then es[i].(binding := es[i].binding.(value := v)) else es[i])
  }

  /** A key the table does not track leaves it as it was. */
  lemma UntrackedKeyIgnored(es: seq<KeyEntry>, key: string, v: int)
    requires !Tracks(es, key)
    ensures SetKeyValue(es, key, v) == es
  {
    var r := SetKeyValue(es, key, v);
    forall i | 0 <= i < |es| ensures r[i] == es[i] {
      assert es[i].key != key;
    }
  }

  /** Setting a key's value twice is setting it once: holding a key down
      (auto-repeat key-down events) changes nothing further. */
  lemma SetKeyValueIdempotent(es: seq<KeyEntry>, key: string, v: int)
    ensures SetKeyValue(SetKeyValue(es, key, v), key, v) == SetKeyValue(es, key, v)
  {
  }

  /** A key-down followed by a key-up leaves the table as a key-up alone
      would: the key is released and nothing else differs. */
  lemma {:induction false} KeyDownThenUp(es: seq<KeyEntry>, key: string)
    ensures SetKeyValue(SetKeyValue(es, key, 1), key, 0) == SetKeyValue(es, key, 0)
  {
    var a := SetKeyValue(SetKeyValue(es, key, 1), key, 0);
    var b := SetKeyValue(es, key, 0);
    forall i | 0 <= i < |es| ensures a[i] == b[i] {
    }
  }

  /** A key-down then key-up of a released key restores the table. */
  lemma {:induction false} PressReleaseRestores(es: seq<KeyEntry>, key: string)
    requires forall i :: 0 <= i < |es| && es[i].key == key ==> es[i].binding.value == 0
    ensures SetKeyValue(SetKeyValue(es, key, 1), key, 0) == es
  {
    KeyDownThenUp(es, key);
    var b := SetKeyValue(es, key, 0);
    forall i | 0 <= i < |es| ensures b[i] == es[i] {
    }
  }

  /** Key events keep the table's invariants when they write 0 or 1. */
  lemma SetKeyValueKeepsInvariants(es: seq<KeyEntry>, key: string, v: int)
    requires DistinctKeys(es) && Binary(es) && v in {0, 1}
    ensures DistinctKeys(SetKeyValue(es, key, v)) && Binary(SetKeyValue(es, key, v))
  {
  }

  // ---------------------------------------------------------------------
  // Synthesis of axes and buttons from the table

  /** Whether an entry is processed as a button, and as an axis: a
      non-negative button index wins over the axis index. */
  predicate DrivesButton(b: KbMap) { b.button >= 0 }
  predicate DrivesAxis(b: KbMap) { b.button < 0 && b.axis >= 0 }

  /** What a key adds to its axis: its value, negated unless its direction
      is positive. */
  function Contribution(b: KbMap): real {
    (if b.direction > 0 then 1.0 else -1.0) * (b.value as real)
  }

  /** What an entry adds to axis a: its contribution if it drives that
      axis, nothing otherwise. */
  function Contributes(b: KbMap, a: int): real {
    if DrivesAxis(b) && b.axis == a then Contribution(b) else 0.0
  }

  function Max(a: int, b: int): int { if a < b then b else a }

  /** The number of buttons: one more than the largest button index of the
      table, 0 when no entry drives a button. */
  function ButtonCount(es: seq<KeyEntry>): nat {
    if |es| == 0 then 0
    else
      var b := es[|es| - 1].binding;
      var n := ButtonCount(es[..|es| - 1]);
      if DrivesButton(b) then Max(n, b.button + 1) else n
  }

  /** The button at index i: the value of the last entry bound to it, 0 if
      none is. */
  function ButtonValue(es: seq<KeyEntry>, i: int): int {
    if |es| == 0 then 0
    else
      var b := es[|es| - 1].binding;
      if DrivesButton(b) && b.button == i then b.value else ButtonValue(es[..|es| - 1], i)
  }

  /** The number of axes: one more than the largest axis index over the
      entries that drive an axis, 0 when none does. */
  function AxisCount(es: seq<KeyEntry>): nat {
    if |es| == 0 then 0
    else
      var b := es[|es| - 1].binding;
      var n := AxisCount(es[..|es| - 1]);
      if DrivesAxis(b) then Max(n, b.axis + 1) else n
  }

  /** The axis at index a: the sum of the contributions of the entries that
      drive it. */
  function AxisValue(es: seq<KeyEntry>, a: int): real {
    if |es| == 0 then 0.0
    else
      var b := es[|es| - 1].binding;
      AxisValue(es[..|es| - 1], a) + Contributes(b, a)
  }

  /** The axes array keyboard mode publishes: a slot for the axis of every
      entry that drives one, and none beyond the largest such axis. */
  function KeyboardAxes(es: seq<KeyEntry>): (axes: seq<real>)
    ensures forall j :: 0 <= j < |es| && DrivesAxis(es[j].binding) ==> es[j].binding.axis < |axes|
    ensures |axes| > 0 ==> exists j :: 0 <= j < |es| && DrivesAxis(es[j].binding) && es[j].binding.axis == |axes| - 1
  {
    AxisCountIsMax(es);
    seq(AxisCount(es), i => AxisValue(es, i))
  }

  /** The buttons array keyboard mode publishes: a slot for the button of
      every entry that drives one, and none beyond the largest such button. */
  function KeyboardButtons(es: seq<KeyEntry>): (buttons: seq<int>)
    ensures forall j :: 0 <= j < |es| && DrivesButton(es[j].binding) ==> es[j].binding.button < |buttons|
    ensures |buttons| > 0 ==> exists j :: 0 <= j < |es| && DrivesButton(es[j].binding) && es[j].binding.button == |buttons| - 1
  {
    ButtonCountIsMax(es);
    seq(ButtonCount(es), i => ButtonValue(es, i))
  }

  /** Slots at or past the count are touched by no key. */
  lemma {:induction false} BeyondCountIsZero(es: seq<KeyEntry>, i: int)
    ensures i >= ButtonCount(es) ==> ButtonValue(es, i) == 0
    ensures i >= AxisCount(es) ==> AxisValue(es, i) == 0.0
  {
    if |es| > 0 {
      BeyondCountIsZero(es[..|es| - 1], i);
    }
  }

  /** Walks the table in iteration order, growing the arrays with zeros up
      to each index it meets, writing button values and adding axis
      contributions. */
  method SynthesizeFromKeys(es: seq<KeyEntry>) returns (axes: seq<real>, buttons: seq<int>)
    ensures axes == KeyboardAxes(es)
    ensures buttons == KeyboardButtons(es)
  {
    axes, buttons := [], [];
    for n := 0 to |es|
      invariant |buttons| == ButtonCount(es[..n])
      invariant forall i :: 0 <= i < |buttons| ==> buttons[i] == ButtonValue(es[..n], i)
      invariant |axes| == AxisCount(es[..n])
      invariant forall i :: 0 <= i < |axes| ==> axes[i] == AxisValue(es[..n], i)
    {
      assert es[..n + 1][..n] == es[..n];
      var b := es[n].binding;
      if b.button >= 0 {
        while |buttons| <= b.button
          invariant ButtonCount(es[..n]) <= |buttons| <= Max(ButtonCount(es[..n]), b.button + 1)
          invariant forall i :: 0 <= i < |buttons| ==> buttons[i] == ButtonValue(es[..n], i)
        {
          BeyondCountIsZero(es[..n], |buttons|);
          buttons := buttons + [0];
        }
        buttons := buttons[b.button := b.value];
      } else if b.axis >= 0 {
        while |axes| <= b.axis
          invariant AxisCount(es[..n]) <= |axes| <= Max(AxisCount(es[..n]), b.axis + 1)
          invariant forall i :: 0 <= i < |axes| ==> axes[i] == AxisValue(es[..n], i)
        {
          BeyondCountIsZero(es[..n], |axes|);
          axes := axes + [0.0];
        }
        axes := axes[b.axis := axes[b.axis] + Contribution(b)];
      }
    }
    assert es[..|es|] == es;
  }

  // ---------------------------------------------------------------------
  // What the synthesis promises

  /** The button count is one more than the largest button index, or 0 when
      no entry drives a button. */
  lemma {:induction false} ButtonCountIsMax(es: seq<KeyEntry>)
    ensures forall j :: 0 <= j < |es| && DrivesButton(es[j].binding) ==> es[j].binding.button < ButtonCount(es)
    ensures ButtonCount(es) > 0 ==>
      exists j :: 0 <= j < |es| && DrivesButton(es[j].binding) && es[j].binding.button + 1 == ButtonCount(es)
  {
    if |es| > 0 {
      var pre := es[..|es| - 1];
      ButtonCountIsMax(pre);
      assert forall j :: 0 <= j < |pre| ==> pre[j] == es[j];
      if ButtonCount(es) > 0 && ButtonCount(es) == ButtonCount(pre) {
        var j :| 0 <= j < |pre| && DrivesButton(pre[j].binding) && pre[j].binding.button + 1 == ButtonCount(pre);
        assert es[j] == pre[j];
      }
    }
  }

  /** The axis count is one more than the largest axis index over the
      entries that drive an axis, or 0 when none does. */
  lemma {:induction false} AxisCountIsMax(es: seq<KeyEntry>)
    ensures forall j :: 0 <= j < |es| && DrivesAxis(es[j].binding) ==> es[j].binding.axis < AxisCount(es)
    ensures AxisCount(es) > 0 ==>
      exists j :: 0 <= j < |es| && DrivesAxis(es[j].binding) && es[j].binding.axis + 1 == AxisCount(es)
  {
    if |es| > 0 {
      var pre := es[..|es| - 1];
      AxisCountIsMax(pre);
      assert forall j :: 0 <= j < |pre| ==> pre[j] == es[j];
      if AxisCount(es) > 0 && AxisCount(es) == AxisCount(pre) {
        var j :| 0 <= j < |pre| && DrivesAxis(pre[j].binding) && pre[j].binding.axis + 1 == AxisCount(pre);
        assert es[j] == pre[j];
      }
    }
  }

  /** Buttons are last-write-wins: a button slot holds the value of the last
      entry, in iteration order, bound to it. */
  lemma {:induction false} ButtonIsLastWrite(es: seq<KeyEntry>, i: int, j: nat)
    requires j < |es| && DrivesButton(es[j].binding) && es[j].binding.button == i
    requires forall m :: j < m < |es| ==> es[m].binding.button != i
    ensures ButtonValue(es, i) == es[j].binding.value
  {
    if j < |es| - 1 {
      ButtonIsLastWrite(es[..|es| - 1], i, j);
    }
  }

  /** A button slot no entry is bound to is 0. */
  lemma {:induction false} UnboundButtonIsZero(es: seq<KeyEntry>, i: int)
    requires forall m :: 0 <= m < |es| ==> es[m].binding.button != i
    ensures ButtonValue(es, i) == 0
  {
    if |es| > 0 {
      UnboundButtonIsZero(es[..|es| - 1], i);
    }
  }

  /** With every key released or held, every button is 0 or 1. */
  lemma {:induction false} ButtonsAreBinary(es: seq<KeyEntry>, i: int)
    requires Binary(es)
    ensures ButtonValue(es, i) in {0, 1}
  {
    if |es| > 0 {
      ButtonsAreBinary(es[..|es| - 1], i);
    }
  }

  /** Axis contributions add up over consecutive parts of the table. */
  lemma {:induction false} AxisValueSplit(a: seq<KeyEntry>, b: seq<KeyEntry>, x: int)
    ensures AxisValue(a + b, x) == AxisValue(a, x) + AxisValue(b, x)
  {
    if |b| == 0 {
      assert a + b == a;
    } else {
      assert (a + b)[..|a + b| - 1] == a + b[..|b| - 1];
      AxisValueSplit(a, b[..|b| - 1], x);
    }
  }

  /** A table none of whose entries adds to axis x gives that axis 0. */
  lemma {:induction false} SilentAxisIsZero(es: seq<KeyEntry>, x: int)
    requires forall m :: 0 <= m < |es| ==> Contributes(es[m].binding, x) == 0.0
    ensures AxisValue(es, x) == 0.0
  {
    if |es| > 0 {
      SilentAxisIsZero(es[..|es| - 1], x);
    }
  }

  /** When only entry j adds to axis x, the axis is that entry's
      contribution. */
  lemma {:induction false} AxisOfOneKey(es: seq<KeyEntry>, x: int, j: nat)
    requires j < |es|
    requires forall m :: 0 <= m < |es| && m != j ==> Contributes(es[m].binding, x) == 0.0
    ensures AxisValue(es, x) == Contributes(es[j].binding, x)
  {
    assert es == es[..j] + [es[j]] + es[j + 1..];
    AxisValueSplit(es[..j] + [es[j]], es[j + 1..], x);
    AxisValueSplit(es[..j], [es[j]], x);
    SilentAxisIsZero(es[..j], x);
    SilentAxisIsZero(es[j + 1..], x);
    assert [es[j]][..0] == [];
  }

  /** When only entries j and k add to axis x, the axis is the sum of their
      contributions: opposite keys on one axis add up, they do not overwrite
      each other. */
  lemma {:induction false} AxisOfTwoKeys(es: seq<KeyEntry>, x: int, j: nat, k: nat)
    requires j < k < |es|
    requires forall m :: 0 <= m < |es| && m != j && m != k ==> Contributes(es[m].binding, x) == 0.0
    ensures AxisValue(es, x) == Contributes(es[j].binding, x) + Contributes(es[k].binding, x)
  {
    var front, back := es[..k], es[k..];
    assert es == front + back;
    AxisValueSplit(front, back, x);
    AxisOfOneKey(front, x, j);
    AxisOfOneKey(back, x, 0);
  }

  /** Two held keys in opposite directions on one axis cancel; one held key
      alone drives the axis to +1 or -1. */
  lemma OppositeKeysCancel(es: seq<KeyEntry>, x: int, j: nat, k: nat)
    requires j < k < |es|
    requires DrivesAxis(es[j].binding) && es[j].binding.axis == x && es[j].binding.value == 1
    requires DrivesAxis(es[k].binding) && es[k].binding.axis == x && es[k].binding.value == 1
    requires (es[j].binding.direction > 0) != (es[k].binding.direction > 0)
    requires forall m :: 0 <= m < |es| && m != j && m != k ==> Contributes(es[m].binding, x) == 0.0
    ensures AxisValue(es, x) == 0.0
  {
    AxisOfTwoKeys(es, x, j, k);
  }

  lemma OneHeldKeyIsFullScale(es: seq<KeyEntry>, x: int, j: nat)
    requires j < |es|
    requires DrivesAxis(es[j].binding) && es[j].binding.axis == x && es[j].binding.value == 1
    requires forall m :: 0 <= m < |es| && m != j ==> Contributes(es[m].binding, x) == 0.0
    ensures AxisValue(es, x) == if es[j].binding.direction > 0 then 1.0 else -1.0
  {
    AxisOfOneKey(es, x, j);
  }

  /** An entry bound to a button never touches the axes, whatever its axis
      index and its value: replacing it by another button entry leaves the
      axes array as it was. */
  lemma {:induction false} ButtonKeysLeaveAxes(es: seq<KeyEntry>, j: nat, e: KeyEntry)
    requires j < |es| && DrivesButton(es[j].binding) && DrivesButton(e.binding)
    ensures KeyboardAxes(es[j := e]) == KeyboardAxes(es)
  {
    AxisPartsAgree(es, j, e);
  }

  lemma {:induction false} AxisPartsAgree(es: seq<KeyEntry>, j: nat, e: KeyEntry)
    requires j < |es| && DrivesButton(es[j].binding) && DrivesButton(e.binding)
    ensures AxisCount(es[j := e]) == AxisCount(es)
    ensures forall x :: AxisValue(es[j := e], x) == AxisValue(es, x)
  {
    var es' := es[j := e];
    var n := |es|;
    if j == n - 1 {
      assert es'[..n - 1] == es[..n - 1];
    } else {
      assert es'[..n - 1] == es[..n - 1][j := e];
      AxisPartsAgree(es[..n - 1], j, e);
    }
  }

  /** Two tables with the same counts and the same slot values synthesize
      the same arrays. */
  lemma SameSlotsSameArrays(x: seq<KeyEntry>, y: seq<KeyEntry>)
    requires ButtonCount(x) == ButtonCount(y) && AxisCount(x) == AxisCount(y)
    requires forall i :: ButtonValue(x, i) == ButtonValue(y, i)
    requires forall i :: AxisValue(x, i) == AxisValue(y, i)
    ensures KeyboardAxes(x) == KeyboardAxes(y) && KeyboardButtons(x) == KeyboardButtons(y)
  {
    assert KeyboardAxes(x) == seq(AxisCount(x), i => AxisValue(x, i));
    assert KeyboardAxes(y) == seq(AxisCount(y), i => AxisValue(y, i));
    assert KeyboardButtons(x) == seq(ButtonCount(x), i => ButtonValue(x, i));
    assert KeyboardButtons(y) == seq(ButtonCount(y), i => ButtonValue(y, i));
  }

  /** An entry with a negative button index and a negative axis index is
      ignored by the synthesis: wherever it sits in the table, the counts
      and every slot are those of the table without it. */
  lemma {:induction false} IdleKeySlots(a: seq<KeyEntry>, e: KeyEntry, b: seq<KeyEntry>)
    requires e.binding.button < 0 && e.binding.axis < 0
    ensures ButtonCount(a + [e] + b) == ButtonCount(a + b) && AxisCount(a + [e] + b) == AxisCount(a + b)
    ensures forall i :: ButtonValue(a + [e] + b, i) == ButtonValue(a + b, i)
    ensures forall i :: AxisValue(a + [e] + b, i) == AxisValue(a + b, i)
  {
    if |b| == 0 {
      assert a + [e] + b == a + [e];
      assert (a + [e])[..|a|] == a;
      assert a + b == a;
    } else {
      var front := b[..|b| - 1];
      assert (a + [e] + b)[..|a + [e] + b| - 1] == a + [e] + front;
      assert (a + b)[..|a + b| - 1] == a + front;
      IdleKeySlots(a, e, front);
    }
  }

  /** A key bound to neither a button nor an axis changes neither array. */
  lemma IdleKeyIgnored(a: seq<KeyEntry>, e: KeyEntry, b: seq<KeyEntry>)
    requires e.binding.button < 0 && e.binding.axis < 0
    ensures KeyboardAxes(a + [e] + b) == KeyboardAxes(a + b)
    ensures KeyboardButtons(a + [e] + b) == KeyboardButtons(a + b)
  {
    IdleKeySlots(a, e, b);
    SameSlotsSameArrays(a + [e] + b, a + b);
  }
}
