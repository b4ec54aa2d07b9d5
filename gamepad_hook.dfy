/** The gamepad polling hook: one pending animation-frame request at a time,
    held in `requestId` (0 meaning none), polling the connected gamepads on
    each frame and rescheduling while any is connected. */
module GamepadHook {
  import opened JoyTypes

  /** The gamepads present in a snapshot of the browser's gamepad slots, in
      slot order, empty slots skipped. */
  function Present(slots: seq<Option<Gamepad>>): (gs: seq<Gamepad>)
    ensures |gs| <= |slots|
  {
    if |slots| == 0 then []
    else Present(slots[..|slots| - 1]) + (match slots[|slots| - 1] case Some(g) => [g] case None => [])
  }

  /** No gamepad is present exactly when every slot is empty. */
  lemma {:induction false} PresentEmptyIff(slots: seq<Option<Gamepad>>)
    ensures Present(slots) == [] <==> forall i :: 0 <= i < |slots| ==> slots[i].None?
  {
    if |slots| > 0 {
      PresentEmptyIff(slots[..|slots| - 1]);
      assert forall i :: 0 <= i < |slots| - 1 ==> slots[..|slots| - 1][i] == slots[i];
    }
  }

  /** A gamepad is reported exactly when it fills some slot. */
  lemma {:induction false} PresentMembers(slots: seq<Option<Gamepad>>, g: Gamepad)
    ensures g in Present(slots) <==> Some(g) in slots
  {
    if |slots| > 0 {
      var pre := slots[..|slots| - 1];
      PresentMembers(pre, g);
      assert slots == pre + [slots[|slots| - 1]];
    }
  }

  /** Reporting goes slot by slot: the gamepads of consecutive runs of
      slots are reported one run after the other. */
  lemma {:induction false} PresentAppend(a: seq<Option<Gamepad>>, b: seq<Option<Gamepad>>)
    ensures Present(a + b) == Present(a) + Present(b)
  {
    if |b| == 0 {
      assert a + b == a;
    } else {
      var front := b[..|b| - 1];
      assert (a + b)[..|a + b| - 1] == a + front;
      PresentAppend(a, front);
    }
  }

  /** A single slot reports its gamepad, or nothing when it is empty. */
  lemma PresentOfOneSlot(g: Gamepad)
    ensures Present([Some(g)]) == [g] && Present([None]) == []
  {
  }

  /** The indices of the filled slots. */
  function FilledSlots(slots: seq<Option<Gamepad>>): set<int> {
    set i | 0 <= i < |slots| && slots[i].Some?
  }

  /** One gamepad is reported per filled slot. */
  lemma {:induction false} PresentCount(slots: seq<Option<Gamepad>>)
    ensures |Present(slots)| == |FilledSlots(slots)|
  {
    if |slots| > 0 {
      var n := |slots| - 1;
      var front := slots[..n];
      PresentCount(front);
      assert FilledSlots(slots) == FilledSlots(front) + (if slots[n].Some? then {n} else {});
      assert n !in FilledSlots(front);
    }
  }

  /** The hook's state together with the browser's frame-request registry
      (`pending`, the ids requested and neither fired nor cancelled, and
      `nextId`, the next id the browser hands out) and the calls made to
      the panel's callbacks. */
  class GamepadPoller {
    var requestId: nat
    var pending: set<nat>
    var nextId: nat
    var updated: seq<Gamepad>
    var connected: seq<Gamepad>
    var disconnected: seq<Gamepad>

    /** The stored id is exactly the one outstanding request, or 0 when none
        is outstanding; request ids are never 0. */
    ghost predicate Valid()
      reads this
    {
      && 0 < nextId
      && (requestId == 0 ==> pending == {})
      && (requestId != 0 ==> pending == {requestId} && requestId < nextId)
    }

    /** At most one frame request is ever outstanding. */
    lemma AtMostOneOutstanding()
      requires Valid()
      ensures |pending| <= 1
      ensures forall p :: p in pending ==> p == requestId && p != 0
    {
    }

    /** The hook at mount, before its effects run. */
    constructor ()
      ensures Valid()
      ensures requestId == 0 && pending == {} && updated == [] && connected == [] && disconnected == []
    {
      requestId := 0;
      pending := {};
      nextId := 1;
      updated, connected, disconnected := [], [], [];
    }

    /** `requestAnimationFrame`: registers a fresh, non-zero request id. */
    method RequestFrame() returns (id: nat)
      modifies this`pending, this`nextId
      ensures id == old(nextId)
      ensures pending == old(pending) + {id} && nextId == old(nextId) + 1
    {
      id := nextId;
      pending := pending + {id};
      nextId := nextId + 1;
    }

    /** `cancelAnimationFrame`: withdraws a request. */
    method CancelFrame(id: nat)
      modifies this`pending
      ensures pending == old(pending) - {id}
    {
      pending := pending - {id};
    }

    /** The pending frame fires: every present gamepad is reported, in slot
        order, and a new frame is requested exactly when one was present. */
    method OnAnimationFrame(slots: seq<Option<Gamepad>>)
      requires Valid() && requestId != 0
      modifies this`requestId, this`pending, this`nextId, this`updated
      ensures Valid()
      ensures updated == old(updated) + Present(slots)
      ensures requestId == 0 <==> Present(slots) == []
      ensures requestId != 0 ==> requestId == old(nextId) && old(requestId) !in pending
      ensures requestId == 0 ==> nextId == old(nextId) && pending == {}
      ensures connected == old(connected) && disconnected == old(disconnected)
    {
      pending := pending - {requestId};
      var gamepadCount := 0;
      for i := 0 to |slots|
        invariant pending == {} && 0 < nextId == old(nextId)
        invariant gamepadCount == |Present(slots[..i])|
        invariant updated == old(updated) + Present(slots[..i])
        invariant connected == old(connected) && disconnected == old(disconnected)
      {
        assert slots[..i + 1][..i] == slots[..i];
        match slots[i]
        case None =>
        case Some(gamepad) =>
          updated := updated + [gamepad];
          gamepadCount := gamepadCount + 1;
      }
      assert slots[..|slots|] == slots;
      if gamepadCount == 0 {
        requestId := 0;
      } else {
        requestId := RequestFrame();
      }
    }

    /** The effect that runs when the frame callback is replaced: cancel the
        outstanding request, if any, and request a frame for the new one. */
    method RescheduleEffect()
      requires Valid()
      modifies this`requestId, this`pending, this`nextId
      ensures Valid()
      ensures requestId == old(nextId) && pending == {requestId}
      ensures old(requestId) != 0 ==> old(requestId) !in pending
    {
      if requestId != 0 {
        CancelFrame(requestId);
      }
      requestId := RequestFrame();
    }

    /** A gamepad connects: report it, and request a frame unless one is
        already pending. */
    method OnConnect(gamepad: Gamepad)
      requires Valid()
      modifies this`requestId, this`pending, this`nextId, this`connected
      ensures Valid()
      ensures connected == old(connected) + [gamepad]
      ensures old(requestId) != 0 ==> requestId == old(requestId) && pending == old(pending) && nextId == old(nextId)
      ensures old(requestId) == 0 ==> requestId == old(nextId) && pending == {requestId}
    {
      connected := connected + [gamepad];
      if requestId == 0 {
        requestId := RequestFrame();
      }
    }

    /** A gamepad disconnects: report it and nothing else. */
    method OnDisconnect(gamepad: Gamepad)
      requires Valid()
      modifies this`disconnected
      ensures Valid()
      ensures disconnected == old(disconnected) + [gamepad]
    {
      disconnected := disconnected + [gamepad];
    }

    /** Unmount: cancel the pending request, if any; nothing stays requested. */
    method Unmount()
      requires Valid()
      modifies this`requestId, this`pending
      ensures Valid()
      ensures requestId == 0 && pending == {}
      ensures old(requestId) == 0 ==> pending == old(pending)
    {
      if requestId != 0 {
        CancelFrame(requestId);
        requestId := 0;
      }
    }
  }
}
