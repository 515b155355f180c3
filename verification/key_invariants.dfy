// Keyboard invariants over whole runs: no key is pressed twice, and modifiers follow the masks.
module KeyInvariants {
  import opened ByteOrder
  import opened Messages
  import opened ClientModel
  import opened Effects
  import opened Connections
  import opened Runs

  // ---------- de-duplication ----------

  /** The presses (true) and releases (false) injected for one key, in order. */
  function KeyLog(trace: seq<Event>, k: uint32): seq<bool> {
    if trace == [] then []
    else
      var e := trace[|trace| - 1];
      KeyLog(trace[..|trace| - 1], k) + (if e.KeyEvent? && e.keysym == k then [e.down] else [])
  }

  /** down, up, down, ... */
  ghost predicate Alternates(log: seq<bool>) {
    forall i :: 0 <= i < |log| ==> (log[i] <==> i % 2 == 0)
  }

  /** Every key's presses and releases alternate, starting with a press, and the key is recorded as down
      exactly when the last of them was a press. */
  ghost predicate KeysAgree(c: Core) {
    forall k: uint32 ::
      && Alternates(KeyLog(c.trace, k))
      && (IsDown(c.keyStates, k) <==> |KeyLog(c.trace, k)| % 2 == 1)
  }

  lemma LogAppend(trace: seq<Event>, e: Event, k: uint32)
    ensures KeyLog(trace + [e], k)
         == KeyLog(trace, k) + (if e.KeyEvent? && e.keysym == k then [e.down] else [])
  {
    assert (trace + [e])[..|trace|] == trace;
  }

  lemma {:induction false} AppendUntouched(trace: seq<Event>, more: seq<Event>, k: uint32)
    requires forall i :: 0 <= i < |more| ==> !more[i].KeyEvent?
    ensures KeyLog(trace + more, k) == KeyLog(trace, k)
  {
    if more == [] {
      assert trace + more == trace;
    } else {
      var front := more[..|more| - 1];
      AppendUntouched(trace, front, k);
      LogAppend(trace + front, more[|more| - 1], k);
      assert trace + more == trace + front + [more[|more| - 1]];
      assert KeyLog(trace, k) + [] == KeyLog(trace, k);
    }
  }

  lemma AlternatesAppend(log: seq<bool>, down: bool)
    requires Alternates(log) && (down <==> |log| % 2 == 0)
    ensures Alternates(log + [down])
  {
  }

  /** Pressing a key that is up or releasing one that is down keeps the alternation. */
  lemma SetKeyAgrees(c: Core, k: uint32, down: bool)
    requires KeysAgree(c) && IsDown(c.keyStates, k) != down
    ensures KeysAgree(SetKey(c, k, down))
  {
    hide KeyLog, Alternates;
    var d := SetKey(c, k, down);
    forall j: uint32
      ensures Alternates(KeyLog(d.trace, j))
      ensures IsDown(d.keyStates, j) <==> |KeyLog(d.trace, j)| % 2 == 1
    {
      LogAppend(c.trace, KeyEvent(k, down), j);
      if j == k {
        AlternatesAppend(KeyLog(c.trace, k), down);
      } else {
        assert KeyLog(c.trace, j) + [] == KeyLog(c.trace, j);
      }
    }
  }

  lemma SyncKeyAgrees(c: Core, k: uint32, want: bool)
    requires KeysAgree(c)
    ensures KeysAgree(SyncKey(c, k, want))
  {
    hide SetKey, KeysAgree;
    if want != IsDown(c.keyStates, k) {
      SetKeyAgrees(c, k, want);
    }
  }

  lemma {:induction false} SyncAgrees(c: Core, mask: uint32, bits: seq<uint32>)
    requires KeysAgree(c) && forall i :: 0 <= i < |bits| ==> bits[i] > 0
    ensures KeysAgree(SyncBits(c, mask, bits))
    decreases |bits|
  {
    hide KeysAgree, SyncKey, HasBit, ModifierKeysym;
    if bits != [] {
      SyncKeyAgrees(c, ModifierKeysym(bits[0]), HasBit(mask, bits[0]));
      SyncAgrees(SyncKey(c, ModifierKeysym(bits[0]), HasBit(mask, bits[0])), mask, bits[1..]);
    }
  }

  lemma TouchAgrees(c: Core, k: uint32)
    requires KeysAgree(c)
    ensures KeysAgree(Touch(c, k))
  {
    hide KeyLog, Alternates;
    assert forall j: uint32 :: IsDown(Touch(c, k).keyStates, j) <==> IsDown(c.keyStates, j);
    assert Touch(c, k).trace == c.trace;
  }

  lemma KeyToAgrees(c: Core, id: int16, mask: int16, down: bool)
    requires KeysAgree(c)
    ensures KeysAgree(KeyTo(c, id, mask, down))
  {
    hide KeysAgree, SyncKey, SyncBits, Touch;
    var k := Unsigned32(id);
    SyncAgrees(c, Unsigned32(mask), MODIFIER_BITS);
    TouchAgrees(SyncModifiers(c, Unsigned32(mask)), k);
    SyncKeyAgrees(Touch(SyncModifiers(c, Unsigned32(mask)), k), k, down);
  }

  /** Events that are not key events, at unchanged key states. */
  lemma QuietAgrees(c: Core, d: Core, more: seq<Event>)
    requires KeysAgree(c) && d.keyStates == c.keyStates && d.trace == c.trace + more
    requires forall i :: 0 <= i < |more| ==> !more[i].KeyEvent?
    ensures KeysAgree(d)
  {
    hide KeyLog, Alternates;
    forall k: uint32
      ensures KeyLog(d.trace, k) == KeyLog(c.trace, k)
    {
      AppendUntouched(c.trace, more, k);
    }
  }

  lemma EnterAgrees(c: Core, m: Msg, a: Ambient)
    requires m.Enter? && KeysAgree(c)
    ensures KeysAgree(Handle(c, m, a).core)
  {
    hide KeysAgree, SyncBits, LowestHeld, Clamp;
    var c1 := c.(session := c.session.(active := true, seqNum := m.seqNum));
    var c2 := if MovesPointer(m) then PointerTo(c1, m.x, m.y) else c1;
    assert c2.trace == c.trace + (c2.trace[|c.trace|..]);
    QuietAgrees(c, c2, c2.trace[|c.trace|..]);
    SyncAgrees(c2, Unsigned32(m.mask), MODIFIER_BITS);
  }

  lemma MessageAgrees(c: Core, m: Msg, a: Ambient)
    requires KeysAgree(c)
    ensures KeysAgree(Handle(c, m, a).core)
  {
    hide KeysAgree, Handle, PointerEvents, ButtonsAfter, Told;
    if m.Enter? {
      EnterAgrees(c, m, a);
    } else if IsKeyEvent(m) {
      KeyMessageIs(c, m, a);
      KeyToAgrees(c, m.id, m.mask, !m.KeyUp?);
    } else {
      var keys := HandleChanges(c, m, a);
      PointerEventKinds(c, m, a);
      assert PointerEvents(c, m, a) + [] == PointerEvents(c, m, a);
      QuietAgrees(c, Handle(c, m, a).core, PointerEvents(c, m, a));
    }
  }

  lemma SameKeys(c: Core, d: Core)
    ensures KeysAgree(c) && d.keyStates == c.keyStates && d.trace == c.trace ==> KeysAgree(d)
  {
    hide KeyLog, Alternates;
  }

  /** For every key, over any run whatever (messages, reconnections, pushes): presses and releases
      alternate, starting with a press, and the recorded state is that of the last one. */
  lemma {:induction false} KeysAlternate(c: Core, xs: seq<Action>)
    requires KeysAgree(c)
    ensures KeysAgree(Run(c, xs))
  {
    hide KeysAgree, Handle, Begun;
    if xs != [] {
      var before := Run(c, xs[..|xs| - 1]);
      KeysAlternate(c, xs[..|xs| - 1]);
      match xs[|xs| - 1]
      case Received(m, a) => MessageAgrees(before, m, a);
      case AttemptBegun => BegunKeepsTrace(before); SameKeys(before, Begun(before));
      case HelloRefused => SameKeys(before, Run(c, xs));
      case Pushed(text) => SameKeys(before, Run(c, xs));
      case Resized(w, h) => SameKeys(before, Run(c, xs));
    }
  }

  lemma BegunKeepsTrace(c: Core)
    ensures Begun(c).trace == c.trace && Begun(c).keyStates == c.keyStates
  {
  }

  lemma FreshClientAgrees()
    ensures KeysAgree(INITIAL)
  {
  }
}
