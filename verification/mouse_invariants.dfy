// Mouse invariants over whole runs: which buttons are held and what a drag carries.
module MouseInvariants {
  import opened ByteOrder
  import opened Messages
  import opened ClientModel
  import opened Effects
  import opened Runs

  // ---------- held buttons and drags ----------

  /** Whether the last event for the button was a press. */
  function HeldIn(trace: seq<Event>, b: Button): bool {
    if trace == [] then false
    else
      var e := trace[|trace| - 1];
      if e.ButtonEvent? && e.button == b then e.down else HeldIn(trace[..|trace| - 1], b)
  }

  function LowestIn(trace: seq<Event>): Option<Button> {
    if HeldIn(trace, LeftButton) then Some(LeftButton)
    else if HeldIn(trace, MiddleButton) then Some(MiddleButton)
    else if HeldIn(trace, RightButton) then Some(RightButton)
    else None
  }

  /** Every move carries the lowest button held at that point of the trace, or none. */
  ghost predicate MovesCarryHeld(trace: seq<Event>) {
    forall i :: 0 <= i < |trace| && trace[i].MoveEvent? ==> trace[i].held == LowestIn(trace[..i])
  }

  ghost predicate ButtonsMatch(c: Core) {
    && (forall id :: id in c.buttonsDown ==> 1 <= id <= 3)
    && (Holds(c.buttonsDown, 1) <==> HeldIn(c.trace, LeftButton))
    && (Holds(c.buttonsDown, 2) <==> HeldIn(c.trace, MiddleButton))
    && (Holds(c.buttonsDown, 3) <==> HeldIn(c.trace, RightButton))
  }

  ghost predicate ButtonsAgree(c: Core) {
    ButtonsMatch(c) && MovesCarryHeld(c.trace)
  }

  lemma HeldAppend(trace: seq<Event>, e: Event, b: Button)
    ensures HeldIn(trace + [e], b) == if e.ButtonEvent? && e.button == b then e.down else HeldIn(trace, b)
  {
    assert (trace + [e])[..|trace|] == trace;
  }

  lemma CarryAppend(trace: seq<Event>, e: Event)
    requires MovesCarryHeld(trace)
    requires e.MoveEvent? ==> e.held == LowestIn(trace)
    ensures MovesCarryHeld(trace + [e])
  {
    hide LowestIn;
    var all := trace + [e];
    forall i | 0 <= i < |all| && all[i].MoveEvent?
      ensures all[i].held == LowestIn(all[..i])
    {
      if i < |trace| {
        assert all[..i] == trace[..i] && all[i] == trace[i];
      } else {
        assert all[..i] == trace;
      }
    }
  }

  lemma EmitAgrees(c: Core, e: Event)
    requires ButtonsAgree(c) && !e.ButtonEvent?
    requires e.MoveEvent? ==> e.held == LowestHeld(c.buttonsDown)
    ensures ButtonsAgree(Emit(c, e))
  {
    hide HeldIn;
    HeldAppend(c.trace, e, LeftButton);
    HeldAppend(c.trace, e, MiddleButton);
    HeldAppend(c.trace, e, RightButton);
    CarryAppend(c.trace, e);
  }

  lemma {:induction false} AppendQuietAgrees(c: Core, more: seq<Event>)
    requires ButtonsAgree(c) && forall i :: 0 <= i < |more| ==> !more[i].ButtonEvent? && !more[i].MoveEvent?
    ensures ButtonsAgree(c.(trace := c.trace + more))
  {
    hide ButtonsAgree;
    if more == [] {
      assert c.trace + more == c.trace;
    } else {
      var front, last := more[..|more| - 1], more[|more| - 1];
      AppendQuietAgrees(c, front);
      EmitAgrees(c.(trace := c.trace + front), last);
      assert c.trace + more == c.trace + front + [last];
    }
  }

  lemma PressAgrees(c: Core, id: int, down: bool, at: Place)
    requires ButtonsAgree(c) && 1 <= id <= 3
    ensures ButtonsAgree(c.(buttonsDown := c.buttonsDown[id := down],
      trace := c.trace + [ButtonEvent(HarmonyButton(id).value, down, at.x, at.y)]))
  {
    hide HeldIn, MovesCarryHeld;
    var e := ButtonEvent(HarmonyButton(id).value, down, at.x, at.y);
    HeldAppend(c.trace, e, LeftButton);
    HeldAppend(c.trace, e, MiddleButton);
    HeldAppend(c.trace, e, RightButton);
    CarryAppend(c.trace, e);
  }

  lemma {:induction false} HeldAfterReleases(trace: seq<Event>, bs: seq<Button>, at: Place, b: Button)
    requires MovesCarryHeld(trace)
    ensures MovesCarryHeld(trace + Releases(bs, at))
    ensures HeldIn(trace + Releases(bs, at), b) <==> HeldIn(trace, b) && b !in bs
    decreases |bs|
  {
    hide MovesCarryHeld;
    if bs == [] {
      assert trace + [] == trace;
    } else {
      var e := ButtonEvent(bs[0], false, at.x, at.y);
      HeldAppend(trace, e, b);
      CarryAppend(trace, e);
      HeldAfterReleases(trace + [e], bs[1..], at, b);
      assert trace + [e] + Releases(bs[1..], at) == trace + Releases(bs, at);
    }
  }

  lemma LeaveAgrees(c: Core)
    requires ButtonsAgree(c)
    ensures ButtonsAgree(c.(buttonsDown := map[],
      trace := c.trace + Releases(HeldButtons(c.buttonsDown), Clamped(c))))
  {
    hide HeldIn, MovesCarryHeld, Clamped, Releases;
    var bs, at := HeldButtons(c.buttonsDown), Clamped(c);
    HeldAfterReleases(c.trace, bs, at, LeftButton);
    HeldAfterReleases(c.trace, bs, at, MiddleButton);
    HeldAfterReleases(c.trace, bs, at, RightButton);
  }

  lemma SameButtons(c: Core, d: Core)
    ensures ButtonsAgree(c) && d.buttonsDown == c.buttonsDown && d.trace == c.trace ==> ButtonsAgree(d)
  {
    hide HeldIn, MovesCarryHeld;
  }

  lemma MoveCarriesLowest(c: Core, m: Msg)
    ensures MoveEventOf(c, m).MoveEvent? && MoveEventOf(c, m).held == LowestHeld(c.buttonsDown)
  {
  }

  /** The state after a message but for its key events. */
  lemma PointerEventsAgree(c: Core, m: Msg, a: Ambient)
    requires ButtonsAgree(c)
    ensures ButtonsAgree(c.(buttonsDown := ButtonsAfter(c.buttonsDown, m), trace := c.trace + PointerEvents(c, m, a)))
  {
    hide ButtonsAgree, WheelEvents, ButtonEvents, Releases, HeldButtons, Clamped, MoveEventOf;
    PointerEventKinds(c, m, a);
    match m
    case Leave => LeaveAgrees(c);
    case MouseDown(b) =>
      ButtonEventsAre(c, b, true, a);
      if 1 <= b <= 3 { PressAgrees(c, b, true, Clamped(c)); } else { AppendQuietAgrees(c, PointerEvents(c, m, a)); }
    case MouseUp(b) =>
      ButtonEventsAre(c, b, false, a);
      if 1 <= b <= 3 { PressAgrees(c, b, false, Clamped(c)); } else { AppendQuietAgrees(c, PointerEvents(c, m, a)); }
    case _ =>
      if MovesPointer(m) {
        MoveCarriesLowest(c, m);
        EmitAgrees(c, MoveEventOf(c, m));
      } else {
        AppendQuietAgrees(c, PointerEvents(c, m, a));
      }
  }

  lemma MessageButtons(c: Core, m: Msg, a: Ambient)
    requires ButtonsAgree(c)
    ensures ButtonsAgree(Handle(c, m, a).core)
  {
    hide ButtonsAgree, Handle, PointerEvents, ButtonsAfter, Told;
    var keys := HandleChanges(c, m, a);
    PointerEventsAgree(c, m, a);
    var mid := c.(buttonsDown := ButtonsAfter(c.buttonsDown, m), trace := c.trace + PointerEvents(c, m, a));
    AppendQuietAgrees(mid, keys);
    assert c.trace + PointerEvents(c, m, a) + keys == c.trace + (PointerEvents(c, m, a) + keys);
    SameButtons(mid.(trace := mid.trace + keys), Handle(c, m, a).core);
  }

  /** Over any run: the recorded buttons are those whose last event was a press, only buttons 1 to 3 are
      recorded, and every move carries the lowest button then held. */
  lemma {:induction false} DragsAreConsistent(c: Core, xs: seq<Action>)
    requires ButtonsAgree(c)
    ensures ButtonsAgree(Run(c, xs))
  {
    hide ButtonsAgree, Handle;
    if xs != [] {
      var before := Run(c, xs[..|xs| - 1]);
      DragsAreConsistent(c, xs[..|xs| - 1]);
      match xs[|xs| - 1]
      case Received(m, a) => MessageButtons(before, m, a);
      case _ => SameButtons(before, Run(c, xs));
    }
  }

  lemma FreshClientButtons()
    ensures ButtonsAgree(INITIAL)
  {
  }
}
