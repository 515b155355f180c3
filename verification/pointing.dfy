// The pointer is where the messages put it, and buttons act where it was last moved to.
module Pointing {
  import opened ByteOrder
  import opened Messages
  import opened ClientModel
  import opened Effects
  import opened Runs

  // ---------- where the pointer is ----------

  function ToldAll(at: Place, ms: seq<Msg>, s: Screen): Place {
    if ms == [] then at else Told(ToldAll(at, ms[..|ms| - 1], s), ms[|ms| - 1], s)
  }

  lemma MessagePoints(c: Core, m: Msg, a: Ambient)
    ensures Pointer(Handle(c, m, a).core) == Told(Pointer(c), m, c.screen)
    ensures Handle(c, m, a).core.screen == c.screen
  {
    hide Handle, PointerEvents, ButtonsAfter, Told;
    var _ := HandleChanges(c, m, a);
  }

  /** Over any run that does not set the size of the screen, the pointer is where the moves and entries
      among the messages put it; nothing else moves it. */
  lemma {:induction false} PointerFollowsMessages(c: Core, xs: seq<Action>)
    requires KeepsScreen(xs)
    ensures Pointer(Run(c, xs)) == ToldAll(Pointer(c), MessagesOf(xs), c.screen)
    ensures Run(c, xs).screen == c.screen
  {
    hide Handle, Told;
    if xs != [] {
      var front, x := xs[..|xs| - 1], xs[|xs| - 1];
      PointerFollowsMessages(c, front);
      if x.Received? {
        MessagePoints(Run(c, front), x.m, x.a);
        assert MessagesOf(xs) == MessagesOf(front) + [x.m];
        assert MessagesOf(xs)[..|MessagesOf(front)|] == MessagesOf(front);
      } else {
        assert MessagesOf(xs) == MessagesOf(front);
      }
    }
  }

  /** A relative move lands on the screen exactly when the screen is not empty. */
  lemma OnScreenExactlyFromOne(size: int)
    ensures (forall v :: 0 <= OnScreen(v, size) < size) <==> size >= 1
  {
    if size < 1 {
      assert OnScreen(0, size) == size - 1;
    }
  }

  /** And no coordinate of the screen is nearer to the one asked for. */
  lemma OnScreenIsNearest(v: int, size: int, p: int)
    requires 0 <= p < size
    ensures Distance(OnScreen(v, size), v) <= Distance(p, v)
  {
  }

  /** A relative move takes the pointer to the point of the screen nearest to the sum: the sum itself if it
      is on the screen. */
  lemma RelMoveIsNearest(c: Core, dx: int16, dy: int16, a: Ambient, x: int, y: int)
    requires 0 <= x < c.screen.w && 0 <= y < c.screen.h
    ensures var d := Handle(c, MouseRelMove(dx, dy), a).core;
      && Distance(d.pointerX, c.pointerX + dx) <= Distance(x, c.pointerX + dx)
      && Distance(d.pointerY, c.pointerY + dy) <= Distance(y, c.pointerY + dy)
  {
    hide Handle, OnScreen;
    MessagePoints(c, MouseRelMove(dx, dy), a);
    OnScreenIsNearest(c.pointerX + dx, c.screen.w, x);
    OnScreenIsNearest(c.pointerY + dy, c.screen.h, y);
  }

  lemma RelMoveStaysOnScreen(c: Core, dx: int16, dy: int16)
    requires c.screen.w >= 1 && c.screen.h >= 1
    ensures var d := PointerBy(c, dx, dy);
      0 <= d.pointerX < c.screen.w && 0 <= d.pointerY < c.screen.h
  {
  }

  function Larger(a: int, b: int): int {
    if a >= b then a else b
  }

  /** The screen is not empty and no larger than `w` by `h`, and the pointer is within the range of the
      coordinates sent or of such a screen. */
  ghost predicate PointerInRange(c: Core, w: int, h: int) {
    && 1 <= c.screen.w <= w && 1 <= c.screen.h <= h
    && -0x8000 <= c.pointerX <= Larger(0x7FFF, w - 1)
    && -0x8000 <= c.pointerY <= Larger(0x7FFF, h - 1)
  }

  lemma StepKeepsRange(c: Core, x: Action, w: int, h: int)
    requires PointerInRange(c, w, h)
    requires x.Resized? ==> 1 <= x.w <= w && 1 <= x.h <= h
    ensures PointerInRange(Perform(c, x), w, h)
  {
    hide Handle;
    if x.Received? {
      MessagePoints(c, x.m, x.a);
    }
  }

  /** Over any run, also when the size is set in between, the pointer never leaves the range of the
      coordinates sent or of the largest screen. */
  lemma {:induction false} PointerStaysInRange(c: Core, xs: seq<Action>, w: int, h: int)
    requires PointerInRange(c, w, h)
    requires forall i :: 0 <= i < |xs| && xs[i].Resized? ==> 1 <= xs[i].w <= w && 1 <= xs[i].h <= h
    ensures PointerInRange(Run(c, xs), w, h)
  {
    hide Perform, PointerInRange;
    if xs != [] {
      PointerStaysInRange(c, xs[..|xs| - 1], w, h);
      StepKeepsRange(Run(c, xs[..|xs| - 1]), xs[|xs| - 1], w, h);
    }
  }

  /** Adding a relative move to such a pointer cannot overflow 32 bits on screens of at most
      2^31 - 2^15 points. */
  lemma RelMoveCannotOverflow(c: Core, d: int16, w: int, h: int)
    requires PointerInRange(c, w, h) && w <= 0x7FFF_8000 && h <= 0x7FFF_8000
    ensures -0x8000_0000 <= c.pointerX + d < 0x8000_0000
    ensures -0x8000_0000 <= c.pointerY + d < 0x8000_0000
  {
  }

  /** The size last set. */
  function LastSize(xs: seq<Action>, before: Screen): Screen {
    if xs == [] then before
    else if xs[|xs| - 1].Resized? then Screen(xs[|xs| - 1].w, xs[|xs| - 1].h, before.name)
    else LastSize(xs[..|xs| - 1], before)
  }

  /** Over any run the screen has the width and height last set and its name. */
  lemma {:induction false} ScreenIsLastSet(c: Core, xs: seq<Action>)
    ensures Run(c, xs).screen == LastSize(xs, c.screen)
    ensures Run(c, xs).screen.name == c.screen.name
  {
    hide Handle;
    if xs != [] {
      ScreenIsLastSet(c, xs[..|xs| - 1]);
      var x := xs[|xs| - 1];
      if x.Received? {
        MessagePoints(Run(c, xs[..|xs| - 1]), x.m, x.a);
      }
    }
  }

  // ---------- where buttons act ----------

  /** Where the last move of the trace went. */
  function LastMove(trace: seq<Event>): Option<Place> {
    if trace == [] then None
    else
      var e := trace[|trace| - 1];
      if e.MoveEvent? then Some(Place(e.x, e.y)) else LastMove(trace[..|trace| - 1])
  }

  /** The button event acts at `at`, if the system has been told any place. */
  predicate ActsAt(e: Event, at: Option<Place>) {
    e.ButtonEvent? && at.Some? ==> Place(e.x, e.y) == at.value
  }

  /** Every button event acts at the place of the last move before it. */
  ghost predicate ButtonsActWhereMoved(trace: seq<Event>) {
    forall i :: 0 <= i < |trace| ==> ActsAt(trace[i], LastMove(trace[..i]))
  }

  lemma EventActs(trace: seq<Event>, e: Event)
    ensures LastMove(trace + [e]) == if e.MoveEvent? then Some(Place(e.x, e.y)) else LastMove(trace)
    ensures ButtonsActWhereMoved(trace + [e]) <==> ButtonsActWhereMoved(trace) && ActsAt(e, LastMove(trace))
  {
    hide ActsAt;
    var all := trace + [e];
    assert all[..|trace|] == trace;
    assert forall i :: 0 <= i < |trace| ==> all[..i] == trace[..i] && all[i] == trace[i];
    if ButtonsActWhereMoved(all) {
      assert ActsAt(all[|trace|], LastMove(all[..|trace|]));
      forall i | 0 <= i < |trace|
        ensures ActsAt(trace[i], LastMove(trace[..i]))
      {
        assert ActsAt(all[i], LastMove(all[..i]));
      }
    }
  }

  lemma {:induction false} QuietActs(trace: seq<Event>, more: seq<Event>)
    requires forall i :: 0 <= i < |more| ==> !more[i].ButtonEvent? && !more[i].MoveEvent?
    ensures LastMove(trace + more) == LastMove(trace)
    ensures ButtonsActWhereMoved(trace + more) <==> ButtonsActWhereMoved(trace)
    decreases |more|
  {
    hide LastMove, ButtonsActWhereMoved;
    if more == [] {
      assert trace + more == trace;
    } else {
      var front, last := more[..|more| - 1], more[|more| - 1];
      QuietActs(trace, front);
      EventActs(trace + front, last);
      assert trace + front + [last] == trace + more;
    }
  }

  lemma {:induction false} PressesAct(trace: seq<Event>, more: seq<Event>, at: Place)
    requires more != [] && forall i :: 0 <= i < |more| ==> more[i].ButtonEvent? && Place(more[i].x, more[i].y) == at
    ensures LastMove(trace + more) == LastMove(trace)
    ensures ButtonsActWhereMoved(trace + more)
      <==> ButtonsActWhereMoved(trace) && (LastMove(trace).Some? ==> LastMove(trace).value == at)
    decreases |more|
  {
    hide LastMove, ButtonsActWhereMoved;
    var front, last := more[..|more| - 1], more[|more| - 1];
    EventActs(trace + front, last);
    assert trace + front + [last] == trace + more;
    if front == [] {
      assert trace + front == trace;
    } else {
      PressesAct(trace, front, at);
    }
  }

  // ---------- over runs ----------

  predicate Moves(x: Action) {
    x.Received? && MovesPointer(x.m)
  }

  /** The action presses or releases a button the system knows. */
  predicate IsPress(c: Core, x: Action) {
    x.Received? && Presses(c, x.m)
  }

  lemma MessageActs(c: Core, m: Msg, a: Ambient)
    ensures var d := Handle(c, m, a).core; var last := LastMove(c.trace);
      && LastMove(d.trace) == (if MovesPointer(m) then Some(Clamped(d)) else last)
      && (ButtonsActWhereMoved(d.trace)
          <==> ButtonsActWhereMoved(c.trace) && (Presses(c, m) && last.Some? ==> last.value == Clamped(c)))
  {
    hide Handle, PointerEvents, ButtonsAfter, LastMove, ButtonsActWhereMoved, Clamp, LowestHeld, OnScreen, HeldButtons;
    var keys := HandleChanges(c, m, a);
    PointerEventKinds(c, m, a);
    var t := PointerEvents(c, m, a);
    assert c.trace + t + keys == c.trace + (t + keys);
    QuietActs(c.trace + t, keys);
    if MovesPointer(m) {
      EventActs(c.trace, MoveEventOf(c, m));
    } else if Presses(c, m) {
      PressesAct(c.trace, t, Clamped(c));
    } else {
      QuietActs(c.trace, t);
    }
  }

  lemma StepActs(c: Core, x: Action)
    ensures var d := Perform(c, x); var last := LastMove(c.trace);
      && LastMove(d.trace) == (if Moves(x) then Some(Clamped(d)) else last)
      && (ButtonsActWhereMoved(d.trace)
          <==> ButtonsActWhereMoved(c.trace) && (IsPress(c, x) && last.Some? ==> last.value == Clamped(c)))
  {
    hide Handle, LastMove, ButtonsActWhereMoved, Clamped, Presses;
    if x.Received? {
      MessageActs(c, x.m, x.a);
    }
  }

  /** The clamped pointer just after the last move or entry of a run; before any, where the trace so far
      leaves it. */
  function PlacedAt(c: Core, xs: seq<Action>): Option<Place> {
    if xs == [] then LastMove(c.trace)
    else if Moves(xs[|xs| - 1]) then Some(Clamped(Run(c, xs)))
    else PlacedAt(c, xs[..|xs| - 1])
  }

  lemma {:induction false} PlacedIsLastMove(c: Core, xs: seq<Action>)
    ensures PlacedAt(c, xs) == LastMove(Run(c, xs).trace)
  {
    hide Perform, LastMove, Clamped;
    if xs != [] {
      PlacedIsLastMove(c, xs[..|xs| - 1]);
      StepActs(Run(c, xs[..|xs| - 1]), xs[|xs| - 1]);
    }
  }

  /** If the `i`-th action presses or releases a button, the pointer, clamped to the screen of that moment,
      is still where the last move or entry before it put it. */
  predicate PressKeepsPlace(c: Core, xs: seq<Action>, i: nat)
    requires i < |xs|
  {
    IsPress(Run(c, xs[..i]), xs[i]) && PlacedAt(c, xs[..i]).Some? ==>
      PlacedAt(c, xs[..i]).value == Clamped(Run(c, xs[..i]))
  }

  /** Over any run, whatever sizes are set in between: every button is pressed and released where the last
      move before it went if and only if at each press or release the pointer, clamped to the screen of
      that moment, is still where the last move or entry put it. Only setting the size can change that
      (see ButtonsActOnOneScreen), and a move or entry before the press mends it. */
  lemma {:induction false} ButtonsActWherePointed(c: Core, xs: seq<Action>)
    requires ButtonsActWhereMoved(c.trace)
    ensures ButtonsActWhereMoved(Run(c, xs).trace) <==> forall i :: 0 <= i < |xs| ==> PressKeepsPlace(c, xs, i)
  {
    hide Perform, LastMove, Clamped, ButtonsActWhereMoved, IsPress, PlacedAt;
    if xs != [] {
      var front, x := xs[..|xs| - 1], xs[|xs| - 1];
      ButtonsActWherePointed(c, front);
      PlacedIsLastMove(c, front);
      StepActs(Run(c, front), x);
      assert xs[..|front|] == front;
      forall i | 0 <= i < |front|
        ensures PressKeepsPlace(c, xs, i) <==> PressKeepsPlace(c, front, i)
      {
        assert front[..i] == xs[..i] && front[i] == xs[i];
      }
      if forall i :: 0 <= i < |front| ==> PressKeepsPlace(c, front, i) {
        if PressKeepsPlace(c, xs, |front|) {
          forall i | 0 <= i < |xs|
            ensures PressKeepsPlace(c, xs, i)
          {
            if i < |front| {
              assert PressKeepsPlace(c, front, i);
            }
          }
        }
      } else {
        var i :| 0 <= i < |front| && !PressKeepsPlace(c, front, i);
        assert !PressKeepsPlace(c, xs, i);
      }
    }
  }

  /** The last move went to the clamped pointer. */
  ghost predicate Tracks(c: Core) {
    && ButtonsActWhereMoved(c.trace)
    && (LastMove(c.trace).Some? ==> LastMove(c.trace).value == Clamped(c))
  }

  /** On one screen, buttons always act where the pointer was last moved to. */
  lemma {:induction false} ButtonsActOnOneScreen(c: Core, xs: seq<Action>)
    requires Tracks(c) && KeepsScreen(xs)
    ensures Tracks(Run(c, xs))
  {
    hide Handle, LastMove, ButtonsActWhereMoved, Clamp, Presses, Told;
    if xs != [] {
      var before, x := Run(c, xs[..|xs| - 1]), xs[|xs| - 1];
      ButtonsActOnOneScreen(c, xs[..|xs| - 1]);
      StepActs(before, x);
      if x.Received? {
        MessagePoints(before, x.m, x.a);
        OthersStay(Pointer(before), x.m, before.screen);
      }
    }
  }

  lemma OthersStay(at: Place, m: Msg, s: Screen)
    ensures !MovesPointer(m) ==> Told(at, m, s) == at
  {
  }

  /** The pointer is moved, the screen is made smaller, a new connection begins, a button is pressed. */
  function ShrunkScreen(a: Ambient): seq<Action> {
    [Received(MouseMove(900, 500), a), Resized(800, 600), AttemptBegun, Received(MouseDown(1), a)]
  }

  lemma ShrunkScreenPlaces(c: Core, a: Ambient)
    requires c.screen.w == 1280 && c.screen.h == 800
    ensures var c1 := Perform(c, ShrunkScreen(a)[0]);
      var c3 := Perform(Perform(c1, ShrunkScreen(a)[1]), ShrunkScreen(a)[2]);
      Clamped(c1) == Place(900, 500) && Clamped(c3) == Place(799, 500)
  {
    hide Handle;
    MessagePoints(c, MouseMove(900, 500), a);
  }

  /** The screen is made smaller between two connections, and a button is pressed before any move of the
      second: not where the last move went. */
  lemma ResizeCanMoveButtons(a: Ambient)
    ensures !ButtonsActWhereMoved(Run(INITIAL, ShrunkScreen(a)).trace)
  {
    hide Perform, Clamped, ButtonsActWhereMoved;
    var xs := ShrunkScreen(a);
    NothingActs();
    ButtonsActWherePointed(INITIAL, xs);
    ShrunkScreenPlaces(INITIAL, a);
    assert xs[..3][..2] == xs[..2] && xs[..2][..1] == xs[..1] && xs[..1][..0] == [];
    assert Run(INITIAL, []) == INITIAL;
    assert Run(INITIAL, xs[..1]) == Perform(INITIAL, xs[0]);
    assert Run(INITIAL, xs[..2]) == Perform(Run(INITIAL, xs[..1]), xs[1]);
    assert Run(INITIAL, xs[..3]) == Perform(Run(INITIAL, xs[..2]), xs[2]);
    assert PlacedAt(INITIAL, xs[..1]) == Some(Place(900, 500));
    assert PlacedAt(INITIAL, xs[..2]) == PlacedAt(INITIAL, xs[..1]);
    assert PlacedAt(INITIAL, xs[..3]) == PlacedAt(INITIAL, xs[..2]);
    assert !PressKeepsPlace(INITIAL, xs, 3);
  }

  lemma NothingActs()
    ensures ButtonsActWhereMoved(INITIAL.trace)
  {
  }

  lemma FreshClientTracks()
    ensures Tracks(INITIAL)
  {
  }
}
