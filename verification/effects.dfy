// What handling a message changes and what it injects, told field by field; the invariants of the client
// rest on this.
module Effects {
  import opened ByteOrder
  import opened Messages
  import opened ClientModel

  // ---------- what is injected and what changes ----------

  datatype Place = Place(x: int, y: int)

  function Pointer(c: Core): Place {
    Place(c.pointerX, c.pointerY)
  }

  /** Where events at the pointer are injected. */
  function Clamped(c: Core): Place {
    Place(Clamp(c.pointerX, c.screen.w), Clamp(c.pointerY, c.screen.h))
  }

  /** Where a message leaves the pointer. */
  function Told(at: Place, m: Msg, s: Screen): Place {
    match m
    case Enter(x, y, _, _) => if x >= 0 && y >= 0 then Place(x, y) else at
    case MouseMove(x, y) => Place(x, y)
    case MouseRelMove(dx, dy) => Place(OnScreen(at.x + dx, s.w), OnScreen(at.y + dy, s.h))
    case _ => at
  }

  function Distance(a: int, b: int): nat {
    if a < b then b - a else a - b
  }

  predicate MovesPointer(m: Msg) {
    m.MouseMove? || m.MouseRelMove? || (m.Enter? && m.x >= 0 && m.y >= 0)
  }

  predicate CarriesMask(m: Msg) {
    m.Enter? || IsKeyEvent(m)
  }

  /** A message after which the server must not be called again. */
  predicate IsFatal(m: Msg) {
    m.Close? || m.Incompatible?
  }

  function HeldAt(buttons: map<int, bool>, id: int): seq<Button>
    requires 1 <= id <= 3
  {
    if Holds(buttons, id) then [HarmonyButton(id).value] else []
  }

  /** Held buttons in ascending order. */
  function HeldButtons(buttons: map<int, bool>): seq<Button> {
    HeldAt(buttons, 1) + HeldAt(buttons, 2) + HeldAt(buttons, 3)
  }

  function Releases(bs: seq<Button>, at: Place): seq<Event> {
    if bs == [] then [] else [ButtonEvent(bs[0], false, at.x, at.y)] + Releases(bs[1..], at)
  }

  /** Which buttons a message leaves held. */
  function ButtonsAfter(buttons: map<int, bool>, m: Msg): map<int, bool> {
    match m
    case MouseDown(b) => if 1 <= b <= 3 then buttons[b as int := true] else buttons
    case MouseUp(b) => if 1 <= b <= 3 then buttons[b as int := false] else buttons
    case Leave => map[]
    case _ => buttons
  }

  function WheelEvents(c: Core, dx: int, dy: int, a: Ambient): seq<Event> {
    if dx == 0 && dy == 0 then []
    else
      var v := if a.invert then -dy else dy;
      AxisEvents(v != 0, if v != 0 then v else dx, c.pointerX, c.pointerY, a.accepts)
  }

  function ButtonEvents(c: Core, id: int, down: bool, a: Ambient): seq<Event> {
    match HarmonyButton(id)
    case Some(b) => [ButtonEvent(b, down, Clamped(c).x, Clamped(c).y)]
    case None => if id == 4 || id == 5 then WheelEvents(c, 0, if id == 4 then 1 else -1, a) else []
  }

  /** The move that a message injects: at the clamped new place, carrying the lowest held button. */
  function MoveEventOf(c: Core, m: Msg): Event {
    var at := Told(Pointer(c), m, c.screen);
    MoveEvent(Clamp(at.x, c.screen.w), Clamp(at.y, c.screen.h), LowestHeld(c.buttonsDown))
  }

  /** Everything a message injects but key events. */
  function PointerEvents(c: Core, m: Msg, a: Ambient): seq<Event> {
    match m
    case Leave => Releases(HeldButtons(c.buttonsDown), Clamped(c))
    case MouseDown(b) => ButtonEvents(c, b, true, a)
    case MouseUp(b) => ButtonEvents(c, b, false, a)
    case MouseWheel(dx, dy) => WheelEvents(c, dx, dy, a)
    case _ => if MovesPointer(m) then [MoveEventOf(c, m)] else []
  }

  /** The message presses or releases a button the system knows. */
  predicate Presses(c: Core, m: Msg) {
    || ((m.MouseDown? || m.MouseUp?) && 1 <= m.button <= 3)
    || (m.Leave? && HeldButtons(c.buttonsDown) != [])
  }

  ghost predicate AllKeys(more: seq<Event>) {
    forall i :: 0 <= i < |more| ==> more[i].KeyEvent?
  }

  /** `d` is `c` after the message, with `keys` injected last: a message only changes its own fields. */
  ghost predicate Changes(c: Core, m: Msg, a: Ambient, d: Core, keys: seq<Event>) {
    && d == c.(session := d.session, keyStates := d.keyStates, board := d.board, trace := d.trace,
               buttonsDown := ButtonsAfter(c.buttonsDown, m),
               pointerX := Told(Pointer(c), m, c.screen).x, pointerY := Told(Pointer(c), m, c.screen).y)
    && d.trace == c.trace + (PointerEvents(c, m, a) + keys)
    && AllKeys(keys) && (!CarriesMask(m) ==> keys == [] && d.keyStates == c.keyStates)
    && (!m.Clipboard? ==> d.board == c.board)
    && d.session.seqNum == (if m.Enter? then m.seqNum else c.session.seqNum)
    && (d.session.active <==> m.Enter? || (c.session.active && !m.Leave?))
    && (d.session.handshakeDone <==> c.session.handshakeDone || m.SetOptions?)
    && (d.session.shouldReconnect <==> c.session.shouldReconnect && !IsFatal(m))
  }

  // ---------- keys ----------

  /** Only key events have been appended, and nothing but the key states has changed otherwise. */
  ghost predicate OnlyKeys(c: Core, d: Core, more: seq<Event>) {
    && d == c.(keyStates := d.keyStates, trace := c.trace + more)
    && forall i :: 0 <= i < |more| ==> more[i].KeyEvent?
  }

  lemma SyncKeyOnlyKeys(c: Core, k: uint32, want: bool) returns (more: seq<Event>)
    ensures OnlyKeys(c, SyncKey(c, k, want), more)
  {
    more := if want != IsDown(c.keyStates, k) then [KeyEvent(k, want)] else [];
    assert c.trace + [] == c.trace;
  }

  lemma OnlyKeysTwice(c: Core, d: Core, e: Core, m: seq<Event>, n: seq<Event>)
    requires OnlyKeys(c, d, m) && OnlyKeys(d, e, n)
    ensures OnlyKeys(c, e, m + n)
  {
    assert c.trace + m + n == c.trace + (m + n);
  }

  lemma {:induction false} SyncOnlyKeys(c: Core, mask: uint32, bits: seq<uint32>) returns (more: seq<Event>)
    requires forall i :: 0 <= i < |bits| ==> bits[i] > 0
    ensures OnlyKeys(c, SyncBits(c, mask, bits), more)
    decreases |bits|
  {
    hide SyncKey, HasBit, ModifierKeysym, OnlyKeys;
    if bits == [] {
      more := [];
      NothingIsOnlyKeys(c);
    } else {
      var k, want := ModifierKeysym(bits[0]), HasBit(mask, bits[0]);
      var first := SyncKeyOnlyKeys(c, k, want);
      var rest := SyncOnlyKeys(SyncKey(c, k, want), mask, bits[1..]);
      OnlyKeysTwice(c, SyncKey(c, k, want), SyncBits(c, mask, bits), first, rest);
      more := first + rest;
    }
  }

  lemma NothingIsOnlyKeys(c: Core)
    ensures OnlyKeys(c, c, [])
  {
    assert c.trace + [] == c.trace;
  }

  lemma KeyToOnlyKeys(c: Core, id: int16, mask: int16, down: bool) returns (more: seq<Event>)
    ensures OnlyKeys(c, KeyTo(c, id, mask, down), more)
  {
    hide SyncBits, SyncKey;
    var k := Unsigned32(id);
    var first := SyncOnlyKeys(c, Unsigned32(mask), MODIFIER_BITS);
    var c1 := SyncModifiers(c, Unsigned32(mask));
    assert OnlyKeys(c1, Touch(c1, k), []) by {
      assert c1.trace + [] == c1.trace;
    }
    var rest := SyncKeyOnlyKeys(Touch(c1, k), k, down);
    OnlyKeysTwice(c, c1, Touch(c1, k), first, []);
    OnlyKeysTwice(c, Touch(c1, k), KeyTo(c, id, mask, down), first + [], rest);
    more := first + [] + rest;
  }

  // ---------- buttons and the wheel ----------

  lemma WheelChanges(c: Core, dx: int, dy: int, a: Ambient)
    ensures Wheeled(c, dx, dy, a) == c.(trace := c.trace + WheelEvents(c, dx, dy, a))
  {
    hide AxisEvents;
    assert c.trace + [] == c.trace;
  }

  lemma ButtonChanges(c: Core, id: int, down: bool, a: Ambient)
    ensures ButtonTo(c, id, down, a)
         == c.(buttonsDown := if 1 <= id <= 3 then c.buttonsDown[id := down] else c.buttonsDown,
               trace := c.trace + ButtonEvents(c, id, down, a))
  {
    hide Wheeled, WheelEvents, Clamp;
    WheelChanges(c, 0, if id == 4 then 1 else -1, a);
    assert c.trace + [] == c.trace;
  }

  lemma ReleaseStep(c: Core, id: int, a: Ambient)
    requires 1 <= id <= 3
    ensures var d := ReleaseIfHeld(c, id, a);
      && d.trace == c.trace + Releases(HeldAt(c.buttonsDown, id), Clamped(c))
      && !Holds(d.buttonsDown, id)
      && (forall j :: j != id ==> (Holds(d.buttonsDown, j) <==> Holds(c.buttonsDown, j)))
      && d == c.(buttonsDown := d.buttonsDown, trace := d.trace)
  {
    hide Clamp;
    if Holds(c.buttonsDown, id) {
      ReleasesOne(HarmonyButton(id).value, Clamped(c));
    }
    assert c.trace + [] == c.trace;
  }

  lemma HeldAtSame(m: map<int, bool>, n: map<int, bool>, id: int)
    requires 1 <= id <= 3 && (Holds(m, id) <==> Holds(n, id))
    ensures HeldAt(m, id) == HeldAt(n, id)
  {
  }

  lemma Regroup(t: seq<Event>, p: seq<Event>, q: seq<Event>, r: seq<Event>)
    ensures t + p + q + r == t + (p + q + r)
  {
  }

  lemma ReleasesOne(b: Button, at: Place)
    ensures Releases([b], at) == [ButtonEvent(b, false, at.x, at.y)] && Releases([], at) == []
  {
    assert [b][1..] == [];
  }

  lemma {:induction false} ReleasesConcat(bs: seq<Button>, cs: seq<Button>, at: Place)
    ensures Releases(bs + cs, at) == Releases(bs, at) + Releases(cs, at)
  {
    if bs == [] {
      assert bs + cs == cs;
    } else {
      assert (bs + cs)[1..] == bs[1..] + cs;
      ReleasesConcat(bs[1..], cs, at);
    }
  }

  /** Leaving the screen injects exactly one release for each held button, lowest first, and nothing
      else, and forgets them all. */
  lemma LeaveReleasesHeld(c: Core, a: Ambient)
    ensures Departed(c, a)
         == c.(session := c.session.(active := false), buttonsDown := map[],
               trace := c.trace + Releases(HeldButtons(c.buttonsDown), Clamped(c)))
  {
    hide Clamped, ButtonTo, ReleaseIfHeld, Holds, HeldAt, Releases;
    var c0 := c.(session := c.session.(active := false));
    var c1 := ReleaseIfHeld(c0, 1, a);
    var c2 := ReleaseIfHeld(c1, 2, a);
    ReleaseStep(c0, 1, a);
    ReleaseStep(c1, 2, a);
    ReleaseStep(c2, 3, a);
    HeldAtSame(c.buttonsDown, c1.buttonsDown, 2);
    HeldAtSame(c.buttonsDown, c2.buttonsDown, 3);
    SamePointer(c, c0);
    SamePointer(c0, c1);
    SamePointer(c1, c2);
    var b1, b2, b3 := HeldAt(c.buttonsDown, 1), HeldAt(c.buttonsDown, 2), HeldAt(c.buttonsDown, 3);
    ReleasesConcat(b1, b2, Clamped(c));
    ReleasesConcat(b1 + b2, b3, Clamped(c));
    Regroup(c.trace, Releases(b1, Clamped(c)), Releases(b2, Clamped(c)), Releases(b3, Clamped(c)));
  }

  lemma SamePointer(c: Core, d: Core)
    requires Pointer(d) == Pointer(c) && d.screen == c.screen
    ensures Clamped(d) == Clamped(c)
  {
  }

  // ---------- every message ----------

  lemma EnterChanges(c: Core, m: Msg, a: Ambient) returns (keys: seq<Event>)
    requires m.Enter?
    ensures Changes(c, m, a, Handle(c, m, a).core, keys)
  {
    hide SyncBits, Clamp, LowestHeld;
    var c1 := c.(session := c.session.(active := true, seqNum := m.seqNum));
    var c2 := if MovesPointer(m) then PointerTo(c1, m.x, m.y) else c1;
    keys := SyncOnlyKeys(c2, Unsigned32(m.mask), MODIFIER_BITS);
    assert c.trace + PointerEvents(c, m, a) + keys == c.trace + (PointerEvents(c, m, a) + keys);
    assert c.trace + [] == c.trace;
  }

  lemma KeyMessageIs(c: Core, m: Msg, a: Ambient)
    requires IsKeyEvent(m)
    ensures Handle(c, m, a).core == KeyTo(c, m.id, m.mask, !m.KeyUp?)
  {
    hide KeyTo;
  }

  lemma KeyChanges(c: Core, m: Msg, a: Ambient) returns (keys: seq<Event>)
    requires IsKeyEvent(m)
    ensures Changes(c, m, a, Handle(c, m, a).core, keys)
  {
    hide Handle, KeyTo;
    KeyMessageIs(c, m, a);
    keys := KeyToOnlyKeys(c, m.id, m.mask, !m.KeyUp?);
    assert [] + keys == keys;
  }

  lemma MoveChanges(c: Core, m: Msg, a: Ambient)
    requires m.MouseMove? || m.MouseRelMove?
    ensures Changes(c, m, a, Handle(c, m, a).core, [])
  {
    hide Clamp, LowestHeld, OnScreen;
    assert PointerEvents(c, m, a) + [] == PointerEvents(c, m, a);
  }

  lemma PointerChanges(c: Core, m: Msg, a: Ambient)
    requires m.Leave? || m.MouseDown? || m.MouseUp? || m.MouseWheel?
    ensures Changes(c, m, a, Handle(c, m, a).core, [])
  {
    hide Departed, ButtonTo, Wheeled, ButtonEvents, WheelEvents, Releases, HeldButtons, Clamped;
    assert PointerEvents(c, m, a) + [] == PointerEvents(c, m, a);
    match m
    case Leave => LeaveReleasesHeld(c, a);
    case MouseDown(button) => ButtonChanges(c, button, true, a);
    case MouseUp(button) => ButtonChanges(c, button, false, a);
    case MouseWheel(dx, dy) => WheelChanges(c, dx, dy, a);
  }

  lemma OtherChanges(c: Core, m: Msg, a: Ambient)
    requires !IsInput(m)
    ensures Changes(c, m, a, Handle(c, m, a).core, [])
  {
    hide Entered, Departed, PointerTo, PointerBy, ButtonTo, Wheeled, KeyTo, ReceiveChunk, InfoPayload;
    assert PointerEvents(c, m, a) + [] == [] && c.trace + [] == c.trace;
  }

  /** Every message changes no more than its own fields and injects exactly these events, keys last. */
  lemma HandleChanges(c: Core, m: Msg, a: Ambient) returns (keys: seq<Event>)
    ensures Changes(c, m, a, Handle(c, m, a).core, keys)
  {
    hide Handle, Changes;
    if m.Enter? {
      keys := EnterChanges(c, m, a);
    } else if IsKeyEvent(m) {
      keys := KeyChanges(c, m, a);
    } else {
      keys := [];
      if m.MouseMove? || m.MouseRelMove? {
        MoveChanges(c, m, a);
      } else if IsInput(m) {
        PointerChanges(c, m, a);
      } else {
        OtherChanges(c, m, a);
      }
    }
  }

  lemma {:induction false} ReleasesAre(bs: seq<Button>, at: Place)
    ensures |Releases(bs, at)| == |bs|
    ensures forall i :: 0 <= i < |bs| ==> Releases(bs, at)[i] == ButtonEvent(bs[i], false, at.x, at.y)
  {
    if bs != [] {
      ReleasesAre(bs[1..], at);
    }
  }

  lemma WheelEventsAreAxis(c: Core, dx: int, dy: int, a: Ambient)
    ensures forall i :: 0 <= i < |WheelEvents(c, dx, dy, a)| ==> WheelEvents(c, dx, dy, a)[i].AxisEvent?
  {
  }

  lemma ButtonEventsAre(c: Core, id: int, down: bool, a: Ambient)
    ensures var t := ButtonEvents(c, id, down, a);
      if 1 <= id <= 3 then t == [ButtonEvent(HarmonyButton(id).value, down, Clamped(c).x, Clamped(c).y)]
      else forall i :: 0 <= i < |t| ==> t[i].AxisEvent?
  {
    hide WheelEvents, Clamped;
    WheelEventsAreAxis(c, 0, if id == 4 then 1 else -1, a);
  }

  /** Which kinds of event these are: a move for a message that moves, buttons at the clamped pointer for a
      message that presses, else none of the two, and never a key. */
  lemma PointerEventKinds(c: Core, m: Msg, a: Ambient)
    ensures var t := PointerEvents(c, m, a);
      && (forall i :: 0 <= i < |t| ==> !t[i].KeyEvent?)
      && (MovesPointer(m) ==> t == [MoveEventOf(c, m)])
      && (!MovesPointer(m) ==> forall i :: 0 <= i < |t| ==> !t[i].MoveEvent?)
      && (Presses(c, m) ==> t != [])
      && (Presses(c, m) ==> forall i :: 0 <= i < |t| ==> t[i].ButtonEvent? && Place(t[i].x, t[i].y) == Clamped(c))
      && (!Presses(c, m) ==> forall i :: 0 <= i < |t| ==> !t[i].ButtonEvent?)
  {
    hide WheelEvents, ButtonEvents, Releases, HeldButtons, Clamped, LowestHeld, Clamp, Told;
    match m
    case Leave => ReleasesAre(HeldButtons(c.buttonsDown), Clamped(c));
    case MouseDown(b) => ButtonEventsAre(c, b, true, a);
    case MouseUp(b) => ButtonEventsAre(c, b, false, a);
    case MouseWheel(dx, dy) => WheelEventsAreAxis(c, dx, dy, a);
    case _ =>
  }
}
