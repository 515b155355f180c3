// The client object: its fields, the injection helpers, the message handlers and the worker's loop.
module Client {
  import opened ByteOrder
  import opened Sockets
  import opened Framing
  import opened Formats
  import opened Messages
  import opened Clipboards
  import opened ClientModel
  import opened MessageLoop
  import opened Connections
  import ProtoUtil

  /** Releasing the held buttons from `id` on. */
  function ReleaseFrom(c: Core, id: int, a: Ambient): Core
    decreases 4 - id
  {
    if id > 3 then c else ReleaseFrom(ReleaseIfHeld(c, id, a), id + 1, a)
  }

  lemma ReleaseFromOne(c: Core, a: Ambient)
    ensures ReleaseFrom(c, 1, a).(buttonsDown := map[]) == ReleaseButtons(c, a)
  {
    var c1 := ReleaseIfHeld(c, 1, a);
    var c2 := ReleaseIfHeld(c1, 2, a);
    var c3 := ReleaseIfHeld(c2, 3, a);
    assert ReleaseFrom(c3, 4, a) == c3;
    assert ReleaseFrom(c2, 3, a) == c3;
    assert ReleaseFrom(c1, 2, a) == c3;
  }

  lemma AxisEventAt(vertical: bool, value: int, x: int, y: int, accepts: nat, i: nat)
    requires i < 3 && i <= accepts
    ensures var all := AxisEvents(vertical, value, x, y, accepts);
      && i < |all| && all[..0] == []
      && all[..i + 1] == all[..i] + [AxisEvent([AxisBegin, AxisUpdate, AxisEnd][i], vertical, value, x, y, i < accepts)]
      && (i == accepts || i == 2 ==> all[..i + 1] == all)
  {
  }

  lemma UnknownKey(key: Tag, b: Bytes)
    requires Dispatch(key).None?
    ensures ParseMessage(key, b).None?
  {
  }

  lemma VerdictIs(c: Core, m: Msg, a: Ambient)
    requires IsVerdict(m)
    ensures m.Close? || m.Incompatible? ==>
      Handle(c, m, a) == Handled(c.(session := c.session.(shouldReconnect := false)), [], false)
    ensures !m.Close? && !m.Incompatible? ==> Handle(c, m, a) == Handled(c, [], false)
  {
  }

  lemma InputIsQuiet(c: Core, m: Msg, a: Ambient)
    requires IsInput(m)
    ensures Handle(c, m, a).replies == [] && Handle(c, m, a).keep
  {
  }

  lemma SyncStep(c: Core, mask: uint32, i: nat)
    requires i < |MODIFIER_BITS|
    ensures var bits := MODIFIER_BITS;
      SyncBits(c, mask, bits[i..])
      == SyncBits(SyncKey(c, ModifierKeysym(bits[i]), HasBit(mask, bits[i])), mask, bits[i + 1..])
  {
    hide HasBit, ModifierKeysym, SyncKey;
    assert MODIFIER_BITS[i..][1..] == MODIFIER_BITS[i + 1..];
  }

  lemma SyncEnd(c: Core, mask: uint32)
    ensures SyncBits(c, mask, MODIFIER_BITS[6..]) == c
  {
  }

  lemma ReleaseOne(c: Core, id: int, a: Ambient)
    ensures id > 3 ==> ReleaseFrom(c, id, a) == c
    ensures id <= 3 ==> ReleaseFrom(c, id, a) == ReleaseFrom(ReleaseIfHeld(c, id, a), id + 1, a)
  {
  }

  lemma ExactOf4(i: Input)
    ensures i.Exact(4).ok ==> |i.Exact(4).data| == 4
  {
  }

  lemma NoIterations(l: Loop)
    ensures Iterations(l, []) == l
  {
  }

  lemma LoopIsItsParts(l: Loop)
    ensures l == Loop(l.core, l.input, l.out, l.log, l.going)
  {
  }

  lemma AttemptIs(c: Core, t: Attempt)
    ensures AfterAttempt(c, t) == Attempted(Begun(c), t.link, t.samples).core
    ensures GoesOn(c, t) == (t.auto && Again(Begun(c), t.link, t.samples, t.stopAtReturn) && !t.stop)
  {
    hide Attempted, Again;
  }

  lemma NoDataLeft(seqNum: uint32)
    ensures PayloadsOf(DataMessages(seqNum, Chunks([]))) == []
  {
  }

  lemma NoAttempts(c: Core)
    ensures IsWorkerRun(c, []) && AfterAttempts(c, []) == c
  {
  }

  /** What the surroundings do between two steps of the worker: request a stop or not, the setting for
      automatic reconnection, and what the handling of a message depends on. */
  datatype Moment = Moment(stop: bool, auto: bool, around: Ambient)

  /** A stop is requested at one of the moments `from` to `upto - 1`. */
  ghost predicate StopIn(world: nat -> Moment, from: nat, upto: nat) {
    exists i: nat :: from <= i < upto && world(i).stop
  }

  lemma StopInParts(world: nat -> Moment, from: nat, mid: nat, upto: nat)
    requires from <= mid <= upto
    ensures StopIn(world, from, upto) <==> StopIn(world, from, mid) || StopIn(world, mid, upto)
  {
  }

  lemma StopInOne(world: nat -> Moment, now: nat)
    ensures StopIn(world, now, now + 1) <==> world(now).stop
    ensures !StopIn(world, now, now)
  {
    assert world(now).stop ==> now <= now < now + 1 && world(now).stop;
  }

  /** The samples are those of successive moments, none of which requests a stop. */
  ghost predicate Observed(world: nat -> Moment, from: nat, samples: seq<Ambient>) {
    forall i :: 0 <= i < |samples| ==> samples[i] == world(from + i).around && !world(from + i).stop
  }

  lemma NothingObserved(world: nat -> Moment, from: nat)
    ensures Observed(world, from, [])
  {
  }

  lemma ObservedAppend(world: nat -> Moment, from: nat, samples: seq<Ambient>, a: Ambient)
    requires Observed(world, from, samples)
    requires a == world(from + |samples|).around && !StopIn(world, from, from + |samples| + 1)
    ensures Observed(world, from, samples + [a])
  {
  }

  class DeskflowClient {
    const m_stream: SocketStream

    var m_running: bool
    var m_stopRequested: bool
    var m_autoReconnect: bool
    var m_reconnectIntervalMs: int
    var m_invertScroll: bool
    var m_shouldReconnect: bool

    var m_host: string
    var m_port: nat
    var m_screenName: Bytes
    var m_screenW: int
    var m_screenH: int
    var m_pointerX: int
    var m_pointerY: int
    var m_active: bool
    var m_handshakeDone: bool
    var m_seqNum: uint32

    var m_clipboardSync: bool
    var m_hasClipboardCb: bool
    var m_lastClipboardText: Bytes
    var m_clipChunk: Transfer

    var m_keyStates: map<uint32, bool>
    var m_mouseButtonsDown: map<int, bool>

    // The system: how many axis events in a row it accepts next.
    var m_axisAccepts: nat

    // The surroundings, moment by moment, and the next moment.
    const m_world: nat -> Moment
    var m_now: nat

    // What the outside has seen.
    ghost var m_delivered: seq<Bytes>
    ghost var m_trace: seq<Event>

    ghost predicate Valid()
      reads this, m_stream
    {
      && m_stream.Valid()
      && forall id :: id in m_mouseButtonsDown ==> 1 <= id <= 3
    }

    ghost function State(): Core
      reads this
    {
      Core(Session(m_active, m_seqNum, m_handshakeDone, m_shouldReconnect), m_keyStates, m_mouseButtonsDown,
        m_pointerX, m_pointerY, Screen(m_screenW, m_screenH, m_screenName), Clips(), m_trace)
    }

    ghost function Clips(): Board
      reads this
    {
      Board(m_clipChunk, m_lastClipboardText, m_hasClipboardCb, m_delivered)
    }

    ghost function Amb(): Ambient
      reads this
    {
      Ambient(m_clipboardSync, m_invertScroll, m_axisAccepts)
    }

    constructor (interrupts: nat, world: nat -> Moment)
      ensures Valid() && !m_running && !m_stopRequested && m_autoReconnect
      ensures fresh(m_stream) && !m_stream.m_open && m_stream.Pending() == DRAINED
      ensures State() == INITIAL && m_world == world && m_now == 0
      ensures m_screenW == 1280 && m_screenH == 800 && m_reconnectIntervalMs == 3000
      ensures !m_handshakeDone && !m_active && !m_clipboardSync && !m_invertScroll && !m_clipChunk.active
      ensures m_keyStates == map[] && m_mouseButtonsDown == map[] && m_trace == [] && m_delivered == []
    {
      m_world, m_now := world, 0;
      m_stream := new SocketStream(interrupts);
      m_running, m_stopRequested, m_autoReconnect, m_invertScroll, m_shouldReconnect :=
        false, false, true, false, true;
      m_reconnectIntervalMs := 3000;
      m_host, m_port := "", 0;
      m_screenName, m_screenW, m_screenH := [], 1280, 800;
      m_pointerX, m_pointerY, m_active, m_handshakeDone, m_seqNum := 0, 0, false, false, 0;
      m_clipboardSync, m_hasClipboardCb, m_lastClipboardText := false, false, [];
      m_clipChunk := NO_TRANSFER;
      m_keyStates, m_mouseButtonsDown := map[], map[];
      m_axisAccepts := 3;
      m_delivered, m_trace := [], [];
    }

    // ---------- injection helpers ----------

    /** Injects a move carrying the lowest held button; whether the system accepts it is its choice. */
    method InjectMouseMove(x: int, y: int) returns (ok: bool)
      requires Valid()
      modifies this`m_trace
      ensures State() == MouseMoved(old(State()), x, y)
    {
      var cx, cy := x, y;
      if cx < 1 { cx := 1; } else if cx > m_screenW - 1 { cx := m_screenW - 1; }
      if cy < 1 { cy := 1; } else if cy > m_screenH - 1 { cy := m_screenH - 1; }
      // The entries of m_mouseButtonsDown in key order; its keys are within 1..3.
      var held: Option<Button> := None;
      var id := 1;
      while id <= 3 && held == None
        invariant 1 <= id <= 4
        invariant held.None? ==> forall j :: 1 <= j < id ==> !Holds(m_mouseButtonsDown, j)
        invariant held.Some? ==> held == LowestHeld(m_mouseButtonsDown)
        decreases 4 - id, held.None?
      {
        if id in m_mouseButtonsDown && m_mouseButtonsDown[id] {
          held := HarmonyButton(id);
        }
        id := id + 1;
      }
      m_trace := m_trace + [MoveEvent(cx, cy, held)];
      ok := *;
    }

    method InjectMouseWheel(xDelta: int, yDelta: int) returns (ok: bool)
      modifies this`m_trace
      ensures State() == Wheeled(old(State()), xDelta, yDelta, Amb())
    {
      hide AxisEvents;
      if yDelta == 0 && xDelta == 0 {
        return true;
      }
      var dy := yDelta;
      if m_invertScroll && dy != 0 {
        dy := -dy;
      }
      var vertical := dy != 0;
      var value := if dy != 0 then dy else xDelta;
      var actions := [AxisBegin, AxisUpdate, AxisEnd];
      ghost var all := AxisEvents(vertical, value, m_pointerX, m_pointerY, m_axisAccepts);
      AxisEventAt(vertical, value, m_pointerX, m_pointerY, m_axisAccepts, 0);
      assert m_trace + all[..0] == m_trace;
      var i := 0;
      while i < 3
        invariant i <= 3 && i <= m_axisAccepts && i <= |all|
        invariant m_trace == old(m_trace) + all[..i]
        invariant i == 3 ==> all[..i] == all
      {
        AxisEventAt(vertical, value, m_pointerX, m_pointerY, m_axisAccepts, i);
        var accepted := i < m_axisAccepts;
        m_trace := m_trace + [AxisEvent(actions[i], vertical, value, m_pointerX, m_pointerY, accepted)];
        if !accepted {
          return false;
        }
        i := i + 1;
      }
      ok := true;
    }

    method InjectMouseButton(buttonId: int, down: bool) returns (ok: bool)
      requires Valid()
      modifies this`m_trace, this`m_mouseButtonsDown
      ensures Valid()
      ensures State() == ButtonTo(old(State()), buttonId, down, Amb())
    {
      var harmony := HarmonyButton(buttonId);
      if harmony.None? {
        if buttonId == 4 || buttonId == 5 {
          ok := InjectMouseWheel(0, if buttonId == 4 then 1 else -1);
          return;
        }
        return false;
      }
      m_mouseButtonsDown := m_mouseButtonsDown[buttonId := down];
      var x, y := m_pointerX, m_pointerY;
      if x < 1 { x := 1; } else if x > m_screenW - 1 { x := m_screenW - 1; }
      if y < 1 { y := 1; } else if y > m_screenH - 1 { y := m_screenH - 1; }
      m_trace := m_trace + [ButtonEvent(harmony.value, down, x, y)];
      ok := *;
    }

    ghost method InjectKeyEvent(keysym: uint32, down: bool)
      modifies this`m_trace
      ensures m_trace == old(m_trace) + [KeyEvent(keysym, down)]
    {
      m_trace := m_trace + [KeyEvent(keysym, down)];
    }

    /** Injects a press or release if the key is not already in the wanted state. */
    method SetKeyState(keysym: uint32, wantDown: bool)
      modifies this`m_trace, this`m_keyStates
      ensures State() == SyncKey(old(State()), keysym, wantDown)
    {
      var isDown := keysym in m_keyStates && m_keyStates[keysym];
      if wantDown && !isDown {
        InjectKeyEvent(keysym, true);
        m_keyStates := m_keyStates[keysym := true];
      } else if !wantDown && isDown {
        InjectKeyEvent(keysym, false);
        m_keyStates := m_keyStates[keysym := false];
      }
    }

    /** Makes the six modifier keys agree with the mask. */
    method SyncModifierKeys(mask: uint32)
      modifies this`m_trace, this`m_keyStates
      ensures State() == SyncModifiers(old(State()), mask)
    {
      hide HasBit, ModifierKeysym, SyncBits, SyncKey;
      var bits := MODIFIER_BITS;
      ghost var goal := SyncModifiers(State(), mask);
      assert bits[0..] == bits;
      var i := 0;
      while i < |bits|
        invariant i <= |bits|
        invariant SyncBits(State(), mask, bits[i..]) == goal
      {
        SyncStep(State(), mask, i);
        var keysym := ModifierKeysym(bits[i]);
        SetKeyState(keysym, HasBit(mask, bits[i]));
        i := i + 1;
      }
      SyncEnd(State(), mask);
    }

    // ---------- handlers ----------

    method OnEnter(x: int16, y: int16, seqNum: uint32, mask: int16)
      requires Valid()
      modifies this`m_active, this`m_seqNum, this`m_pointerX, this`m_pointerY, this`m_trace, this`m_keyStates
      ensures State() == Entered(old(State()), x, y, seqNum, mask)
    {
      hide MouseMoved, SyncModifiers, Unsigned32;
      m_active := true;
      m_seqNum := seqNum;
      if x >= 0 && y >= 0 {
        MoveTo(x, y);
      }
      SyncModifierKeys(Unsigned32(mask));
    }

    method MoveTo(x: int, y: int)
      requires Valid()
      modifies this`m_pointerX, this`m_pointerY, this`m_trace
      ensures State() == PointerTo(old(State()), x, y)
    {
      hide LowestHeld, Clamp;
      m_pointerX, m_pointerY := x, y;
      var _ := InjectMouseMove(x, y);
    }

    method OnLeave()
      requires Valid()
      modifies this`m_active, this`m_trace, this`m_mouseButtonsDown
      ensures Valid()
      ensures State() == Departed(old(State()), Amb())
    {
      hide ButtonTo, ReleaseFrom, ReleaseButtons;
      m_active := false;
      ghost var a, start := Amb(), State();
      var id := 1;
      while id <= 3
        invariant Valid() && 1 <= id <= 4
        invariant ReleaseFrom(State(), id, a) == ReleaseFrom(start, 1, a)
      {
        ReleaseOne(State(), id, a);
        if id in m_mouseButtonsDown && m_mouseButtonsDown[id] {
          var _ := InjectMouseButton(id, false);
        }
        id := id + 1;
      }
      ReleaseOne(State(), 4, a);
      m_mouseButtonsDown := map[];
      ReleaseFromOne(start, a);
    }

    method OnMouseRelMove(dx: int16, dy: int16)
      requires Valid()
      modifies this`m_pointerX, this`m_pointerY, this`m_trace
      ensures State() == PointerBy(old(State()), dx, dy)
    {
      var x := m_pointerX + dx;
      var y := m_pointerY + dy;
      if x < 0 { x := 0; }
      if y < 0 { y := 0; }
      if x >= m_screenW { x := m_screenW - 1; }
      if y >= m_screenH { y := m_screenH - 1; }
      MoveTo(x, y);
    }

    /** DKDN, DKRP and DKDL press the key unless it is down; DKUP releases it unless it is up. */
    method OnKey(id: int16, mask: int16, down: bool)
      modifies this`m_trace, this`m_keyStates
      ensures State() == KeyTo(old(State()), id, mask, down)
    {
      hide SyncModifiers;
      SyncModifierKeys(Unsigned32(mask));
      var k := Unsigned32(id);
      if k !in m_keyStates {
        m_keyStates := m_keyStates[k := false];
      }
      SetKeyState(k, down);
    }

    method OnClipboard(seqNum: uint32, mark: uint8, data: Bytes)
      modifies this`m_clipChunk, this`m_lastClipboardText, this`m_delivered
      ensures Clips() == ReceiveChunk(old(Clips()), seqNum, mark, data, Amb())
    {
      hide Stoull, Unmarshal;
      if mark == 1 {
        m_clipChunk := m_clipChunk.(active := true, buffer := [], clipSeq := seqNum);
        var parsed := Stoull(data);
        m_clipChunk := m_clipChunk.(expectedSize := if parsed.Some? then parsed.value else 0);
        if m_clipChunk.expectedSize > 1024 * 1024 {
          m_clipChunk := m_clipChunk.(active := false, buffer := []);
        }
        return;
      }
      if mark == 2 {
        if m_clipChunk.active {
          m_clipChunk := m_clipChunk.(buffer := m_clipChunk.buffer + data);
        }
        return;
      }
      if mark == 3 {
        if !m_clipChunk.active {
          return;
        }
        var assembled := m_clipChunk.buffer;
        m_clipChunk := m_clipChunk.(active := false, buffer := []);
        var text := UnmarshalText(assembled);
        if m_clipboardSync && text != [] {
          m_lastClipboardText := text;
          if m_hasClipboardCb {
            m_delivered := m_delivered + [text];
          }
        }
      }
    }

    // ---------- dispatch ----------

    /** What handling one message leaves behind. */
    ghost predicate Answered(r: Option<Outcome>, core: Core, out: Output, keep: bool)
      requires m_stream.Valid()
      reads this, m_stream
    {
      match r
      case None => !keep && State() == core && m_stream.Out() == out
      case Some(r) => keep == r.keep && State() == r.core && m_stream.Out() == r.out && m_stream.Pending() == r.input
    }

    /** Reads the arguments of a message into their destinations. */
    method ReadArgs(k: Kind) returns (ok: bool, m: Msg)
      requires m_stream.Valid()
      modifies m_stream`m_bufferPos, m_stream`net, m_stream`interrupts
      ensures m_stream.Valid()
      ensures match ParseMessage(Key(k), old(m_stream.Pending()).All())
              case None => !ok
              case Some(p) => ok && m == p.m && ProtoUtil.Consumed(old(m_stream.Pending()), m_stream.Pending(), p.rest)
    {
      hide Items, Decode, Input.All, Dispatch, Key, Build, InRange, ArgFormat, ProtoUtil.Consumed, Parse, WellFormed;
      KeysDispatch(k);
      ArgFormatsParse(k);
      ghost var b := m_stream.Pending().All();
      var vals;
      ok, vals := ProtoUtil.Readf(m_stream, ArgFormat(k));
      m := Noop;
      if ok {
        DecodedShape(k, b);
        m := Build(k, vals);
      }
    }

    /** The messages that move the pointer or press buttons. */
    method ActOnPointer(m: Msg)
      requires Valid() && IsInput(m) && !IsKeyEvent(m)
      modifies this`m_active, this`m_seqNum, this`m_pointerX, this`m_pointerY
      modifies this`m_trace, this`m_keyStates, this`m_mouseButtonsDown
      ensures Valid()
      ensures State() == Handle(old(State()), m, Amb()).core
    {
      hide Entered, Departed, PointerTo, PointerBy, ButtonTo, Wheeled, KeyTo, ReceiveChunk, InfoPayload;
      match m
      case Enter(x, y, seqNum, mask) => OnEnter(x, y, seqNum, mask);
      case Leave => OnLeave();
      case MouseMove(x, y) => MoveTo(x, y);
      case MouseRelMove(dx, dy) => OnMouseRelMove(dx, dy);
      case MouseDown(button) => var _ := InjectMouseButton(button, true);
      case MouseUp(button) => var _ := InjectMouseButton(button, false);
      case MouseWheel(xDelta, yDelta) => var _ := InjectMouseWheel(xDelta, yDelta);
    }

    method ActOnKey(m: Msg)
      requires Valid() && IsKeyEvent(m)
      modifies this`m_trace, this`m_keyStates
      ensures Valid()
      ensures State() == Handle(old(State()), m, Amb()).core
    {
      hide Entered, Departed, PointerTo, PointerBy, ButtonTo, Wheeled, KeyTo, ReceiveChunk, InfoPayload;
      match m
      case KeyDown(id, mask, _) => OnKey(id, mask, true);
      case KeyUp(id, mask, _) => OnKey(id, mask, false);
      case KeyRepeat(id, mask, _, _, _) => OnKey(id, mask, true);
      case KeyDownLang(id, mask, _, _) => OnKey(id, mask, true);
    }

    /** The messages that end the connection. */
    method ActOnVerdict(m: Msg)
      requires Valid() && IsVerdict(m)
      modifies this`m_shouldReconnect
      ensures Valid()
      ensures Handled(State(), [], false) == Handle(old(State()), m, Amb())
    {
      hide Handle, SocketStream.Valid;
      VerdictIs(State(), m, Amb());
      match m
      case Close => m_shouldReconnect := false;
      case Incompatible(_, _) => m_shouldReconnect := false;
      case _ =>
    }

    /** The other messages that are not answered: options, clipboard, and those ignored. */
    method ActOnOther(m: Msg)
      requires Valid() && !IsInput(m) && !IsQuery(m) && !IsVerdict(m)
      modifies this`m_handshakeDone
      modifies this`m_clipChunk, this`m_lastClipboardText, this`m_delivered
      ensures Valid()
      ensures Handled(State(), [], true) == Handle(old(State()), m, Amb())
    {
      hide Entered, Departed, PointerTo, PointerBy, ButtonTo, Wheeled, KeyTo, ReceiveChunk, InfoPayload;
      match m
      case SetOptions(_) => m_handshakeDone := true;
      case Clipboard(_, seqNum, mark, data) => OnClipboard(seqNum, mark, data);
      case _ =>
    }

    /** QINF and CALV are answered with one frame. */
    method Reply(m: Msg) returns (keep: bool)
      requires Valid() && IsQuery(m)
      modifies m_stream`sent, m_stream`room, m_stream`interrupts
      ensures Valid()
      ensures var h := Handle(State(), m, Amb());
              && h.core == State() && h.keep
              && (m_stream.Out(), keep) == WriteFrames(old(m_stream.Out()), h.replies)
    {
      hide Encode, Parse, WellFormed, Matches, Output.FrameFits, Output.PutFrame;
      if m == QueryInfo {
        ghost var c := State();
        InfoFormatWrites(c);
        var payload := ProtoUtil.Writef([], INFO_FORMAT,
          [Num(0), Num(0), Num(m_screenW), Num(m_screenH), Num(0), Num(m_pointerX), Num(m_pointerY)]);
        assert payload == InfoPayload(c);
        keep := m_stream.WriteFrame(payload);
      } else {
        keep := m_stream.WriteFrame(Tag('C', 'A', 'L', 'V').Octets());
      }
    }

    /** The messages that are not answered. */
    method Act(m: Msg) returns (keep: bool)
      requires Valid() && !IsQuery(m)
      modifies this`m_active, this`m_seqNum, this`m_pointerX, this`m_pointerY
      modifies this`m_trace, this`m_keyStates, this`m_mouseButtonsDown
      modifies this`m_handshakeDone, this`m_shouldReconnect
      modifies this`m_clipChunk, this`m_lastClipboardText, this`m_delivered
      ensures Valid()
      ensures Handled(State(), [], keep) == Handle(old(State()), m, Amb())
    {
      hide Handle;
      keep := true;
      if IsKeyEvent(m) {
        InputIsQuiet(State(), m, Amb());
        ActOnKey(m);
      } else if IsInput(m) {
        InputIsQuiet(State(), m, Amb());
        ActOnPointer(m);
      } else if IsVerdict(m) {
        ActOnVerdict(m);
        keep := false;
      } else {
        ActOnOther(m);
      }
    }

    /** Dispatches one message by its key; false ends the message loop. */
    method HandleMessage(key: Tag) returns (keep: bool)
      requires Valid()
      modifies this`m_active, this`m_seqNum, this`m_pointerX, this`m_pointerY
      modifies this`m_trace, this`m_keyStates, this`m_mouseButtonsDown
      modifies this`m_handshakeDone, this`m_shouldReconnect
      modifies this`m_clipChunk, this`m_lastClipboardText, this`m_delivered
      modifies m_stream`m_bufferPos, m_stream`net, m_stream`interrupts, m_stream`sent, m_stream`room
      ensures Valid()
      ensures Answered(Answer(old(State()), old(m_stream.Pending()), old(m_stream.Out()), key, Amb()),
                       old(State()), old(m_stream.Out()), keep)
    {
      hide ParseMessage, Dispatch, Key, Handle, Input.All, Input.Drop;
      ghost var c, i, o := State(), m_stream.Pending(), m_stream.Out();
      match Dispatch(key)
      case None =>
        UnknownKey(key, i.All());
        return false;
      case Some(k) =>
        DispatchIsSound(key);
        var ok, m := ReadArgs(k);
        if !ok {
          return false;
        }
        if IsQuery(m) {
          keep := Reply(m);
        } else {
          keep := Act(m);
        }
    }

    // ---------- one connection ----------

    /** What another thread or the system does between two steps of the worker. */
    method Observe()
      modifies this`m_now, this`m_stopRequested, this`m_autoReconnect
      modifies this`m_clipboardSync, this`m_invertScroll, this`m_axisAccepts
      ensures m_now == old(m_now) + 1
      ensures m_stopRequested == (old(m_stopRequested) || m_world(old(m_now)).stop)
      ensures m_autoReconnect == m_world(old(m_now)).auto && Amb() == m_world(old(m_now)).around
      ensures State() == old(State()) && (old(Valid()) ==> Valid())
    {
      hide State, Valid;
      ObserveFlags();
      ObserveSwitches();
      Tick();
    }

    method Tick()
      modifies this`m_now
      ensures m_now == old(m_now) + 1
      ensures State() == old(State()) && (old(Valid()) ==> Valid())
    {
      hide SocketStream.Valid;
      m_now := m_now + 1;
    }

    /** The flags of the worker's own loops. */
    method ObserveFlags()
      modifies this`m_stopRequested, this`m_autoReconnect
      ensures m_stopRequested == (old(m_stopRequested) || m_world(m_now).stop)
      ensures m_autoReconnect == m_world(m_now).auto
      ensures State() == old(State()) && (old(Valid()) ==> Valid())
    {
      hide SocketStream.Valid;
      if m_world(m_now).stop {
        m_stopRequested := true;
      }
      m_autoReconnect := m_world(m_now).auto;
    }

    /** What the handling of a message depends on. */
    method ObserveSwitches()
      modifies this`m_clipboardSync, this`m_invertScroll, this`m_axisAccepts
      ensures Amb() == m_world(m_now).around
      ensures State() == old(State()) && (old(Valid()) ==> Valid())
    {
      hide SocketStream.Valid;
      var around := m_world(m_now).around;
      m_clipboardSync := around.sync;
      m_invertScroll := around.invert;
      m_axisAccepts := around.accepts;
    }

    /** Parses the server's hello. */
    method ReadHelloArgs() returns (ok: bool, hello: Hello)
      requires m_stream.Valid()
      modifies m_stream`m_bufferPos, m_stream`net, m_stream`interrupts
      ensures m_stream.Valid()
      ensures match ReadHello(old(m_stream.Pending()).All())
              case None => !ok
              case Some((h, rest)) =>
                ok && hello == h && ProtoUtil.Consumed(old(m_stream.Pending()), m_stream.Pending(), rest)
    {
      hide Decode, Parse, WellFormed, ParsesTo, Input.All, ProtoUtil.Consumed;
      ghost var b := m_stream.Pending().All();
      HandshakeFormatsParse();
      ParsesMeans("%7s%2i%2i", HELLO_ITEMS);
      hello := Hello([], 0, 0);
      var vals;
      ok, vals := ProtoUtil.Readf(m_stream, "%7s%2i%2i");
      if ok {
        DecodedInRange(HELLO_ITEMS, b);
        hello := Hello(vals[0].s, Signed16(vals[1].n), Signed16(vals[2].n));
      }
    }

    method WriteHelloBack(hello: Hello) returns (ok: bool)
      requires m_stream.Valid()
      modifies m_stream`sent, m_stream`room, m_stream`interrupts
      ensures m_stream.Valid()
      ensures (m_stream.Out(), ok) == WriteFrames(old(m_stream.Out()), [HelloBack(hello, m_screenName)])
    {
      hide Encode, Parse, WellFormed, ParsesTo, Matches, Output.FrameFits, Output.PutFrame, WriteFrames;
      HandshakeFormatsParse();
      ParsesMeans("%7s%2i%2i%s", HELLO_BACK_ITEMS);
      HelloBackArgsMatch(hello, m_screenName);
      var helloBackMinor := if hello.minor < 8 then hello.minor else 8;
      var out := ProtoUtil.Writef([], "%7s%2i%2i%s",
        [Str(hello.name), Num(1), Num(helloBackMinor), Str(m_screenName)]);
      assert out == HelloBack(hello, m_screenName);
      WriteOneFrame(m_stream.Out(), out);
      ok := m_stream.WriteFrame(out);
    }

    /** Reads the server's hello and answers it. */
    method Handshake() returns (ok: bool)
      requires Valid()
      modifies this`m_shouldReconnect
      modifies m_stream`m_buffer, m_stream`m_bufferPos, m_stream`net, m_stream`interrupts, m_stream`sent, m_stream`room
      ensures Valid()
      ensures var g := Greet(old(State()), old(m_stream.Pending()), old(m_stream.Out()));
              && ok == g.going && State() == g.core && m_stream.Out() == g.out
              && (ok ==> m_stream.Pending() == g.input)
    {
      hide ReadHello, HelloBack, Input.All, Input.Frame, Input.Drop, WriteFrames;
      var frame;
      ok, frame := m_stream.ReadFrame();
      if !ok {
        return;
      }
      m_stream.PushToBuffer(frame);
      var hello;
      ok, hello := ReadHelloArgs();
      if !ok {
        return;
      }
      if |hello.name| != 7 || hello.major != 1 {
        m_shouldReconnect := false;
        return false;
      }
      ok := WriteHelloBack(hello);
    }

    /** One passage of the message loop. */
    method OneMessage(ghost log: seq<Msg>) returns (keepGoing: bool)
      requires Valid()
      modifies this`m_active, this`m_seqNum, this`m_pointerX, this`m_pointerY
      modifies this`m_trace, this`m_keyStates, this`m_mouseButtonsDown
      modifies this`m_handshakeDone, this`m_shouldReconnect
      modifies this`m_clipChunk, this`m_lastClipboardText, this`m_delivered
      modifies m_stream`m_buffer, m_stream`m_bufferPos, m_stream`net, m_stream`interrupts, m_stream`sent, m_stream`room
      ensures Valid()
      ensures var l := Iterate(Loop(old(State()), old(m_stream.Pending()), old(m_stream.Out()), log, true), Amb());
              && keepGoing == l.going && State() == l.core && m_stream.Out() == l.out
              && (keepGoing ==> m_stream.Pending() == l.input)
    {
      hide Answer, Input.Frame, Input.Exact, Output.FrameFits, Output.PutFrame, WriteFrames;
      var ok, frame := m_stream.ReadFrame();
      if !ok {
        return false;
      }
      m_stream.PushToBuffer(frame);
      var head;
      ExactOf4(m_stream.Pending());
      ok, head := m_stream.ReadExact(4);
      if !ok {
        return false;
      }
      keepGoing := HandleMessage(TagOf(head));
      WriteOneFrame(m_stream.Out(), NOOP_PAYLOAD);
      if keepGoing && m_handshakeDone {
        keepGoing := m_stream.WriteFrame(Tag('C', 'N', 'O', 'P').Octets());
      }
    }

    /** One passage and the look at the surroundings after it; `l` is the state at the loop head. */
    method OnePassage(ghost l: Loop) returns (keepGoing: bool)
      requires Valid()
      requires l.going && l.core == State() && l.input == m_stream.Pending() && l.out == m_stream.Out()
      modifies this`m_active, this`m_seqNum, this`m_pointerX, this`m_pointerY
      modifies this`m_trace, this`m_keyStates, this`m_mouseButtonsDown
      modifies this`m_handshakeDone, this`m_shouldReconnect
      modifies this`m_clipChunk, this`m_lastClipboardText, this`m_delivered
      modifies this`m_now, this`m_stopRequested, this`m_autoReconnect
      modifies this`m_clipboardSync, this`m_invertScroll, this`m_axisAccepts
      modifies m_stream`m_buffer, m_stream`m_bufferPos, m_stream`net, m_stream`interrupts, m_stream`sent, m_stream`room
      ensures Valid()
      ensures var r := Iterate(l, old(Amb()));
              && keepGoing == r.going && State() == r.core && m_stream.Out() == r.out
              && (keepGoing ==> m_stream.Pending() == r.input)
      ensures m_now == old(m_now) + 1 && Amb() == m_world(old(m_now)).around
      ensures m_stopRequested == (old(m_stopRequested) || m_world(old(m_now)).stop)
    {
      hide Iterate, Iterations, State, SocketStream.Valid;
      LoopIsItsParts(l);
      keepGoing := OneMessage(l.log);
      Observe();
    }

    /** The message loop, until the connection ends or a stop is seen; one moment passes before each look at
        the stop flag. `g` is the state on entry. */
    method HandleMessages(ghost g: Loop) returns (ghost samples: seq<Ambient>)
      requires Valid()
      requires g.going && g.core == State() && g.input == m_stream.Pending() && g.out == m_stream.Out()
      modifies this`m_active, this`m_seqNum, this`m_pointerX, this`m_pointerY
      modifies this`m_trace, this`m_keyStates, this`m_mouseButtonsDown
      modifies this`m_handshakeDone, this`m_shouldReconnect
      modifies this`m_clipChunk, this`m_lastClipboardText, this`m_delivered
      modifies this`m_now, this`m_stopRequested, this`m_autoReconnect
      modifies this`m_clipboardSync, this`m_invertScroll, this`m_axisAccepts
      modifies m_stream`m_buffer, m_stream`m_bufferPos, m_stream`net, m_stream`interrupts, m_stream`sent, m_stream`room
      ensures Valid()
      ensures m_now == old(m_now) + |samples| + 1
      ensures m_stopRequested <==> old(m_stopRequested) || StopIn(m_world, old(m_now), m_now)
      ensures Observed(m_world, old(m_now), samples) && (old(m_stopRequested) ==> samples == [])
      ensures var l := Iterations(g, samples);
              && State() == l.core && m_stream.Out() == l.out && (l.going ==> m_stopRequested)
    {
      hide Iterate, Iterations, Input.All, State, SocketStream.Valid, StopIn, Observed, Amb;
      samples := [];
      NoIterations(g);
      NothingObserved(m_world, m_now);
      ghost var l := g;
      var keepGoing := true;
      StopInOne(m_world, m_now);
      Observe();
      while keepGoing && !m_stopRequested
        invariant Valid()
        invariant m_now == old(m_now) + |samples| + 1
        invariant m_stopRequested <==> old(m_stopRequested) || StopIn(m_world, old(m_now), m_now)
        invariant Observed(m_world, old(m_now), samples) && (old(m_stopRequested) ==> samples == [])
        invariant Amb() == m_world(m_now - 1).around
        invariant l == Iterations(g, samples)
        invariant keepGoing == l.going && State() == l.core && m_stream.Out() == l.out
        invariant keepGoing ==> m_stream.Pending() == l.input
        decreases keepGoing, |l.input.All()|
      {
        ghost var a := Amb();
        StopInOne(m_world, m_now);
        StopInParts(m_world, old(m_now), m_now, m_now + 1);
        keepGoing := OnePassage(l);
        IterationsAppend(g, samples, a);
        ObservedAppend(m_world, old(m_now), samples, a);
        IterationConsumes(l, a);
        samples, l := samples + [a], Iterate(l, a);
      }
    }

    /** Connects, greets, and handles messages. Returns whether another attempt makes sense. */
    method RunOnce(link: Link) returns (again: bool, ghost samples: seq<Ambient>)
      requires Valid() && !m_stream.m_open && m_stream.Pending() == DRAINED
      modifies this`m_active, this`m_seqNum, this`m_pointerX, this`m_pointerY
      modifies this`m_trace, this`m_keyStates, this`m_mouseButtonsDown
      modifies this`m_handshakeDone, this`m_shouldReconnect
      modifies this`m_clipChunk, this`m_lastClipboardText, this`m_delivered
      modifies this`m_now, this`m_stopRequested, this`m_autoReconnect
      modifies this`m_clipboardSync, this`m_invertScroll, this`m_axisAccepts
      modifies m_stream
      ensures Valid() && !m_stream.m_open && m_stream.Pending() == DRAINED
      ensures m_now == old(m_now) + (if Greeted(old(State()), link).going then |samples| + 1 else 0)
      ensures m_stopRequested <==> old(m_stopRequested) || StopIn(m_world, old(m_now), m_now)
      ensures Observed(m_world, old(m_now), samples) && (old(m_stopRequested) ==> samples == [])
      ensures var l := Attempted(old(State()), link, samples);
              && State() == l.core && (l.going ==> m_stopRequested)
              && (link.Accepted? ==> m_stream.sent == l.out.sent)
      ensures again == Again(old(State()), link, samples, m_stopRequested)
    {
      hide Iterations, Greet;
      samples := [];
      ghost var g := Greeted(State(), link);
      NoIterations(g);
      StopInOne(m_world, m_now);
      var ok := m_stream.Connect(link);
      if !ok {
        return true, [];
      }
      ok := Handshake();
      if !ok {
        m_stream.Close();
        return m_shouldReconnect, [];
      }
      samples := HandleMessages(g);
      m_stream.Close();
      again := !m_stopRequested && m_shouldReconnect;
    }

    /** Waits before the next attempt, in steps of 100 ms, unless a stop is seen: the whole interval if there is
        none. */
    method BackOff()
      modifies this`m_now, this`m_stopRequested, this`m_autoReconnect
      modifies this`m_clipboardSync, this`m_invertScroll, this`m_axisAccepts
      ensures m_now >= old(m_now)
      ensures m_stopRequested <==> old(m_stopRequested) || StopIn(m_world, old(m_now), m_now)
      ensures m_stopRequested || 100 * (m_now - old(m_now)) >= m_reconnectIntervalMs
      ensures State() == old(State()) && (old(Valid()) ==> Valid())
    {
      var waitMs := m_reconnectIntervalMs;
      var waited := 0;
      StopInOne(m_world, m_now);
      while waited < waitMs && !m_stopRequested
        invariant m_now >= old(m_now) && waited == 100 * (m_now - old(m_now))
        invariant m_stopRequested <==> old(m_stopRequested) || StopIn(m_world, old(m_now), m_now)
        invariant State() == old(State()) && (old(Valid()) ==> Valid())
        decreases waitMs - waited
      {
        StopInOne(m_world, m_now);
        StopInParts(m_world, old(m_now), m_now, m_now + 1);
        Observe();
        waited := waited + 100;
      }
    }

    /** Each attempt starts with the reconnect flag set. */
    method BeginAttempt()
      modifies this`m_shouldReconnect
      ensures State() == Begun(old(State())) && (old(Valid()) ==> Valid())
    {
      m_shouldReconnect := true;
    }

    /** One round of the worker's loop; `goOn` when it is to be followed by another. */
    method OneAttempt(link: Link) returns (goOn: bool, ghost t: Attempt)
      requires Valid() && !m_stream.m_open && m_stream.Pending() == DRAINED
      modifies this, m_stream
      ensures Valid() && !m_stream.m_open && m_stream.Pending() == DRAINED
      ensures t.link == link && State() == AfterAttempt(old(State()), t)
      ensures goOn <==> GoesOn(old(State()), t)
      ensures m_now > old(m_now) && (t.stop ==> m_stopRequested)
      ensures m_stopRequested <==> old(m_stopRequested) || StopIn(m_world, old(m_now), m_now)
      ensures Observed(m_world, old(m_now), t.samples)
      ensures t.stopAtReturn ==> t.stop
    {
      hide Attempted, Again, AfterAttempt, GoesOn, State, Valid, Begun;
      ghost var c := State();
      BeginAttempt();
      var shouldContinue;
      ghost var samples;
      shouldContinue, samples := RunOnce(link);
      ghost var stopAtReturn := m_stopRequested;
      ghost var looked := m_now;
      StopInOne(m_world, looked);
      StopInParts(m_world, old(m_now), looked, looked + 1);
      Observe();
      t := Attempt(link, samples, stopAtReturn, m_autoReconnect, m_stopRequested);
      goOn := m_autoReconnect && shouldContinue && !m_stopRequested;
      AttemptIs(c, t);
      if goOn {
        BackOff();
        StopInParts(m_world, old(m_now), looked + 1, m_now);
      }
    }

    /** The worker: attempts connections until told to stop or not to try again. `links` is what the
        network offers; the run ends when it is used up, so that it is a finite one. Otherwise it only ends
        when a stop is found requested, or after an attempt that is not to be followed by another. */
    method Run(links: seq<Link>) returns (ghost attempts: seq<Attempt>)
      requires Valid() && !m_stream.m_open && m_stream.Pending() == DRAINED
      modifies this, m_stream
      ensures Valid() && !m_stream.m_open && m_stream.Pending() == DRAINED && !m_running
      ensures IsWorkerRun(old(State()), attempts)
      ensures State() == AfterAttempts(old(State()), attempts)
      ensures |attempts| <= |links|
      ensures forall i :: 0 <= i < |attempts| ==> attempts[i].link == links[i]
      ensures m_now >= old(m_now)
      ensures m_stopRequested <==> old(m_stopRequested) || StopIn(m_world, old(m_now), m_now)
      ensures attempts == [] <==> old(m_stopRequested) || links == []
      ensures |attempts| < |links| && !m_stopRequested ==>
        && attempts != []
        && !GoesOn(AfterAttempts(old(State()), attempts[..|attempts| - 1]), attempts[|attempts| - 1])
    {
      hide AfterAttempts, AfterAttempt, GoesOn, IsWorkerRun;
      attempts := [];
      ghost var c := State();
      NoAttempts(c);
      StopInOne(m_world, m_now);
      var n := 0;
      var goOn := true;
      while goOn && !m_stopRequested
        invariant Valid() && !m_stream.m_open && m_stream.Pending() == DRAINED
        invariant n == |attempts| <= |links|
        invariant IsWorkerRun(c, attempts) && State() == AfterAttempts(c, attempts)
        invariant n > 0 && goOn ==> GoesOn(AfterAttempts(c, attempts[..n - 1]), attempts[n - 1])
        invariant !goOn && n < |links| ==> n > 0 && !GoesOn(AfterAttempts(c, attempts[..n - 1]), attempts[n - 1])
        invariant forall i :: 0 <= i < n ==> attempts[i].link == links[i]
        invariant m_now >= old(m_now) && (old(m_stopRequested) ==> n == 0)
        invariant m_stopRequested <==> old(m_stopRequested) || StopIn(m_world, old(m_now), m_now)
        invariant n == 0 ==> m_stopRequested == old(m_stopRequested) && (goOn || links == [])
        decreases |links| - n, goOn
      {
        if n == |links| {
          goOn := false;
        } else {
          ghost var t;
          ghost var before := m_now;
          goOn, t := OneAttempt(links[n]);
          StopInParts(m_world, old(m_now), before, m_now);
          WorkerRunAppend(c, attempts, t);
          AfterAttemptsAppend(c, attempts, t);
          assert (attempts + [t])[..n] == attempts;
          attempts := attempts + [t];
          n := n + 1;
        }
      }
      m_running := false;
    }

    // ---------- the caller's side ----------

    /** Refused while a worker is running; otherwise the target is taken over, the stop flag is cleared and
        a worker begins. */
    method Start(host: string, port: nat, screenName: Bytes) returns (started: bool)
      modifies this`m_host, this`m_port, this`m_screenName, this`m_stopRequested, this`m_running
      ensures started == !old(m_running) && m_running
      ensures !started ==> m_stopRequested == old(m_stopRequested)
      ensures (m_host, m_port, m_screenName)
           == if started then (host, port, screenName) else old((m_host, m_port, m_screenName))
      ensures started ==> !m_stopRequested
    {
      if m_running {
        return false;
      }
      m_host := host;
      m_port := port;
      m_screenName := screenName;
      m_stopRequested := false;
      m_running := true;
      started := true;
    }

    method SetScreenSize(w: int, h: int)
      modifies this`m_screenW, this`m_screenH
      ensures State() == Resize(old(State()), w, h)
    {
      m_screenW := w;
      m_screenH := h;
    }

    /** Sends one clipboard chunk message. */
    method WriteChunk(mark: uint8, data: Bytes) returns (ok: bool)
      requires Valid()
      modifies m_stream`sent, m_stream`room, m_stream`interrupts
      ensures Valid()
      ensures (m_stream.Out(), ok)
           == WriteFrames(old(m_stream.Out()), [Payload(Clipboard(0, m_seqNum, mark, data))])
    {
      hide Encode, Parse, WellFormed, Matches, Output.FrameFits, Output.PutFrame, WriteFrames, Payload;
      ClipboardFormatWrites(m_seqNum, mark, data);
      var payload := ProtoUtil.Writef([], "DCLP%1i%4i%1i%s", [Num(0), Num(m_seqNum), Num(mark), Str(data)]);
      assert payload == Payload(Clipboard(0, m_seqNum, mark, data));
      WriteOneFrame(m_stream.Out(), payload);
      ok := m_stream.WriteFrame(payload);
    }

    /** Uploads a text; stops at the first frame that cannot be written. */
    method SendClipboard(text: Bytes) returns (ok: bool)
      requires Valid()
      modifies this`m_lastClipboardText
      modifies m_stream`sent, m_stream`room, m_stream`interrupts
      ensures Valid()
      ensures var sends := m_handshakeDone && text != [];
              && m_lastClipboardText == (if sends then text else old(m_lastClipboardText))
              && (m_stream.Out(), ok)
                 == if sends then WriteFrames(old(m_stream.Out()), PayloadsOf(Upload(m_seqNum, text)))
                    else (old(m_stream.Out()), false)
    {
      hide Payload, WriteFrames, Decimal, PayloadsOf, DataMessages, Chunks, TextContainer, Upload;
      if !m_handshakeDone || text == [] {
        return false;
      }
      var payload := MarshalText(text);
      m_lastClipboardText := text;
      ghost var o := m_stream.Out();
      UploadPayloads(m_seqNum, text);
      ghost var data := PayloadsOf(DataMessages(m_seqNum, Chunks(payload)));
      ghost var start := [Payload(StartMessage(m_seqNum, |payload|))];
      ghost var done := start;
      ok := WriteChunk(1, Decimal(|payload|));
      var off: nat := 0;
      assert payload[0..] == payload;
      ghost var todo := data;
      while off < |payload| && ok
        invariant Valid() && off <= |payload| && m_lastClipboardText == text
        invariant (m_stream.Out(), ok) == WriteFrames(o, done)
        invariant done + todo == start + data
        invariant todo == PayloadsOf(DataMessages(m_seqNum, Chunks(payload[off..])))
        decreases |payload| - off
      {
        var n := Min(CHUNK, |payload| - off);
        var chunk := payload[off..off + n];
        DataMessagesStep(m_seqNum, payload[off..]);
        assert payload[off..][..n] == chunk && payload[off..][n..] == payload[off + n..];
        WriteFramesAppend(o, done, Payload(Clipboard(0, m_seqNum, 2, chunk)));
        ok := WriteChunk(2, chunk);
        done, todo := done + [Payload(Clipboard(0, m_seqNum, 2, chunk))], todo[1..];
        off := off + n;
      }
      ghost var last := [Payload(EndMessage(m_seqNum))];
      if ok {
        NoDataLeft(m_seqNum);
        assert payload[off..] == [];
        assert todo == [] && done == start + data;
        WriteFramesAppend(o, done, last[0]);
        ok := WriteChunk(3, []);
      } else {
        WriteFramesStops(o, done, todo + last);
        assert done + (todo + last) == start + data + last;
      }
    }

    /** Claims the clipboard, then uploads the text; ignored unless syncing and in the running phase. */
    method PushClipboard(text: Bytes)
      requires Valid()
      modifies this`m_lastClipboardText
      modifies m_stream`sent, m_stream`room, m_stream`interrupts
      ensures Valid()
      ensures var sends := m_clipboardSync && m_handshakeDone && text != [];
              && m_lastClipboardText == (if sends then text else old(m_lastClipboardText))
              && m_stream.Out()
                 == if sends then
                      var grab := WriteFrames(old(m_stream.Out()), [Payload(GrabClipboard(0, m_seqNum))]).0;
                      WriteFrames(grab, PayloadsOf(Upload(m_seqNum, text))).0
                    else old(m_stream.Out())
    {
      hide Payload, WriteFrames, PayloadsOf, Upload;
      if !m_clipboardSync || !m_handshakeDone || text == [] {
        return;
      }
      GrabTheClipboard();
      var _ := SendClipboard(text);
    }

    method GrabTheClipboard()
      requires Valid() && m_handshakeDone
      modifies m_stream`sent, m_stream`room, m_stream`interrupts
      ensures Valid()
      ensures m_stream.Out() == WriteFrames(old(m_stream.Out()), [Payload(GrabClipboard(0, m_seqNum))]).0
    {
      hide Encode, Parse, WellFormed, Matches, Output.FrameFits, Output.PutFrame, WriteFrames, Payload;
      GrabFormatWrites(m_seqNum);
      var payload := ProtoUtil.Writef([], "CCLP%1i%4i", [Num(0), Num(m_seqNum)]);
      assert payload == Payload(GrabClipboard(0, m_seqNum));
      WriteOneFrame(m_stream.Out(), payload);
      var _ := m_stream.WriteFrame(payload);
    }
  }
}
