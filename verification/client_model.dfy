// What one protocol message does to the client: the state it keeps, the events it injects and the
// reply it sends. The class in client.dfy is proved to do exactly this.
module ClientModel {
  import opened ByteOrder
  import opened Formats
  import opened Messages
  import opened Clipboards

  // ---------- injected events ----------

  datatype Button = LeftButton | MiddleButton | RightButton

  datatype Phase = AxisBegin | AxisUpdate | AxisEnd

  /** Attempts to inject; an axis event also records whether the system accepted it. */
  datatype Event =
    | KeyEvent(keysym: uint32, down: bool)
    | MoveEvent(x: int, y: int, held: Option<Button>)
    | ButtonEvent(button: Button, down: bool, x: int, y: int)
    | AxisEvent(phase: Phase, vertical: bool, value: int, x: int, y: int, ok: bool)

  // ---------- state ----------

  /** A clipboard transfer being received. */
  datatype Transfer = Transfer(active: bool, buffer: Bytes, expectedSize: nat, clipSeq: uint32)

  const NO_TRANSFER := Transfer(false, [], 0, 0)

  /** Where the connection stands. None of it is reset when a new connection is made. */
  datatype Session = Session(active: bool, seqNum: uint32, handshakeDone: bool, shouldReconnect: bool)

  datatype Screen = Screen(w: int, h: int, name: Bytes)

  /** The clipboard: the transfer in progress, the text last exchanged, whether a callback is set, and
      what it has been given. */
  datatype Board = Board(clip: Transfer, lastText: Bytes, hasCallback: bool, delivered: seq<Bytes>)

  datatype Core = Core(
    session: Session,
    keyStates: map<uint32, bool>,
    buttonsDown: map<int, bool>,
    pointerX: int,
    pointerY: int,
    screen: Screen,
    board: Board,
    trace: seq<Event>)

  /** A client that has not been connected yet. */
  const INITIAL := Core(Session(false, 0, false, true), map[], map[], 0, 0, Screen(1280, 800, []),
                        Board(NO_TRANSFER, [], false, []), [])

  /** What the other threads and the system decide while one message is handled: the two switches the
      JS thread can flip, and how many axis events in a row the system accepts. */
  datatype Ambient = Ambient(sync: bool, invert: bool, accepts: nat)

  datatype Handled = Handled(core: Core, replies: seq<Bytes>, keep: bool)

  function Emit(c: Core, e: Event): Core {
    c.(trace := c.trace + [e])
  }

  /** Another screen size; the pointer stays where it was, on the new screen or not. */
  function Resize(c: Core, w: int, h: int): Core {
    c.(screen := c.screen.(w := w, h := h))
  }

  // ---------- keyboard ----------

  const MODIFIER_BITS: seq<uint32> := [0x0001, 0x0002, 0x0004, 0x0008, 0x0010, 0x0020]

  function ModifierKeysym(bit: uint32): uint32 {
    match bit
    case 0x0001 => 0xEFE1
    case 0x0002 => 0xEFE3
    case 0x0004 => 0xEFE9
    case 0x0008 => 0xEFE7
    case 0x0010 => 0xEFEB
    case 0x0020 => 0xEFEA
    case _ => 0
  }

  predicate HasBit(mask: uint32, bit: uint32)
    requires bit > 0
  {
    mask / bit % 2 == 1
  }

  predicate IsDown(states: map<uint32, bool>, k: uint32) {
    k in states && states[k]
  }

  function SetKey(c: Core, k: uint32, down: bool): Core {
    Emit(c, KeyEvent(k, down)).(keyStates := c.keyStates[k := down])
  }

  /** Brings one modifier key into the wanted state. */
  function SyncKey(c: Core, k: uint32, want: bool): Core {
    if want != IsDown(c.keyStates, k) then SetKey(c, k, want) else c
  }

  function SyncBits(c: Core, mask: uint32, bits: seq<uint32>): Core
    requires forall i :: 0 <= i < |bits| ==> bits[i] > 0
    decreases |bits|
  {
    if bits == [] then c
    else SyncBits(SyncKey(c, ModifierKeysym(bits[0]), HasBit(mask, bits[0])), mask, bits[1..])
  }

  function SyncModifiers(c: Core, mask: uint32): Core {
    SyncBits(c, mask, MODIFIER_BITS)
  }

  /** Looking a key up with operator[] inserts it as not pressed. */
  function Touch(c: Core, k: uint32): Core {
    if k in c.keyStates then c else c.(keyStates := c.keyStates[k := false])
  }

  function KeyTo(c: Core, id: int16, mask: int16, down: bool): Core {
    var k := Unsigned32(id);
    SyncKey(Touch(SyncModifiers(c, Unsigned32(mask)), k), k, down)
  }

  // ---------- mouse ----------

  function Clamp(v: int, size: int): int {
    if v < 1 then 1 else if v > size - 1 then size - 1 else v
  }

  function HarmonyButton(id: int): Option<Button> {
    match id
    case 1 => Some(LeftButton)
    case 2 => Some(MiddleButton)
    case 3 => Some(RightButton)
    case _ => None
  }

  predicate Holds(buttons: map<int, bool>, id: int) {
    id in buttons && buttons[id]
  }

  /** The lowest-numbered held button that the system knows. */
  function LowestHeld(buttons: map<int, bool>): Option<Button> {
    if Holds(buttons, 1) then Some(LeftButton)
    else if Holds(buttons, 2) then Some(MiddleButton)
    else if Holds(buttons, 3) then Some(RightButton)
    else None
  }

  function MouseMoved(c: Core, x: int, y: int): Core {
    Emit(c, MoveEvent(Clamp(x, c.screen.w), Clamp(y, c.screen.h), LowestHeld(c.buttonsDown)))
  }

  function AxisEvents(vertical: bool, value: int, x: int, y: int, accepts: nat): seq<Event> {
    var begin := AxisEvent(AxisBegin, vertical, value, x, y, accepts > 0);
    var update := AxisEvent(AxisUpdate, vertical, value, x, y, accepts > 1);
    var end := AxisEvent(AxisEnd, vertical, value, x, y, accepts > 2);
    if accepts == 0 then [begin] else if accepts == 1 then [begin, update] else [begin, update, end]
  }

  function Wheeled(c: Core, xDelta: int, yDelta: int, a: Ambient): Core {
    if xDelta == 0 && yDelta == 0 then c
    else
      var dy := if a.invert then -yDelta else yDelta;
      c.(trace := c.trace
        + AxisEvents(dy != 0, if dy != 0 then dy else xDelta, c.pointerX, c.pointerY, a.accepts))
  }

  function ButtonTo(c: Core, id: int, down: bool, a: Ambient): Core {
    match HarmonyButton(id)
    case Some(b) =>
      Emit(c, ButtonEvent(b, down, Clamp(c.pointerX, c.screen.w), Clamp(c.pointerY, c.screen.h)))
        .(buttonsDown := c.buttonsDown[id := down])
    case None =>
      if id == 4 || id == 5 then Wheeled(c, 0, if id == 4 then 1 else -1, a) else c
  }

  function ReleaseIfHeld(c: Core, id: int, a: Ambient): Core {
    if Holds(c.buttonsDown, id) then ButtonTo(c, id, false, a) else c
  }

  /** Leaving the screen releases the held buttons in ascending order and forgets them all. */
  function ReleaseButtons(c: Core, a: Ambient): Core {
    ReleaseIfHeld(ReleaseIfHeld(ReleaseIfHeld(c, 1, a), 2, a), 3, a).(buttonsDown := map[])
  }

  function PointerTo(c: Core, x: int, y: int): Core {
    MouseMoved(c.(pointerX := x, pointerY := y), x, y)
  }

  function OnScreen(v: int, size: int): int {
    var w := if v < 0 then 0 else v;
    if w >= size then size - 1 else w
  }

  function Entered(c: Core, x: int16, y: int16, seqNum: uint32, mask: int16): Core {
    var c1 := c.(session := c.session.(active := true, seqNum := seqNum));
    SyncModifiers(if x >= 0 && y >= 0 then PointerTo(c1, x, y) else c1, Unsigned32(mask))
  }

  function Departed(c: Core, a: Ambient): Core {
    ReleaseButtons(c.(session := c.session.(active := false)), a)
  }

  function PointerBy(c: Core, dx: int16, dy: int16): Core {
    PointerTo(c, OnScreen(c.pointerX + dx, c.screen.w), OnScreen(c.pointerY + dy, c.screen.h))
  }

  // ---------- clipboard ----------

  const MAX_CLIPBOARD: nat := 1024 * 1024

  function StartTransfer(seqNum: uint32, data: Bytes): Transfer {
    var size := match Stoull(data) case Some(n) => n case None => 0;
    Transfer(size <= MAX_CLIPBOARD, [], size, seqNum)
  }

  /** A completed transfer: its text is passed on when syncing is enabled and there is any. */
  function Deliver(d: Board, assembled: Bytes, a: Ambient): Board {
    var text := Unmarshal(assembled);
    if a.sync && text != [] then
      d.(lastText := text, delivered := if d.hasCallback then d.delivered + [text] else d.delivered)
    else d
  }

  function ReceiveChunk(d: Board, seqNum: uint32, mark: uint8, data: Bytes, a: Ambient): Board {
    if mark == 1 then d.(clip := StartTransfer(seqNum, data))
    else if !d.clip.active then d
    else if mark == 2 then d.(clip := d.clip.(buffer := d.clip.buffer + data))
    else if mark == 3 then Deliver(d.(clip := d.clip.(active := false, buffer := [])), d.clip.buffer, a)
    else d
  }

  // ---------- replies ----------

  const INFO_ITEMS: seq<Item> := [Int(2), Int(2), Int(2), Int(2), Int(2), Int(2), Int(2)]

  function InfoArgs(c: Core): seq<Value> {
    [Num(0), Num(0), Num(c.screen.w), Num(c.screen.h), Num(0), Num(c.pointerX), Num(c.pointerY)]
  }

  lemma InfoArgsMatch(c: Core)
    ensures Matches(INFO_ITEMS, InfoArgs(c))
  {
    PairwiseMatches(INFO_ITEMS, InfoArgs(c));
  }

  /** The answer to a screen query. */
  function InfoPayload(c: Core): Bytes {
    InfoArgsMatch(c);
    Tag('D', 'I', 'N', 'F').Octets() + Encode(INFO_ITEMS, InfoArgs(c))
  }

  const INFO_FORMAT: string := "DINF%2i%2i%2i%2i%2i%2i%2i"

  lemma InfoFormatParses()
    ensures ParsesTo("%2i%2i%2i%2i%2i%2i%2i", INFO_ITEMS)
  {
    hide ParsesTo;
    EmptyParses();
    SizedParses('2', 'i', "", [], "%2i", [Int(2)]);
    SizedParses('2', 'i', "%2i", [Int(2)], "%2i%2i", [Int(2), Int(2)]);
    SizedParses('2', 'i', "%2i%2i", [Int(2), Int(2)], "%2i%2i%2i", [Int(2), Int(2), Int(2)]);
    SizedParses('2', 'i', "%2i%2i%2i", [Int(2), Int(2), Int(2)], "%2i%2i%2i%2i", [Int(2), Int(2), Int(2), Int(2)]);
    SizedParses('2', 'i', "%2i%2i%2i%2i", [Int(2), Int(2), Int(2), Int(2)],
      "%2i%2i%2i%2i%2i", [Int(2), Int(2), Int(2), Int(2), Int(2)]);
    SizedParses('2', 'i', "%2i%2i%2i%2i%2i", [Int(2), Int(2), Int(2), Int(2), Int(2)],
      "%2i%2i%2i%2i%2i%2i", [Int(2), Int(2), Int(2), Int(2), Int(2), Int(2)]);
    SizedParses('2', 'i', "%2i%2i%2i%2i%2i%2i", [Int(2), Int(2), Int(2), Int(2), Int(2), Int(2)],
      "%2i%2i%2i%2i%2i%2i%2i", [Int(2), Int(2), Int(2), Int(2), Int(2), Int(2), Int(2)]);
  }

  lemma InfoFormatStandsFor()
    ensures WellFormed(INFO_FORMAT) && Parse(INFO_FORMAT) == Letters("DINF") + INFO_ITEMS
  {
    hide Parse, WellFormed, ParsesTo, Letters;
    InfoFormatParses();
    LettersParse("DINF", "%2i%2i%2i%2i%2i%2i%2i", INFO_ITEMS);
    assert "DINF" + "%2i%2i%2i%2i%2i%2i%2i" == INFO_FORMAT;
    ParsesMeans(INFO_FORMAT, Letters("DINF") + INFO_ITEMS);
  }

  /** The DINF format writes the answer. */
  lemma InfoFormatWrites(c: Core)
    ensures WellFormed(INFO_FORMAT) && Matches(Parse(INFO_FORMAT), InfoArgs(c))
    ensures Encode(Parse(INFO_FORMAT), InfoArgs(c)) == InfoPayload(c)
  {
    hide Encode, Matches, Parse, WellFormed, Letters, TextBytes;
    InfoFormatStandsFor();
    InfoArgsMatch(c);
    var tag := Tag('D', 'I', 'N', 'F');
    assert tag.Text() == "DINF";
    TextOctets(tag);
    LettersEncode("DINF", INFO_ITEMS, InfoArgs(c));
  }

  const NOOP_PAYLOAD: Bytes := Tag('C', 'N', 'O', 'P').Octets()
  const KEEP_ALIVE_PAYLOAD: Bytes := Tag('C', 'A', 'L', 'V').Octets()

  // ---------- one message ----------

  function Handle(c: Core, m: Msg, a: Ambient): Handled {
    match m
    case QueryInfo => Handled(c, [InfoPayload(c)], true)
    case KeepAlive => Handled(c, [KEEP_ALIVE_PAYLOAD], true)
    case Enter(x, y, seqNum, mask) => Handled(Entered(c, x, y, seqNum, mask), [], true)
    case Leave => Handled(Departed(c, a), [], true)
    case Close => Handled(c.(session := c.session.(shouldReconnect := false)), [], false)
    case MouseMove(x, y) => Handled(PointerTo(c, x, y), [], true)
    case MouseRelMove(dx, dy) => Handled(PointerBy(c, dx, dy), [], true)
    case MouseDown(button) => Handled(ButtonTo(c, button, true, a), [], true)
    case MouseUp(button) => Handled(ButtonTo(c, button, false, a), [], true)
    case MouseWheel(xDelta, yDelta) => Handled(Wheeled(c, xDelta, yDelta, a), [], true)
    case KeyDown(id, mask, _) => Handled(KeyTo(c, id, mask, true), [], true)
    case KeyUp(id, mask, _) => Handled(KeyTo(c, id, mask, false), [], true)
    case KeyRepeat(id, mask, _, _, _) => Handled(KeyTo(c, id, mask, true), [], true)
    case KeyDownLang(id, mask, _, _) => Handled(KeyTo(c, id, mask, true), [], true)
    case SetOptions(_) => Handled(c.(session := c.session.(handshakeDone := true)), [], true)
    case Clipboard(_, seqNum, mark, data) => 
      Handled(c.(board := ReceiveChunk(c.board, seqNum, mark, data, a)), [], true)
    case Incompatible(_, _) => Handled(c.(session := c.session.(shouldReconnect := false)), [], false)
    case Busy => Handled(c, [], false)
    case UnknownClient => Handled(c, [], false)
    case BadProtocol => Handled(c, [], false)
    case _ => Handled(c, [], true)
  }

  // ---------- kinds of message ----------

  predicate IsInput(m: Msg) {
    || m.Enter? || m.Leave? || m.MouseMove? || m.MouseRelMove? || m.MouseDown? || m.MouseUp?
    || m.MouseWheel? || IsKeyEvent(m)
  }

  predicate IsVerdict(m: Msg) {
    m.Close? || m.Incompatible? || m.Busy? || m.UnknownClient? || m.BadProtocol?
  }

  predicate IsQuery(m: Msg) {
    m.QueryInfo? || m.KeepAlive?
  }

  // ---------- uploading a text ----------

  function PayloadsOf(ms: seq<Msg>): seq<Bytes> {
    if ms == [] then [] else [Payload(ms[0])] + PayloadsOf(ms[1..])
  }

  function DataMessages(seqNum: uint32, parts: seq<Bytes>): seq<Msg> {
    if parts == [] then [] else [Clipboard(0, seqNum, 2, parts[0])] + DataMessages(seqNum, parts[1..])
  }

  function StartMessage(seqNum: uint32, size: nat): Msg {
    Clipboard(0, seqNum, 1, Decimal(size))
  }

  function EndMessage(seqNum: uint32): Msg {
    Clipboard(0, seqNum, 3, [])
  }

  /** The announced size of the container, the container in chunks, the end mark. */
  function Upload(seqNum: uint32, text: Bytes): seq<Msg> {
    var container := TextContainer(text);
    [StartMessage(seqNum, |container|)] + DataMessages(seqNum, Chunks(container)) + [EndMessage(seqNum)]
  }

  lemma {:induction false} PayloadsOfConcat(a: seq<Msg>, b: seq<Msg>)
    ensures PayloadsOf(a + b) == PayloadsOf(a) + PayloadsOf(b)
  {
    hide Payload;
    if a == [] {
      assert a + b == b;
    } else {
      assert (a + b)[1..] == a[1..] + b;
      PayloadsOfConcat(a[1..], b);
    }
  }

  lemma PayloadOfOne(m: Msg)
    ensures PayloadsOf([m]) == [Payload(m)]
  {
    hide Payload;
    assert [m][1..] == [];
  }

  /** The data messages of a non-empty rest: one chunk, then those of what remains. */
  lemma DataMessagesStep(seqNum: uint32, rest: Bytes)
    requires rest != []
    ensures var n := Min(CHUNK, |rest|);
      PayloadsOf(DataMessages(seqNum, Chunks(rest)))
      == [Payload(Clipboard(0, seqNum, 2, rest[..n]))] + PayloadsOf(DataMessages(seqNum, Chunks(rest[n..])))
  {
    hide Payload;
    var n := Min(CHUNK, |rest|);
    assert Chunks(rest)[1..] == Chunks(rest[n..]);
    assert DataMessages(seqNum, Chunks(rest))[1..] == DataMessages(seqNum, Chunks(rest[n..]));
  }

  lemma UploadPayloads(seqNum: uint32, text: Bytes)
    ensures var container := TextContainer(text);
      PayloadsOf(Upload(seqNum, text))
      == [Payload(StartMessage(seqNum, |container|))]
         + PayloadsOf(DataMessages(seqNum, Chunks(container)))
         + [Payload(EndMessage(seqNum))]
  {
    hide Payload, TextContainer, Chunks, DataMessages, PayloadsOf, StartMessage, EndMessage;
    var container := TextContainer(text);
    var data := DataMessages(seqNum, Chunks(container));
    PayloadsOfConcat([StartMessage(seqNum, |container|)], data);
    PayloadsOfConcat([StartMessage(seqNum, |container|)] + data, [EndMessage(seqNum)]);
    PayloadOfOne(StartMessage(seqNum, |container|));
    PayloadOfOne(EndMessage(seqNum));
  }
}
