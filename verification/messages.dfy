// The messages of the Deskflow/Barrier protocol that a client receives, with their wire formats.
module Messages {
  import opened ByteOrder
  import opened Formats
  import opened CodecLaws

  datatype Msg =
    | QueryInfo
    | KeepAlive
    | Enter(x: int16, y: int16, seqNum: uint32, mask: int16)
    | Leave
    | Close
    | MouseMove(x: int16, y: int16)
    | MouseRelMove(dx: int16, dy: int16)
    | MouseDown(button: uint8)
    | MouseUp(button: uint8)
    | MouseWheel(xDelta: int16, yDelta: int16)
    | KeyDown(id: int16, mask: int16, key: int16)
    | KeyUp(id: int16, mask: int16, key: int16)
    | KeyRepeat(id: int16, mask: int16, count: int16, key: int16, lang: Bytes)
    | KeyDownLang(id: int16, mask: int16, key: int16, lang: Bytes)
    | Noop
    | ResetOptions
    | InfoAck
    | ScreenSaver(on: uint8)
    | GrabClipboard(clip: uint8, seqNum: uint32)
    | SetOptions(options: seq<uint32>)
    | Clipboard(clip: uint8, seqNum: uint32, mark: uint8, data: Bytes)
    | FileTransfer(mark: uint8, data: Bytes)
    | DragInfo(files: int16, info: Bytes)
    | LanguageSync(data: Bytes)
    | SecureInput(data: Bytes)
    | Incompatible(major: int16, minor: int16)
    | Busy
    | UnknownClient
    | BadProtocol

  datatype Kind =
    | QueryInfoKind
    | KeepAliveKind
    | EnterKind
    | LeaveKind
    | CloseKind
    | MouseMoveKind
    | MouseRelMoveKind
    | MouseDownKind
    | MouseUpKind
    | MouseWheelKind
    | KeyDownKind
    | KeyUpKind
    | KeyRepeatKind
    | KeyDownLangKind
    | NoopKind
    | ResetOptionsKind
    | InfoAckKind
    | ScreenSaverKind
    | GrabClipboardKind
    | SetOptionsKind
    | ClipboardKind
    | FileTransferKind
    | DragInfoKind
    | LanguageSyncKind
    | SecureInputKind
    | IncompatibleKind
    | BusyKind
    | UnknownClientKind
    | BadProtocolKind

  /** The four letters that open a frame. */
  datatype Tag = Tag(a: char, b: char, c: char, d: char) {
    function Text(): string {
      [a, b, c, d]
    }

    function Octets(): Bytes {
      [Ascii(a), Ascii(b), Ascii(c), Ascii(d)]
    }
  }

  function TagOf(head: Bytes): Tag
    requires |head| == 4
  {
    Tag(head[0] as char, head[1] as char, head[2] as char, head[3] as char)
  }

  function KindOf(m: Msg): Kind {
    match m
    case QueryInfo => QueryInfoKind
    case KeepAlive => KeepAliveKind
    case Enter(_, _, _, _) => EnterKind
    case Leave => LeaveKind
    case Close => CloseKind
    case MouseMove(_, _) => MouseMoveKind
    case MouseRelMove(_, _) => MouseRelMoveKind
    case MouseDown(_) => MouseDownKind
    case MouseUp(_) => MouseUpKind
    case MouseWheel(_, _) => MouseWheelKind
    case KeyDown(_, _, _) => KeyDownKind
    case KeyUp(_, _, _) => KeyUpKind
    case KeyRepeat(_, _, _, _, _) => KeyRepeatKind
    case KeyDownLang(_, _, _, _) => KeyDownLangKind
    case Noop => NoopKind
    case ResetOptions => ResetOptionsKind
    case InfoAck => InfoAckKind
    case ScreenSaver(_) => ScreenSaverKind
    case GrabClipboard(_, _) => GrabClipboardKind
    case SetOptions(_) => SetOptionsKind
    case Clipboard(_, _, _, _) => ClipboardKind
    case FileTransfer(_, _) => FileTransferKind
    case DragInfo(_, _) => DragInfoKind
    case LanguageSync(_) => LanguageSyncKind
    case SecureInput(_) => SecureInputKind
    case Incompatible(_, _) => IncompatibleKind
    case Busy => BusyKind
    case UnknownClient => UnknownClientKind
    case BadProtocol => BadProtocolKind
  }

  function Key(k: Kind): Tag {
    match k
    case QueryInfoKind => Tag('Q', 'I', 'N', 'F')
    case KeepAliveKind => Tag('C', 'A', 'L', 'V')
    case EnterKind => Tag('C', 'I', 'N', 'N')
    case LeaveKind => Tag('C', 'O', 'U', 'T')
    case CloseKind => Tag('C', 'B', 'Y', 'E')
    case MouseMoveKind => Tag('D', 'M', 'M', 'V')
    case MouseRelMoveKind => Tag('D', 'M', 'R', 'M')
    case MouseDownKind => Tag('D', 'M', 'D', 'N')
    case MouseUpKind => Tag('D', 'M', 'U', 'P')
    case MouseWheelKind => Tag('D', 'M', 'W', 'M')
    case KeyDownKind => Tag('D', 'K', 'D', 'N')
    case KeyUpKind => Tag('D', 'K', 'U', 'P')
    case KeyRepeatKind => Tag('D', 'K', 'R', 'P')
    case KeyDownLangKind => Tag('D', 'K', 'D', 'L')
    case NoopKind => Tag('C', 'N', 'O', 'P')
    case ResetOptionsKind => Tag('C', 'R', 'O', 'P')
    case InfoAckKind => Tag('C', 'I', 'A', 'K')
    case ScreenSaverKind => Tag('C', 'S', 'E', 'C')
    case GrabClipboardKind => Tag('C', 'C', 'L', 'P')
    case SetOptionsKind => Tag('D', 'S', 'O', 'P')
    case ClipboardKind => Tag('D', 'C', 'L', 'P')
    case FileTransferKind => Tag('D', 'F', 'T', 'R')
    case DragInfoKind => Tag('D', 'D', 'R', 'G')
    case LanguageSyncKind => Tag('L', 'S', 'Y', 'N')
    case SecureInputKind => Tag('S', 'E', 'C', 'N')
    case IncompatibleKind => Tag('E', 'I', 'C', 'V')
    case BusyKind => Tag('E', 'B', 'S', 'Y')
    case UnknownClientKind => Tag('E', 'U', 'N', 'K')
    case BadProtocolKind => Tag('E', 'B', 'A', 'D')
  }

  /** The format of the arguments: what follows the key in the format constants. */
  function ArgFormat(k: Kind): string {
    match k
    case EnterKind => "%2i%2i%4i%2i"
    case MouseMoveKind => "%2i%2i"
    case MouseRelMoveKind => "%2i%2i"
    case MouseDownKind => "%1i"
    case MouseUpKind => "%1i"
    case MouseWheelKind => "%2i%2i"
    case KeyDownKind => "%2i%2i%2i"
    case KeyUpKind => "%2i%2i%2i"
    case KeyRepeatKind => "%2i%2i%2i%2i%s"
    case KeyDownLangKind => "%2i%2i%2i%s"
    case ScreenSaverKind => "%1i"
    case GrabClipboardKind => "%1i%4i"
    case SetOptionsKind => "%4I"
    case ClipboardKind => "%1i%4i%1i%s"
    case FileTransferKind => "%1i%s"
    case DragInfoKind => "%2i%s"
    case LanguageSyncKind => "%s"
    case SecureInputKind => "%s"
    case IncompatibleKind => "%2i%2i"
    case _ => ""
  }

  /** The items of the arguments. */
  function Items(k: Kind): seq<Item> {
    match k
    case EnterKind => [Int(2), Int(2), Int(4), Int(2)]
    case MouseMoveKind => [Int(2), Int(2)]
    case MouseRelMoveKind => [Int(2), Int(2)]
    case MouseDownKind => [Int(1)]
    case MouseUpKind => [Int(1)]
    case MouseWheelKind => [Int(2), Int(2)]
    case KeyDownKind => [Int(2), Int(2), Int(2)]
    case KeyUpKind => [Int(2), Int(2), Int(2)]
    case KeyRepeatKind => [Int(2), Int(2), Int(2), Int(2), Text]
    case KeyDownLangKind => [Int(2), Int(2), Int(2), Text]
    case ScreenSaverKind => [Int(1)]
    case GrabClipboardKind => [Int(1), Int(4)]
    case SetOptionsKind => [Ints(4)]
    case ClipboardKind => [Int(1), Int(4), Int(1), Text]
    case FileTransferKind => [Int(1), Text]
    case DragInfoKind => [Int(2), Text]
    case LanguageSyncKind => [Text]
    case SecureInputKind => [Text]
    case IncompatibleKind => [Int(2), Int(2)]
    case _ => []
  }

  /** The message a key introduces. */
  function Dispatch(key: Tag): Option<Kind> {
    if key == Key(QueryInfoKind) then Some(QueryInfoKind)
    else if key == Key(KeepAliveKind) then Some(KeepAliveKind)
    else if key == Key(EnterKind) then Some(EnterKind)
    else if key == Key(LeaveKind) then Some(LeaveKind)
    else if key == Key(CloseKind) then Some(CloseKind)
    else if key == Key(MouseMoveKind) then Some(MouseMoveKind)
    else if key == Key(MouseRelMoveKind) then Some(MouseRelMoveKind)
    else if key == Key(MouseDownKind) then Some(MouseDownKind)
    else if key == Key(MouseUpKind) then Some(MouseUpKind)
    else if key == Key(MouseWheelKind) then Some(MouseWheelKind)
    else if key == Key(KeyDownKind) then Some(KeyDownKind)
    else if key == Key(KeyUpKind) then Some(KeyUpKind)
    else if key == Key(KeyRepeatKind) then Some(KeyRepeatKind)
    else if key == Key(KeyDownLangKind) then Some(KeyDownLangKind)
    else if key == Key(NoopKind) then Some(NoopKind)
    else if key == Key(ResetOptionsKind) then Some(ResetOptionsKind)
    else if key == Key(InfoAckKind) then Some(InfoAckKind)
    else if key == Key(ScreenSaverKind) then Some(ScreenSaverKind)
    else if key == Key(GrabClipboardKind) then Some(GrabClipboardKind)
    else if key == Key(SetOptionsKind) then Some(SetOptionsKind)
    else if key == Key(ClipboardKind) then Some(ClipboardKind)
    else if key == Key(FileTransferKind) then Some(FileTransferKind)
    else if key == Key(DragInfoKind) then Some(DragInfoKind)
    else if key == Key(LanguageSyncKind) then Some(LanguageSyncKind)
    else if key == Key(SecureInputKind) then Some(SecureInputKind)
    else if key == Key(IncompatibleKind) then Some(IncompatibleKind)
    else if key == Key(BusyKind) then Some(BusyKind)
    else if key == Key(UnknownClientKind) then Some(UnknownClientKind)
    else if key == Key(BadProtocolKind) then Some(BadProtocolKind)
    else None
  }

  function Args(m: Msg): seq<Value> {
    match m
    case Enter(x, y, seqNum, mask) => [Num(x), Num(y), Num(seqNum), Num(mask)]
    case MouseMove(x, y) => [Num(x), Num(y)]
    case MouseRelMove(dx, dy) => [Num(dx), Num(dy)]
    case MouseDown(button) => [Num(button)]
    case MouseUp(button) => [Num(button)]
    case MouseWheel(xDelta, yDelta) => [Num(xDelta), Num(yDelta)]
    case KeyDown(id, mask, key) => [Num(id), Num(mask), Num(key)]
    case KeyUp(id, mask, key) => [Num(id), Num(mask), Num(key)]
    case KeyRepeat(id, mask, count, key, lang) => [Num(id), Num(mask), Num(count), Num(key), Str(lang)]
    case KeyDownLang(id, mask, key, lang) => [Num(id), Num(mask), Num(key), Str(lang)]
    case ScreenSaver(on) => [Num(on)]
    case GrabClipboard(clip, seqNum) => [Num(clip), Num(seqNum)]
    case SetOptions(options) => [Nums(options)]
    case Clipboard(clip, seqNum, mark, data) => [Num(clip), Num(seqNum), Num(mark), Str(data)]
    case FileTransfer(mark, data) => [Num(mark), Str(data)]
    case DragInfo(files, info) => [Num(files), Str(info)]
    case LanguageSync(data) => [Str(data)]
    case SecureInput(data) => [Str(data)]
    case Incompatible(major, minor) => [Num(major), Num(minor)]
    case _ => []
  }

  /** The value has the type and range that reading the item gives. */
  predicate InRange(it: Item, v: Value) {
    match it
    case Int(w) =>
      && v.Num? && 0 <= v.n
      && (w == 1 ==> v.n < 0x100) && (w == 2 ==> v.n < 0x1_0000) && (w == 4 ==> v.n < 0x1_0000_0000)
    case Ints(w) => v.Nums?
    case _ => v.Str?
  }

  ghost predicate Shape(items: seq<Item>, v: seq<Value>) {
    |v| == |items| && forall i :: 0 <= i < |v| ==> InRange(items[i], v[i])
  }

  /** The message built from the values read; int16_t destinations reinterpret the sign bit. */
  function Build(k: Kind, v: seq<Value>): Msg
    requires Shape(Items(k), v)
  {
    match k
    case QueryInfoKind => QueryInfo
    case KeepAliveKind => KeepAlive
    case EnterKind => Enter(Signed16(v[0].n), Signed16(v[1].n), v[2].n, Signed16(v[3].n))
    case LeaveKind => Leave
    case CloseKind => Close
    case MouseMoveKind => MouseMove(Signed16(v[0].n), Signed16(v[1].n))
    case MouseRelMoveKind => MouseRelMove(Signed16(v[0].n), Signed16(v[1].n))
    case MouseDownKind => MouseDown(v[0].n)
    case MouseUpKind => MouseUp(v[0].n)
    case MouseWheelKind => MouseWheel(Signed16(v[0].n), Signed16(v[1].n))
    case KeyDownKind => KeyDown(Signed16(v[0].n), Signed16(v[1].n), Signed16(v[2].n))
    case KeyUpKind => KeyUp(Signed16(v[0].n), Signed16(v[1].n), Signed16(v[2].n))
    case KeyRepeatKind => KeyRepeat(Signed16(v[0].n), Signed16(v[1].n), Signed16(v[2].n), Signed16(v[3].n), v[4].s)
    case KeyDownLangKind => KeyDownLang(Signed16(v[0].n), Signed16(v[1].n), Signed16(v[2].n), v[3].s)
    case NoopKind => Noop
    case ResetOptionsKind => ResetOptions
    case InfoAckKind => InfoAck
    case ScreenSaverKind => ScreenSaver(v[0].n)
    case GrabClipboardKind => GrabClipboard(v[0].n, v[1].n)
    case SetOptionsKind => SetOptions(v[0].ns)
    case ClipboardKind => Clipboard(v[0].n, v[1].n, v[2].n, v[3].s)
    case FileTransferKind => FileTransfer(v[0].n, v[1].s)
    case DragInfoKind => DragInfo(Signed16(v[0].n), v[1].s)
    case LanguageSyncKind => LanguageSync(v[0].s)
    case SecureInputKind => SecureInput(v[0].s)
    case IncompatibleKind => Incompatible(Signed16(v[0].n), Signed16(v[1].n))
    case BusyKind => Busy
    case UnknownClientKind => UnknownClient
    case BadProtocolKind => BadProtocol
  }
  // ---------- the tables agree ----------

  /** Formats with one or two arguments. */
  lemma ShortFormatsParse()
    ensures ParsesTo("%s", [Text])
    ensures ParsesTo("%1i", [Int(1)])
    ensures ParsesTo("%4I", [Ints(4)])
    ensures ParsesTo("%2i%s", [Int(2), Text])
    ensures ParsesTo("%1i%s", [Int(1), Text])
    ensures ParsesTo("%1i%4i", [Int(1), Int(4)])
    ensures ParsesTo("%2i%2i", [Int(2), Int(2)])
  {
    hide ParsesTo;
    EmptyParses();
    PlainParses('s', "", [], "%s", [Text]);
    SizedParses('1', 'i', "", [], "%1i", [Int(1)]);
    SizedParses('2', 'i', "", [], "%2i", [Int(2)]);
    SizedParses('4', 'i', "", [], "%4i", [Int(4)]);
    SizedParses('4', 'I', "", [], "%4I", [Ints(4)]);
    SizedParses('2', 'i', "%s", [Text], "%2i%s", [Int(2), Text]);
    SizedParses('1', 'i', "%s", [Text], "%1i%s", [Int(1), Text]);
    SizedParses('1', 'i', "%4i", [Int(4)], "%1i%4i", [Int(1), Int(4)]);
    SizedParses('2', 'i', "%2i", [Int(2)], "%2i%2i", [Int(2), Int(2)]);
  }

  /** Key events. */
  lemma KeyFormatsParse()
    ensures ParsesTo("%2i%2i%2i", [Int(2), Int(2), Int(2)])
    ensures ParsesTo("%2i%2i%2i%s", [Int(2), Int(2), Int(2), Text])
    ensures ParsesTo("%2i%2i%2i%2i%s", [Int(2), Int(2), Int(2), Int(2), Text])
  {
    hide ParsesTo;
    EmptyParses();
    PlainParses('s', "", [], "%s", [Text]);
    SizedParses('2', 'i', "%s", [Text], "%2i%s", [Int(2), Text]);
    SizedParses('2', 'i', "%2i%s", [Int(2), Text], "%2i%2i%s", [Int(2), Int(2), Text]);
    SizedParses('2', 'i', "%2i%2i%s", [Int(2), Int(2), Text], "%2i%2i%2i%s", [Int(2), Int(2), Int(2), Text]);
    SizedParses('2', 'i', "%2i%2i%2i%s", [Int(2), Int(2), Int(2), Text],
      "%2i%2i%2i%2i%s", [Int(2), Int(2), Int(2), Int(2), Text]);
    SizedParses('2', 'i', "", [], "%2i", [Int(2)]);
    SizedParses('2', 'i', "%2i", [Int(2)], "%2i%2i", [Int(2), Int(2)]);
    SizedParses('2', 'i', "%2i%2i", [Int(2), Int(2)], "%2i%2i%2i", [Int(2), Int(2), Int(2)]);
  }

  /** Entering the screen. */
  lemma EnterFormatParses()
    ensures ParsesTo("%2i%2i%4i%2i", [Int(2), Int(2), Int(4), Int(2)])
  {
    hide ParsesTo;
    EmptyParses();
    SizedParses('2', 'i', "", [], "%2i", [Int(2)]);
    SizedParses('4', 'i', "%2i", [Int(2)], "%4i%2i", [Int(4), Int(2)]);
    SizedParses('2', 'i', "%4i%2i", [Int(4), Int(2)], "%2i%4i%2i", [Int(2), Int(4), Int(2)]);
    SizedParses('2', 'i', "%2i%4i%2i", [Int(2), Int(4), Int(2)], "%2i%2i%4i%2i", [Int(2), Int(2), Int(4), Int(2)]);
  }

  /** Clipboard chunks. */
  lemma ClipboardFormatParses()
    ensures ParsesTo("%1i%4i%1i%s", [Int(1), Int(4), Int(1), Text])
  {
    hide ParsesTo;
    EmptyParses();
    PlainParses('s', "", [], "%s", [Text]);
    SizedParses('1', 'i', "%s", [Text], "%1i%s", [Int(1), Text]);
    SizedParses('4', 'i', "%1i%s", [Int(1), Text], "%4i%1i%s", [Int(4), Int(1), Text]);
    SizedParses('1', 'i', "%4i%1i%s", [Int(4), Int(1), Text], "%1i%4i%1i%s", [Int(1), Int(4), Int(1), Text]);
  }

  /** Hello and its reply. */
  lemma HandshakeFormatsParse()
    ensures ParsesTo("%7s%2i%2i", [Fixed(7), Int(2), Int(2)])
    ensures ParsesTo("%7s%2i%2i%s", [Fixed(7), Int(2), Int(2), Text])
  {
    hide ParsesTo;
    EmptyParses();
    PlainParses('s', "", [], "%s", [Text]);
    SizedParses('2', 'i', "%s", [Text], "%2i%s", [Int(2), Text]);
    SizedParses('2', 'i', "%2i%s", [Int(2), Text], "%2i%2i%s", [Int(2), Int(2), Text]);
    SizedParses('7', 's', "%2i%2i%s", [Int(2), Int(2), Text], "%7s%2i%2i%s", [Fixed(7), Int(2), Int(2), Text]);
    SizedParses('2', 'i', "", [], "%2i", [Int(2)]);
    SizedParses('2', 'i', "%2i", [Int(2)], "%2i%2i", [Int(2), Int(2)]);
    SizedParses('7', 's', "%2i%2i", [Int(2), Int(2)], "%7s%2i%2i", [Fixed(7), Int(2), Int(2)]);
  }

  /** Each argument format stands for its items. */
  lemma ArgFormatsParse(k: Kind)
    ensures ParsesTo(ArgFormat(k), Items(k))
  {
    hide ParsesTo;
    EmptyParses();
    ShortFormatsParse();
    KeyFormatsParse();
    EnterFormatParses();
    ClipboardFormatParses();
  }

  /** Every key selects its own message, and no other key does. */
  lemma KeysDispatch(k: Kind)
    ensures Dispatch(Key(k)) == Some(k)
    ensures forall t :: Dispatch(t) == Some(k) ==> t == Key(k)
  {
    forall t | Dispatch(t) == Some(k)
      ensures t == Key(k)
    {
      DispatchIsSound(t);
    }
    hide Dispatch, Key, ByLetters;
    DispatchIsSound(Key(k));
    DispatchIsTotal(Key(k), k);
    KindByLetters(k);
    KindByLetters(Dispatch(Key(k)).value);
  }

  lemma TagReadsBack(k: Kind)
    ensures TagOf(Key(k).Octets()) == Key(k)
  {
  }

  lemma DispatchIsSound(t: Tag)
    ensures Dispatch(t).Some? ==> Key(Dispatch(t).value) == t
  {
  }

  lemma DispatchIsTotal(t: Tag, k: Kind)
    requires Key(k) == t
    ensures Dispatch(t).Some?
  {
  }

  /** A decision tree over the letters; it exists to show that no two keys are equal. */
  function ByLetters(t: Tag): Option<Kind> {
    match t.a
    case 'C' =>
      (match t.b
       case 'A' => Some(KeepAliveKind)
       case 'I' => if t.c == 'N' then Some(EnterKind) else Some(InfoAckKind)
       case 'O' => Some(LeaveKind)
       case 'B' => Some(CloseKind)
       case 'N' => Some(NoopKind)
       case 'R' => Some(ResetOptionsKind)
       case 'S' => Some(ScreenSaverKind)
       case _ => Some(GrabClipboardKind))
    case 'D' =>
      (match t.b
       case 'M' =>
         (match t.c
          case 'M' => Some(MouseMoveKind)
          case 'R' => Some(MouseRelMoveKind)
          case 'D' => Some(MouseDownKind)
          case 'U' => Some(MouseUpKind)
          case _ => Some(MouseWheelKind))
       case 'K' =>
         (match t.c
          case 'D' => if t.d == 'N' then Some(KeyDownKind) else Some(KeyDownLangKind)
          case 'U' => Some(KeyUpKind)
          case _ => Some(KeyRepeatKind))
       case 'S' => Some(SetOptionsKind)
       case 'C' => Some(ClipboardKind)
       case 'F' => Some(FileTransferKind)
       case _ => Some(DragInfoKind))
    case 'E' =>
      (match t.c
       case 'C' => Some(IncompatibleKind)
       case 'S' => Some(BusyKind)
       case 'N' => Some(UnknownClientKind)
       case _ => Some(BadProtocolKind))
    case 'Q' => Some(QueryInfoKind)
    case 'L' => Some(LanguageSyncKind)
    case _ => Some(SecureInputKind)
  }

  lemma KindByLetters(k: Kind)
    ensures ByLetters(Key(k)) == Some(k)
  {
    match k {
      case _ =>
    }
  }

  // ---------- arguments item by item ----------

  ghost predicate Pairwise(items: seq<Item>, vals: seq<Value>) {
    && |items| == |vals|
    && forall i :: 0 <= i < |items| ==> TakesArgument(items[i]) && Accepts(items[i], vals[i])
  }

  lemma {:induction false} PairwiseMatches(items: seq<Item>, vals: seq<Value>)
    requires Pairwise(items, vals)
    ensures Matches(items, vals) && Percents(items) == 0
    ensures Safe(items, vals) <==> forall i :: 0 <= i < |items| ==> Readable(items[i], vals[i])
    ensures |ReduceAll(items, vals)| == |vals|
    ensures forall i :: 0 <= i < |items| ==> ReduceAll(items, vals)[i] == Reduce(items[i], vals[i])
  {
    hide Accepts, Readable, Reduce;
    if items != [] {
      PairwiseMatches(items[1..], vals[1..]);
      assert items == [items[0]] + items[1..] && vals == [vals[0]] + vals[1..];
    }
  }

  lemma ItemsTakeArguments(k: Kind)
    ensures forall i :: 0 <= i < |Items(k)| ==> TakesArgument(Items(k)[i])
  {
  }

  lemma SignedReadsBack(x: int16)
    ensures 0 <= Truncate(x, 2) < 0x1_0000 && Signed16(Truncate(x, 2)) == x
  {
    Pow256Values();
  }

  lemma UnsignedReadsBack(x: nat)
    ensures x < 0x100 ==> Truncate(x, 1) == x
    ensures x < 0x1_0000_0000 ==> Truncate(x, 4) == x
  {
    Pow256Values();
    if x < 0x100 {
      TruncateFits(x, 1);
    }
    if x < 0x1_0000_0000 {
      TruncateFits(x, 4);
    }
  }

  // ---------- parsing a frame ----------

  datatype Parsed = Parsed(m: Msg, rest: Bytes)

  /** Selects the message by its key and reads its arguments. */
  function ParseMessage(key: Tag, b: Bytes): Option<Parsed> {
    match Dispatch(key)
    case None => None
    case Some(k) =>
      match Decode(Items(k), b)
      case None => None
      case Some(d) =>
        DecodedShape(k, b);
        Some(Parsed(Build(k, d.vals), d.rest))
  }

  lemma DecodedItemInRange(it: Item, b: Bytes)
    requires TakesArgument(it) && DecodeItem(it, b).Some?
    ensures InRange(it, DecodeItem(it, b).value.0)
  {
    hide DecodeNums, Number;
    if it.Int? {
      BigEndianOfNumber(b[..it.width]);
      Pow256Values();
    }
  }

  lemma {:induction false} DecodedInRange(items: seq<Item>, b: Bytes)
    requires (forall i :: 0 <= i < |items| ==> TakesArgument(items[i])) && Decode(items, b).Some?
    ensures Shape(items, Decode(items, b).value.vals)
    decreases |items|
  {
    hide InRange, DecodeItem;
    if items != [] {
      DecodedItemInRange(items[0], b);
      DecodedInRange(items[1..], DecodeItem(items[0], b).value.1);
    }
  }

  lemma DecodedShape(k: Kind, b: Bytes)
    requires Decode(Items(k), b).Some?
    ensures Shape(Items(k), Decode(Items(k), b).value.vals)
  {
    hide Items, Decode;
    ItemsTakeArguments(k);
    DecodedInRange(Items(k), b);
  }

  /** The arguments are within the reader's limits. */
  ghost predicate WithinLimits(m: Msg) {
    ArgsMatch(m);
    Safe(Items(KindOf(m)), Args(m))
  }

  /** The octets of a message: its key, then its encoded arguments. */
  function Payload(m: Msg): Bytes {
    Key(KindOf(m)).Octets() + EncodedArgs(m)
  }

  function EncodedArgs(m: Msg): Bytes {
    ArgsMatch(m);
    Encode(Items(KindOf(m)), Args(m))
  }

  lemma ArgsMatch(m: Msg)
    ensures Matches(Items(KindOf(m)), Args(m)) && Percents(Items(KindOf(m))) == 0
  {
    hide Items, Args;
    ArgsPairwise(m);
    PairwiseMatches(Items(KindOf(m)), Args(m));
  }

  /** The argument of a C++ call that the item was made for. */
  ghost predicate Native(it: Item, a: Value) {
    match it
    case Int(w) =>
      && a.Num?
      && ((w == 1 && 0 <= a.n < 0x100) || (w == 2 && -0x8000 <= a.n < 0x8000) || (w == 4 && 0 <= a.n < 0x1_0000_0000))
    case Ints(w) => w == 4 && a.Nums?
    case Text => a.Str?
    case _ => false
  }

  /** `v`, as read, stored in the destination, is the argument `a`. */
  ghost predicate Denotes(it: Item, a: Value, v: Value) {
    InRange(it, v) && if it == Int(2) then Num(Signed16(v.n)) == a else v == a
  }

  lemma {:induction false} WordsSurvive(ns: seq<uint32>)
    ensures ReduceNums(ns, 4) == ns
  {
    hide Truncate, Pow256;
    if ns != [] {
      UnsignedReadsBack(ns[0]);
      WordsSurvive(ns[1..]);
      assert ns == [ns[0]] + ns[1..];
    }
  }

  lemma NativeReadsBack(it: Item, a: Value)
    requires Native(it, a)
    ensures TakesArgument(it) && Accepts(it, a) && Denotes(it, a, Reduce(it, a))
  {
    hide Truncate, Pow256, ReduceNums;
    match it
    case Int(w) =>
      if w == 2 {
        SignedReadsBack(a.n);
      } else {
        UnsignedReadsBack(a.n);
      }
    case Ints(w) => WordsSurvive(a.ns);
    case _ =>
  }

  lemma ArgsNative(m: Msg)
    ensures |Items(KindOf(m))| == |Args(m)|
    ensures forall i :: 0 <= i < |Args(m)| ==> Native(Items(KindOf(m))[i], Args(m)[i])
  {
  }

  lemma ArgsPairwise(m: Msg)
    ensures Pairwise(Items(KindOf(m)), Args(m))
  {
    hide Items, Args, Native;
    ArgsNative(m);
    forall i | 0 <= i < |Args(m)|
      ensures TakesArgument(Items(KindOf(m))[i]) && Accepts(Items(KindOf(m))[i], Args(m)[i])
    {
      NativeReadsBack(Items(KindOf(m))[i], Args(m)[i]);
    }
  }

  ghost predicate AllDenote(items: seq<Item>, args: seq<Value>, v: seq<Value>) {
    && |v| == |items| == |args|
    && forall i :: 0 <= i < |items| ==> Denotes(items[i], args[i], v[i])
  }

  lemma DenoteEach(items: seq<Item>, args: seq<Value>, v: seq<Value>)
    requires AllDenote(items, args, v)
    ensures |v| == |items| == |args| && Shape(items, v)
    ensures |v| > 0 ==> Denotes(items[0], args[0], v[0])
    ensures |v| > 1 ==> Denotes(items[1], args[1], v[1])
    ensures |v| > 2 ==> Denotes(items[2], args[2], v[2])
    ensures |v| > 3 ==> Denotes(items[3], args[3], v[3])
    ensures |v| > 4 ==> Denotes(items[4], args[4], v[4])
  {
  }

  predicate IsKeyEvent(m: Msg) {
    m.KeyDown? || m.KeyUp? || m.KeyRepeat? || m.KeyDownLang?
  }

  lemma DenotedKeyEvent(m: Msg, v: seq<Value>)
    requires IsKeyEvent(m) && AllDenote(Items(KindOf(m)), Args(m), v)
    ensures Shape(Items(KindOf(m)), v) && Build(KindOf(m), v) == m
  {
    hide AllDenote, Shape;
    DenoteEach(Items(KindOf(m)), Args(m), v);
  }

  lemma DenotedBuild(m: Msg, v: seq<Value>)
    requires AllDenote(Items(KindOf(m)), Args(m), v)
    ensures Shape(Items(KindOf(m)), v) && Build(KindOf(m), v) == m
  {
    hide AllDenote, Shape;
    DenoteEach(Items(KindOf(m)), Args(m), v);
    if IsKeyEvent(m) {
      DenotedKeyEvent(m, v);
    }
  }

  lemma ReducedDenotes(m: Msg)
    ensures Matches(Items(KindOf(m)), Args(m))
    ensures AllDenote(Items(KindOf(m)), Args(m), ReduceAll(Items(KindOf(m)), Args(m)))
  {
    hide Items, Args, Native, Denotes;
    ArgsPairwise(m);
    PairwiseMatches(Items(KindOf(m)), Args(m));
    ArgsNative(m);
    forall i | 0 <= i < |Args(m)|
      ensures Denotes(Items(KindOf(m))[i], Args(m)[i], Reduce(Items(KindOf(m))[i], Args(m)[i]))
    {
      NativeReadsBack(Items(KindOf(m))[i], Args(m)[i]);
    }
  }

  // ---------- the message codec ----------

  /** A message within the reader's limits is read back from its encoding, and nothing more is read. */
  lemma MessageReadsBack(m: Msg, rest: Bytes)
    requires WithinLimits(m)
    ensures ParseMessage(Key(KindOf(m)), EncodedArgs(m) + rest) == Some(Parsed(m, rest))
  {
    hide Items, Args, Dispatch, Key, Build, Shape, Safe, Decode, Encode, ReduceAll;
    var k := KindOf(m);
    KeysDispatch(k);
    ArgsMatch(m);
    RoundTrip(Items(k), Args(m), rest);
    ReducedDenotes(m);
    DenotedBuild(m, ReduceAll(Items(k), Args(m)));
  }

  /** The message built is of the kind asked for. */
  lemma BuiltKind(k: Kind, v: seq<Value>)
    requires Shape(Items(k), v)
    ensures KindOf(Build(k, v)) == k
  {
    hide Shape, Items;
    if Items(k) == [] {
      BuiltBareKind(k, v);
    }
  }

  lemma BuiltBareKind(k: Kind, v: seq<Value>)
    requires Shape(Items(k), v) && Items(k) == []
    ensures KindOf(Build(k, v)) == k
  {
    hide Shape;
  }

  /** What reading an item gives, stored in its destination, denotes the value stored. */
  lemma StoredDenotes(it: Item, v: Value)
    requires InRange(it, v)
    ensures it == Int(2) ==> Denotes(it, Num(Signed16(v.n)), v)
    ensures it != Int(2) ==> Denotes(it, v, v)
  {
  }

  function Stored(it: Item, v: Value): Value
    requires InRange(it, v)
  {
    if it == Int(2) then Num(Signed16(v.n)) else v
  }

  lemma ShapeEach(items: seq<Item>, v: seq<Value>)
    requires Shape(items, v)
    ensures |v| == |items|
    ensures |v| > 0 ==> InRange(items[0], v[0])
    ensures |v| > 1 ==> InRange(items[1], v[1])
    ensures |v| > 2 ==> InRange(items[2], v[2])
    ensures |v| > 3 ==> InRange(items[3], v[3])
    ensures |v| > 4 ==> InRange(items[4], v[4])
  {
  }

  lemma BuiltKeyEventArgs(k: Kind, v: seq<Value>)
    requires Shape(Items(k), v) && IsKeyEvent(Build(k, v))
    ensures var args := Args(Build(k, v));
      |args| == |v| && forall i :: 0 <= i < |v| ==> args[i] == Stored(Items(k)[i], v[i])
  {
    ShapeEach(Items(k), v);
  }

  lemma BuiltArgs(k: Kind, v: seq<Value>)
    requires Shape(Items(k), v)
    ensures var args := Args(Build(k, v));
      |args| == |v| && forall i :: 0 <= i < |v| ==> args[i] == Stored(Items(k)[i], v[i])
  {
    ShapeEach(Items(k), v);
    if IsKeyEvent(Build(k, v)) {
      BuiltKeyEventArgs(k, v);
    }
  }

  lemma BuiltDenotes(k: Kind, v: seq<Value>)
    requires Shape(Items(k), v)
    ensures KindOf(Build(k, v)) == k
    ensures AllDenote(Items(k), Args(Build(k, v)), v)
  {
    hide Items, Args, Build, Denotes, InRange;
    BuiltKind(k, v);
    BuiltArgs(k, v);
    forall i | 0 <= i < |v|
      ensures Denotes(Items(k)[i], Args(Build(k, v))[i], v[i])
    {
      StoredDenotes(Items(k)[i], v[i]);
    }
  }

  /** Whatever parses was the encoding of a message within the limits, followed by what is left. */
  lemma ParsedReencodes(key: Tag, b: Bytes)
    requires ParseMessage(key, b).Some?
    ensures var p := ParseMessage(key, b).value;
      key == Key(KindOf(p.m)) && WithinLimits(p.m) && b == EncodedArgs(p.m) + p.rest
  {
    hide Items, Args, Dispatch, Key, Build, Shape, Safe, Decode, Encode, ReduceAll, AllDenote;
    var k := Dispatch(key).value;
    var d := Decode(Items(k), b).value;
    var m := ParseMessage(key, b).value.m;
    DispatchIsSound(key);
    DecodedShape(k, b);
    BuiltDenotes(k, d.vals);
    ArgsMatch(m);
    Reencode(Items(k), b);
    SameDenotation(m, d.vals);
    ReduceAllKeepsSize(Items(k), Args(m));
    EncodeOfReduced(Items(k), Args(m));
  }

  lemma DenotationIsUnique(it: Item, a: Value, u: Value, v: Value)
    requires Denotes(it, a, u) && Denotes(it, a, v)
    ensures u == v
  {
  }

  lemma SameDenotation(m: Msg, v: seq<Value>)
    requires AllDenote(Items(KindOf(m)), Args(m), v)
    ensures Matches(Items(KindOf(m)), Args(m)) && ReduceAll(Items(KindOf(m)), Args(m)) == v
  {
    hide Items, Args, Denotes;
    ReducedDenotes(m);
    var u := ReduceAll(Items(KindOf(m)), Args(m));
    forall i | 0 <= i < |u|
      ensures u[i] == v[i]
    {
      DenotationIsUnique(Items(KindOf(m))[i], Args(m)[i], u[i], v[i]);
    }
  }

  /** The whole format constant writes the key's letters and then the arguments. */
  lemma FormatWritesPayload(m: Msg)
    ensures var k := KindOf(m); var items := Letters(Key(k).Text()) + Items(k);
      && ParsesTo(Key(k).Text() + ArgFormat(k), items)
      && Matches(items, Args(m)) && Encode(items, Args(m)) == Payload(m)
  {
    hide Items, Args, ArgFormat, ParsesTo;
    var k := KindOf(m);
    KeyHasNoPercent(k);
    ArgFormatsParse(k);
    ArgsMatch(m);
    LettersParse(Key(k).Text(), ArgFormat(k), Items(k));
    LettersEncode(Key(k).Text(), Items(k), Args(m));
    TextOctets(Key(k));
  }

  lemma KeyHasNoPercent(k: Kind)
    ensures forall i :: 0 <= i < 4 ==> Key(k).Text()[i] != '%'
  {
  }

  function TextBytes(s: string): Bytes {
    if s == "" then [] else [Ascii(s[0])] + TextBytes(s[1..])
  }

  lemma TextOctets(t: Tag)
    ensures TextBytes(t.Text()) == t.Octets()
  {
    var s := t.Text();
    assert s[1..] == [t.b, t.c, t.d] && s[1..][1..] == [t.c, t.d] && s[1..][1..][1..] == [t.d];
    assert [t.d][1..] == "";
    assert TextBytes([t.d]) == [Ascii(t.d)];
    assert TextBytes([t.c, t.d]) == [Ascii(t.c)] + TextBytes([t.d]);
    assert TextBytes([t.b, t.c, t.d]) == [Ascii(t.b)] + TextBytes([t.c, t.d]);
  }

  lemma LiteralEncoded(b: byte, items: seq<Item>, vals: seq<Value>)
    requires Matches(items, vals)
    ensures Matches([Literal(b)] + items, vals)
    ensures Encode([Literal(b)] + items, vals) == [b] + Encode(items, vals)
  {
    hide EncodeItem, Accepts;
    assert ([Literal(b)] + items)[1..] == items;
  }

  lemma {:induction false} LettersEncode(text: string, items: seq<Item>, vals: seq<Value>)
    requires Matches(items, vals)
    ensures Matches(Letters(text) + items, vals)
    ensures Encode(Letters(text) + items, vals) == TextBytes(text) + Encode(items, vals)
  {
    hide Encode, Matches, Ascii;
    if text == "" {
      assert Letters(text) + items == items;
      assert TextBytes(text) + Encode(items, vals) == Encode(items, vals);
    } else {
      var more := Letters(text[1..]) + items;
      LettersEncode(text[1..], items, vals);
      LiteralEncoded(Ascii(text[0]), more, vals);
      assert Letters(text) + items == [Literal(Ascii(text[0]))] + more;
      assert [Ascii(text[0])] + (TextBytes(text[1..]) + Encode(items, vals))
          == TextBytes(text) + Encode(items, vals);
    }
  }

  /** Two different messages within the limits never have the same octets. */
  lemma PayloadsAreDistinct(m: Msg, n: Msg)
    requires WithinLimits(m) && WithinLimits(n)
    ensures Payload(m) == Payload(n) <==> m == n
  {
    hide Items, Args, Encode, Safe, Key, ParseMessage;
    if Payload(m) == Payload(n) {
      assert Payload(m)[..4] == Key(KindOf(m)).Octets() && Payload(n)[..4] == Key(KindOf(n)).Octets();
      TagReadsBack(KindOf(m));
      TagReadsBack(KindOf(n));
      assert Payload(m)[4..] == EncodedArgs(m) && Payload(n)[4..] == EncodedArgs(n);
      MessageReadsBack(m, []);
      MessageReadsBack(n, []);
    }
  }

  /** The DCLP format, spelled out, writes a clipboard message. */
  lemma ClipboardFormatWrites(seqNum: uint32, mark: uint8, data: Bytes)
    ensures var fmt, args := "DCLP%1i%4i%1i%s", [Num(0), Num(seqNum), Num(mark), Str(data)];
      && WellFormed(fmt) && Matches(Parse(fmt), args)
      && Encode(Parse(fmt), args) == Payload(Clipboard(0, seqNum, mark, data))
  {
    hide Encode, Parse, WellFormed, ParsesTo, Matches, Payload, Letters;
    FormatWritesPayload(Clipboard(0, seqNum, mark, data));
    assert Key(ClipboardKind).Text() + ArgFormat(ClipboardKind) == "DCLP%1i%4i%1i%s";
    ParsesMeans("DCLP%1i%4i%1i%s", Letters(Key(ClipboardKind).Text()) + Items(ClipboardKind));
  }

  /** The CCLP format, spelled out, writes a clipboard claim. */
  lemma GrabFormatWrites(seqNum: uint32)
    ensures var fmt, args := "CCLP%1i%4i", [Num(0), Num(seqNum)];
      && WellFormed(fmt) && Matches(Parse(fmt), args)
      && Encode(Parse(fmt), args) == Payload(GrabClipboard(0, seqNum))
  {
    hide Encode, Parse, WellFormed, ParsesTo, Matches, Payload, Letters;
    FormatWritesPayload(GrabClipboard(0, seqNum));
    assert Key(GrabClipboardKind).Text() + ArgFormat(GrabClipboardKind) == "CCLP%1i%4i";
    ParsesMeans("CCLP%1i%4i", Letters(Key(GrabClipboardKind).Text()) + Items(GrabClipboardKind));
  }
}
