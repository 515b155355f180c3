// What every message is on the wire, octet by octet.
module WireLayout {
  import opened ByteOrder
  import opened Formats
  import opened Messages
  import opened Clipboards
  import opened ClientModel
  import opened Connections
  import opened Conversation

  // ---------- the layouts ----------

  function Letters4(a: char, b: char, c: char, d: char): Bytes {
    [a as int % 0x100, b as int % 0x100, c as int % 0x100, d as int % 0x100]
  }

  /** A string: its length in four octets, then itself. */
  function Counted(s: Bytes): Bytes {
    BigEndian(|s|, 4) + s
  }

  /** Numbers of four octets, one after the other. */
  function Words(ns: seq<uint32>): Bytes {
    if ns == [] then [] else BigEndian(ns[0], 4) + Words(ns[1..])
  }

  function Layout(m: Msg): Bytes {
    match m
    case QueryInfo => Letters4('Q', 'I', 'N', 'F')
    case KeepAlive => Letters4('C', 'A', 'L', 'V')
    case Enter(x, y, seqNum, mask) =>
      Letters4('C', 'I', 'N', 'N')
      + (BigEndian(x, 2) + (BigEndian(y, 2) + (BigEndian(seqNum, 4) + BigEndian(mask, 2))))
    case Leave => Letters4('C', 'O', 'U', 'T')
    case Close => Letters4('C', 'B', 'Y', 'E')
    case MouseMove(x, y) => Letters4('D', 'M', 'M', 'V') + (BigEndian(x, 2) + BigEndian(y, 2))
    case MouseRelMove(dx, dy) => Letters4('D', 'M', 'R', 'M') + (BigEndian(dx, 2) + BigEndian(dy, 2))
    case MouseDown(button) => Letters4('D', 'M', 'D', 'N') + BigEndian(button, 1)
    case MouseUp(button) => Letters4('D', 'M', 'U', 'P') + BigEndian(button, 1)
    case MouseWheel(dx, dy) => Letters4('D', 'M', 'W', 'M') + (BigEndian(dx, 2) + BigEndian(dy, 2))
    case KeyDown(id, mask, key) =>
      Letters4('D', 'K', 'D', 'N') + (BigEndian(id, 2) + (BigEndian(mask, 2) + BigEndian(key, 2)))
    case KeyUp(id, mask, key) =>
      Letters4('D', 'K', 'U', 'P') + (BigEndian(id, 2) + (BigEndian(mask, 2) + BigEndian(key, 2)))
    case KeyRepeat(id, mask, count, key, lang) =>
      Letters4('D', 'K', 'R', 'P')
      + (BigEndian(id, 2) + (BigEndian(mask, 2) + (BigEndian(count, 2) + (BigEndian(key, 2) + Counted(lang)))))
    case KeyDownLang(id, mask, key, lang) =>
      Letters4('D', 'K', 'D', 'L') + (BigEndian(id, 2) + (BigEndian(mask, 2) + (BigEndian(key, 2) + Counted(lang))))
    case Noop => Letters4('C', 'N', 'O', 'P')
    case ResetOptions => Letters4('C', 'R', 'O', 'P')
    case InfoAck => Letters4('C', 'I', 'A', 'K')
    case ScreenSaver(on) => Letters4('C', 'S', 'E', 'C') + BigEndian(on, 1)
    case GrabClipboard(clip, seqNum) => Letters4('C', 'C', 'L', 'P') + (BigEndian(clip, 1) + BigEndian(seqNum, 4))
    case SetOptions(options) => Letters4('D', 'S', 'O', 'P') + (BigEndian(|options|, 4) + Words(options))
    case Clipboard(clip, seqNum, mark, data) =>
      Letters4('D', 'C', 'L', 'P')
      + (BigEndian(clip, 1) + (BigEndian(seqNum, 4) + (BigEndian(mark, 1) + Counted(data))))
    case FileTransfer(mark, data) => Letters4('D', 'F', 'T', 'R') + (BigEndian(mark, 1) + Counted(data))
    case DragInfo(files, info) => Letters4('D', 'D', 'R', 'G') + (BigEndian(files, 2) + Counted(info))
    case LanguageSync(data) => Letters4('L', 'S', 'Y', 'N') + Counted(data)
    case SecureInput(data) => Letters4('S', 'E', 'C', 'N') + Counted(data)
    case Incompatible(major, minor) => Letters4('E', 'I', 'C', 'V') + (BigEndian(major, 2) + BigEndian(minor, 2))
    case Busy => Letters4('E', 'B', 'S', 'Y')
    case UnknownClient => Letters4('E', 'U', 'N', 'K')
    case BadProtocol => Letters4('E', 'B', 'A', 'D')
  }

  // ---------- item by item ----------

  /** The encodings of the items one after the other. */
  function Row(items: seq<Item>, vals: seq<Value>): Bytes
    requires Pairwise(items, vals)
    decreases |items|
  {
    if items == [] then []
    else if |items| == 1 then EncodeItem(items[0], vals[0])
    else EncodeItem(items[0], vals[0]) + Row(items[1..], vals[1..])
  }

  lemma {:induction false} EncodeIsRow(items: seq<Item>, vals: seq<Value>)
    requires Pairwise(items, vals)
    ensures Matches(items, vals) && Encode(items, vals) == Row(items, vals)
    decreases |items|
  {
    hide EncodeItem, Accepts;
    if items != [] {
      EncodeIsRow(items[1..], vals[1..]);
      if |items| == 1 {
        assert EncodeItem(items[0], vals[0]) + [] == EncodeItem(items[0], vals[0]);
      }
    }
  }

  lemma RowFront(it: Item, v: Value, items: seq<Item>, vals: seq<Value>)
    requires TakesArgument(it) && Accepts(it, v) && Pairwise(items, vals) && items != []
    ensures Pairwise([it] + items, [v] + vals)
    ensures Row([it] + items, [v] + vals) == EncodeItem(it, v) + Row(items, vals)
  {
    assert ([it] + items)[1..] == items && ([v] + vals)[1..] == vals;
  }

  lemma OneItem(it: Item, v: Value)
    requires TakesArgument(it) && Accepts(it, v)
    ensures Pairwise([it], [v]) && Row([it], [v]) == EncodeItem(it, v)
  {
  }

  lemma RowOf2(i: Item, j: Item, a: Value, b: Value)
    requires Pairwise([i, j], [a, b])
    ensures TakesArgument(i) && Accepts(i, a) && TakesArgument(j) && Accepts(j, b)
    ensures Row([i, j], [a, b]) == EncodeItem(i, a) + EncodeItem(j, b)
  {
    hide EncodeItem, Accepts, Row;
    assert [i, j][0] == i && [a, b][0] == a && [i, j][1] == j && [a, b][1] == b;
    OneItem(j, b);
    RowFront(i, a, [j], [b]);
    assert [i] + [j] == [i, j] && [a] + [b] == [a, b];
  }

  lemma RowOf3(i: Item, j: Item, k: Item, a: Value, b: Value, c: Value)
    requires Pairwise([i, j, k], [a, b, c])
    ensures TakesArgument(i) && Accepts(i, a) && Pairwise([j, k], [b, c])
    ensures Row([i, j, k], [a, b, c]) == EncodeItem(i, a) + Row([j, k], [b, c])
  {
    hide EncodeItem, Accepts, Row;
    assert [i, j, k][0] == i && [a, b, c][0] == a;
    Tail([i, j, k], [a, b, c]);
    assert [i, j, k][1..] == [j, k] && [a, b, c][1..] == [b, c];
    RowFront(i, a, [j, k], [b, c]);
    assert [i] + [j, k] == [i, j, k] && [a] + [b, c] == [a, b, c];
  }

  lemma RowOf4(i: Item, j: Item, k: Item, l: Item, a: Value, b: Value, c: Value, d: Value)
    requires Pairwise([i, j, k, l], [a, b, c, d])
    ensures TakesArgument(i) && Accepts(i, a) && Pairwise([j, k, l], [b, c, d])
    ensures Row([i, j, k, l], [a, b, c, d]) == EncodeItem(i, a) + Row([j, k, l], [b, c, d])
  {
    hide EncodeItem, Accepts, Row;
    assert [i, j, k, l][0] == i && [a, b, c, d][0] == a;
    Tail([i, j, k, l], [a, b, c, d]);
    assert [i, j, k, l][1..] == [j, k, l] && [a, b, c, d][1..] == [b, c, d];
    RowFront(i, a, [j, k, l], [b, c, d]);
    assert [i] + [j, k, l] == [i, j, k, l] && [a] + [b, c, d] == [a, b, c, d];
  }

  lemma RowOf5(i: Item, j: Item, k: Item, l: Item, m: Item, a: Value, b: Value, c: Value, d: Value, e: Value)
    requires Pairwise([i, j, k, l, m], [a, b, c, d, e])
    ensures TakesArgument(i) && Accepts(i, a) && Pairwise([j, k, l, m], [b, c, d, e])
    ensures Row([i, j, k, l, m], [a, b, c, d, e]) == EncodeItem(i, a) + Row([j, k, l, m], [b, c, d, e])
  {
    hide EncodeItem, Accepts, Row;
    assert [i, j, k, l, m][0] == i && [a, b, c, d, e][0] == a;
    Tail([i, j, k, l, m], [a, b, c, d, e]);
    assert [i, j, k, l, m][1..] == [j, k, l, m] && [a, b, c, d, e][1..] == [b, c, d, e];
    RowFront(i, a, [j, k, l, m], [b, c, d, e]);
    assert [i] + [j, k, l, m] == [i, j, k, l, m] && [a] + [b, c, d, e] == [a, b, c, d, e];
  }

  lemma Tail(items: seq<Item>, vals: seq<Value>)
    requires Pairwise(items, vals) && items != []
    ensures Pairwise(items[1..], vals[1..])
  {
    hide Accepts;
  }

  lemma {:induction false} WordsAreEncoded(ns: seq<uint32>)
    ensures EncodeNums(ns, 4) == Words(ns)
  {
    if ns != [] {
      WordsAreEncoded(ns[1..]);
    }
  }

  // ---------- every message ----------

  lemma ArgsRow(m: Msg)
    ensures Pairwise(Items(KindOf(m)), Args(m))
    ensures Payload(m) == Key(KindOf(m)).Octets() + Row(Items(KindOf(m)), Args(m))
  {
    hide Items, Args, Key, Row, Encode;
    ArgsPairwise(m);
    EncodeIsRow(Items(KindOf(m)), Args(m));
  }

  lemma KeyMessageIsLaidOut(m: Msg)
    requires IsKeyEvent(m)
    ensures Payload(m) == Layout(m)
  {
    hide BigEndian, Row, Payload;
    ArgsRow(m);
    var I := Int(2);
    match m
    case KeyDown(id, mask, key) =>
      RowOf3(I, I, I, Num(id), Num(mask), Num(key));
      RowOf2(I, I, Num(mask), Num(key));
    case KeyUp(id, mask, key) =>
      RowOf3(I, I, I, Num(id), Num(mask), Num(key));
      RowOf2(I, I, Num(mask), Num(key));
    case KeyRepeat(id, mask, count, key, lang) =>
      RowOf5(I, I, I, I, Text, Num(id), Num(mask), Num(count), Num(key), Str(lang));
      RowOf4(I, I, I, Text, Num(mask), Num(count), Num(key), Str(lang));
      RowOf3(I, I, Text, Num(count), Num(key), Str(lang));
      RowOf2(I, Text, Num(key), Str(lang));
    case KeyDownLang(id, mask, key, lang) =>
      RowOf4(I, I, I, Text, Num(id), Num(mask), Num(key), Str(lang));
      RowOf3(I, I, Text, Num(mask), Num(key), Str(lang));
      RowOf2(I, Text, Num(key), Str(lang));
  }

  predicate HasTwoNumbers(m: Msg) {
    m.MouseMove? || m.MouseRelMove? || m.MouseWheel? || m.GrabClipboard? || m.Incompatible?
  }

  lemma TwoNumbersAreLaidOut(m: Msg)
    requires HasTwoNumbers(m)
    ensures Payload(m) == Layout(m)
  {
    hide BigEndian, Row, Payload;
    ArgsRow(m);
    match m
    case MouseMove(x, y) => RowOf2(Int(2), Int(2), Num(x), Num(y));
    case MouseRelMove(dx, dy) => RowOf2(Int(2), Int(2), Num(dx), Num(dy));
    case MouseWheel(dx, dy) => RowOf2(Int(2), Int(2), Num(dx), Num(dy));
    case GrabClipboard(clip, seqNum) => RowOf2(Int(1), Int(4), Num(clip), Num(seqNum));
    case Incompatible(major, minor) => RowOf2(Int(2), Int(2), Num(major), Num(minor));
  }

  predicate HasOneField(m: Msg) {
    m.MouseDown? || m.MouseUp? || m.ScreenSaver?
  }

  lemma ListIsLaidOut(m: Msg)
    requires m.SetOptions? || m.LanguageSync? || m.SecureInput?
    ensures Payload(m) == Layout(m)
  {
    hide BigEndian, Row, Payload;
    ArgsRow(m);
    match m
    case SetOptions(options) =>
      OneItem(Ints(4), Nums(options));
      WordsAreEncoded(options);
    case LanguageSync(data) => OneItem(Text, Str(data));
    case SecureInput(data) => OneItem(Text, Str(data));
  }

  lemma OneFieldIsLaidOut(m: Msg)
    requires HasOneField(m)
    ensures Payload(m) == Layout(m)
  {
    hide BigEndian, Row, Payload;
    ArgsRow(m);
    match m
    case MouseDown(button) => OneItem(Int(1), Num(button));
    case MouseUp(button) => OneItem(Int(1), Num(button));
    case ScreenSaver(on) => OneItem(Int(1), Num(on));
  }

  lemma EnterIsLaidOut(m: Msg)
    requires m.Enter?
    ensures Payload(m) == Layout(m)
  {
    hide BigEndian, Row, Payload;
    ArgsRow(m);
    RowOf4(Int(2), Int(2), Int(4), Int(2), Num(m.x), Num(m.y), Num(m.seqNum), Num(m.mask));
    RowOf3(Int(2), Int(4), Int(2), Num(m.y), Num(m.seqNum), Num(m.mask));
    RowOf2(Int(4), Int(2), Num(m.seqNum), Num(m.mask));
  }

  lemma ClipboardIsLaidOut(m: Msg)
    requires m.Clipboard?
    ensures Payload(m) == Layout(m)
  {
    hide BigEndian, Row, Payload;
    ArgsRow(m);
    RowOf4(Int(1), Int(4), Int(1), Text, Num(m.clip), Num(m.seqNum), Num(m.mark), Str(m.data));
    RowOf3(Int(4), Int(1), Text, Num(m.seqNum), Num(m.mark), Str(m.data));
    RowOf2(Int(1), Text, Num(m.mark), Str(m.data));
  }

  lemma MarkedDataIsLaidOut(m: Msg)
    requires m.FileTransfer? || m.DragInfo?
    ensures Payload(m) == Layout(m)
  {
    hide BigEndian, Row, Payload;
    ArgsRow(m);
    match m
    case FileTransfer(mark, data) => RowOf2(Int(1), Text, Num(mark), Str(data));
    case DragInfo(files, info) => RowOf2(Int(2), Text, Num(files), Str(info));
  }

  predicate IsSignal(m: Msg) {
    m.QueryInfo? || m.KeepAlive? || m.Noop? || m.ResetOptions? || m.InfoAck?
  }

  predicate IsEnding(m: Msg) {
    m.Leave? || m.Close? || m.Busy? || m.UnknownClient? || m.BadProtocol?
  }

  lemma BareHasNoArgs(m: Msg)
    requires Items(KindOf(m)) == []
    ensures Payload(m) == Key(KindOf(m)).Octets()
  {
    hide Items, Args, Key, Payload;
    ArgsRow(m);
    assert Row([], []) == [] && Key(KindOf(m)).Octets() + [] == Key(KindOf(m)).Octets();
  }

  lemma SignalIsLaidOut(m: Msg)
    requires IsSignal(m)
    ensures Payload(m) == Layout(m)
  {
    hide Payload;
    BareHasNoArgs(m);
  }

  lemma EndingIsLaidOut(m: Msg)
    requires IsEnding(m)
    ensures Payload(m) == Layout(m)
  {
    hide Payload;
    BareHasNoArgs(m);
  }

  /** Every message is on the wire as its layout says: four letters, then its fields in this order and with
      these widths, high octet first. */
  lemma MessageIsLaidOut(m: Msg)
    ensures Payload(m) == Layout(m)
  {
    hide Payload, Layout;
    if IsKeyEvent(m) {
      KeyMessageIsLaidOut(m);
    } else if HasTwoNumbers(m) {
      TwoNumbersAreLaidOut(m);
    } else if HasOneField(m) {
      OneFieldIsLaidOut(m);
    } else if m.SetOptions? || m.LanguageSync? || m.SecureInput? {
      ListIsLaidOut(m);
    } else if m.Enter? {
      EnterIsLaidOut(m);
    } else if m.Clipboard? {
      ClipboardIsLaidOut(m);
    } else if m.FileTransfer? || m.DragInfo? {
      MarkedDataIsLaidOut(m);
    } else if IsSignal(m) {
      SignalIsLaidOut(m);
    } else {
      EndingIsLaidOut(m);
    }
  }

  /** And such octets, with anything after them, are parsed as the message. */
  lemma LayoutIsParsed(m: Msg, rest: Bytes)
    requires WithinLimits(m)
    ensures |Layout(m)| >= 4
    ensures ParseMessage(TagOf(Layout(m)[..4]), Layout(m)[4..] + rest) == Some(Parsed(m, rest))
  {
    hide Layout, EncodedArgs, Key, ParseMessage, WithinLimits;
    MessageIsLaidOut(m);
    assert Layout(m)[..4] == Key(KindOf(m)).Octets() && Layout(m)[4..] == EncodedArgs(m);
    TagReadsBack(KindOf(m));
    MessageReadsBack(m, rest);
  }

  // ---------- what the client says by itself ----------

  lemma RepliesAreLetters()
    ensures NOOP_PAYLOAD == Letters4('C', 'N', 'O', 'P') == Layout(Noop)
    ensures KEEP_ALIVE_PAYLOAD == Letters4('C', 'A', 'L', 'V') == Layout(KeepAlive)
  {
  }

  /** The no-op and the echo are the messages CNOP and CALV, and are parsed as such. */
  lemma RepliesAreMessages(rest: Bytes)
    ensures NOOP_PAYLOAD == Payload(Noop) && KEEP_ALIVE_PAYLOAD == Payload(KeepAlive)
    ensures |NOOP_PAYLOAD| == 4 && ParseMessage(TagOf(NOOP_PAYLOAD), rest) == Some(Parsed(Noop, rest))
    ensures |KEEP_ALIVE_PAYLOAD| == 4 && ParseMessage(TagOf(KEEP_ALIVE_PAYLOAD), rest) == Some(Parsed(KeepAlive, rest))
  {
    hide Layout, Payload, ParseMessage, WithinLimits, Letters4;
    RepliesAreLetters();
    MessageIsLaidOut(Noop);
    MessageIsLaidOut(KeepAlive);
    BareAreWithinLimits();
    LayoutIsParsed(Noop, rest);
    LayoutIsParsed(KeepAlive, rest);
    FourOctets(NOOP_PAYLOAD, rest);
    FourOctets(KEEP_ALIVE_PAYLOAD, rest);
  }

  lemma BareAreWithinLimits()
    ensures WithinLimits(Noop) && WithinLimits(KeepAlive) && |NOOP_PAYLOAD| == 4 && |KEEP_ALIVE_PAYLOAD| == 4
  {
    assert Items(NoopKind) == [] && Items(KeepAliveKind) == [];
  }

  lemma FourOctets(b: Bytes, rest: Bytes)
    requires |b| == 4
    ensures b[..4] == b && b[4..] + rest == rest
  {
  }

  /** The hello of a server: seven octets of name, the version. */
  lemma HelloIsLaidOut(h: Hello)
    requires |h.name| == 7
    ensures HelloPayload(h) == h.name + (BigEndian(h.major, 2) + BigEndian(h.minor, 2))
  {
    hide BigEndian, Row, Encode;
    HelloArgsMatch(h);
    EncodeIsRow(HELLO_ITEMS, HelloArgs(h));
    RowOf3(Fixed(7), Int(2), Int(2), Str(h.name), Num(h.major), Num(h.minor));
    RowOf2(Int(2), Int(2), Num(h.major), Num(h.minor));
    assert h.name[..7] == h.name;
  }

  /** The hello back: the same name, version 1, the lower minor version, the screen name. */
  lemma HelloBackIsLaidOut(h: Hello, screenName: Bytes)
    requires |h.name| == 7
    ensures HelloBack(h, screenName)
      == h.name + (BigEndian(1, 2) + (BigEndian(if h.minor < 8 then h.minor else 8, 2) + Counted(screenName)))
  {
    hide BigEndian, Row, Encode;
    var minor := Lower(h.minor, MINOR);
    HelloBackArgsMatch(h, screenName);
    EncodeIsRow(HELLO_BACK_ITEMS, HelloBackArgs(h, screenName));
    RowOf4(Fixed(7), Int(2), Int(2), Text, Str(h.name), Num(MAJOR), Num(minor), Str(screenName));
    RowOf3(Int(2), Int(2), Text, Num(MAJOR), Num(minor), Str(screenName));
    RowOf2(Int(2), Text, Num(minor), Str(screenName));
    assert h.name[..7] == h.name;
  }

  // ---------- an upload ----------

  /** Every message of an upload carries clipboard 0 and the session number. */
  lemma UploadCarriesSession(seqNum: uint32, text: Bytes)
    ensures forall i :: 0 <= i < |Upload(seqNum, text)| ==>
      var m := Upload(seqNum, text)[i];
      m.Clipboard? && m.clip == 0 && m.seqNum == seqNum
  {
    hide TextContainer, Chunks, Decimal;
    DataCarriesSession(seqNum, Chunks(TextContainer(text)));
  }

  lemma {:induction false} DataCarriesSession(seqNum: uint32, parts: seq<Bytes>)
    ensures forall i :: 0 <= i < |DataMessages(seqNum, parts)| ==>
      var m := DataMessages(seqNum, parts)[i];
      m.Clipboard? && m.clip == 0 && m.seqNum == seqNum
  {
    if parts != [] {
      DataCarriesSession(seqNum, parts[1..]);
    }
  }
}
