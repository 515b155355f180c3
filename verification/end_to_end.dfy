// A text uploaded by one client arrives at the callback of another, or is refused whole.
module EndToEnd {
  import opened ByteOrder
  import opened Sockets
  import opened Framing
  import opened Formats
  import opened CodecLaws
  import opened Messages
  import opened Clipboards
  import opened ClientModel
  import opened MessageLoop
  import opened Connections
  import opened LoopRefinement
  import opened Conversation
  import opened Runs
  import opened Transfers

  // ---------- the upload can be sent ----------

  /** An integer in front adds its width and is always readable. */
  lemma IntInFront(w: nat, n: int, items: seq<Item>, vals: seq<Value>)
    requires Size(w) == w > 0 && Matches(items, vals)
    ensures Matches([Int(w)] + items, [Num(n)] + vals)
    ensures |Encode([Int(w)] + items, [Num(n)] + vals)| == w + |Encode(items, vals)|
    ensures Safe([Int(w)] + items, [Num(n)] + vals) <==> Safe(items, vals)
  {
    hide BigEndian;
    assert ([Int(w)] + items)[1..] == items && ([Num(n)] + vals)[1..] == vals;
  }

  lemma TextAlone(data: Bytes)
    ensures Matches([Text], [Str(data)])
    ensures |Encode([Text], [Str(data)])| == 4 + |data|
    ensures Safe([Text], [Str(data)]) <==> |data| <= MAX_TEXT
  {
    hide BigEndian;
    assert Matches([], []) && Encode([], []) == [];
  }

  lemma ClipboardPayloadSize(seqNum: uint32, mark: uint8, data: Bytes)
    ensures |Payload(Clipboard(0, seqNum, mark, data))| == 14 + |data|
    ensures WithinLimits(Clipboard(0, seqNum, mark, data)) <==> |data| <= MAX_TEXT
  {
    hide Encode, Safe, Matches;
    TextAlone(data);
    IntInFront(1, mark, [Text], [Str(data)]);
    assert [Int(1)] + [Text] == [Int(1), Text] && [Num(mark)] + [Str(data)] == [Num(mark), Str(data)];
    IntInFront(4, seqNum, [Int(1), Text], [Num(mark), Str(data)]);
    assert [Int(4)] + [Int(1), Text] == [Int(4), Int(1), Text];
    assert [Num(seqNum)] + [Num(mark), Str(data)] == [Num(seqNum), Num(mark), Str(data)];
    IntInFront(1, 0, [Int(4), Int(1), Text], [Num(seqNum), Num(mark), Str(data)]);
    assert [Int(1)] + [Int(4), Int(1), Text] == Items(ClipboardKind);
    assert [Num(0)] + [Num(seqNum), Num(mark), Str(data)] == Args(Clipboard(0, seqNum, mark, data));
  }

  lemma {:induction false} DataMessagesAre(seqNum: uint32, parts: seq<Bytes>)
    ensures |DataMessages(seqNum, parts)| == |parts|
    ensures forall i :: 0 <= i < |parts| ==> DataMessages(seqNum, parts)[i] == Clipboard(0, seqNum, 2, parts[i])
  {
    if parts != [] {
      DataMessagesAre(seqNum, parts[1..]);
    }
  }

  lemma ChunkIsSendable(seqNum: uint32, mark: uint8, data: Bytes)
    requires |data| <= MAX_TEXT
    ensures Sendable(Clipboard(0, seqNum, mark, data))
  {
    hide Payload, WithinLimits;
    ClipboardPayloadSize(seqNum, mark, data);
  }

  lemma SizeIsShort(size: nat)
    requires size < ULL_LIMIT
    ensures |Decimal(size)| <= 20
  {
    hide Decimal;
    TwentyDigits();
    DecimalLength(size, 20);
  }

  /** The announced size is printed in at most twenty digits, every chunk is within the string limit, and
      every message fits a frame. */
  lemma UploadIsSendable(seqNum: uint32, text: Bytes)
    requires |text| + 12 < ULL_LIMIT
    ensures AllSendable(Upload(seqNum, text))
  {
    hide Sendable, Decimal, TextContainer, Chunks, DataMessages;
    var container := TextContainer(text);
    var parts := Chunks(container);
    TextContainerLength(text);
    SizeIsShort(|container|);
    ChunksJoin(container);
    DataMessagesAre(seqNum, parts);
    ChunkIsSendable(seqNum, 1, Decimal(|container|));
    ChunkIsSendable(seqNum, 3, []);
    forall i | 0 <= i < |parts|
      ensures Sendable(DataMessages(seqNum, parts)[i])
    {
      ChunkIsSendable(seqNum, 2, parts[i]);
    }
  }

  lemma TwentyDigits()
    ensures Power10(20) == 100_000_000_000_000_000_000
  {
    assert Power10(5) == 100_000;
    assert Power10(10) == 10_000_000_000;
    assert Power10(15) == 1_000_000_000_000_000;
  }

  // ---------- handling it ----------

  lemma {:induction false} ClipboardMessagesKeepGoing(p: Progress, ms: seq<Msg>, samples: seq<Ambient>)
    requires |ms| == |samples| && p.going && p.out.room >= 8 * |ms|
    requires forall i :: 0 <= i < |ms| ==> ms[i].Clipboard?
    ensures HandleAll(p, ms, samples).going
    decreases |ms|
  {
    hide Handle;
    if ms != [] {
      ClipboardMessageReceives(p.core, ms[0], samples[0]);
      var h := Handle(p.core, ms[0], samples[0]);
      assert [] + NoopAfter(h.core) == NoopAfter(h.core);
      NoopFits(p.out, h.core);
      ClipboardMessagesKeepGoing(HandleOne(p, ms[0], samples[0]), ms[1..], samples[1..]);
    }
  }

  lemma NoopFits(o: Output, c: Core)
    requires o.room >= 8
    ensures WriteFrames(o, NoopAfter(c)).1 && WriteFrames(o, NoopAfter(c)).0.room >= o.room - 8
  {
    WriteOneFrame(o, NOOP_PAYLOAD);
  }

  // ---------- accepted or refused ----------

  /** The announced size is accepted exactly up to 1 MiB. */
  lemma StartAcceptedUpToLimit(seqNum: uint32, size: nat)
    requires size < ULL_LIMIT
    ensures StartTransfer(seqNum, Decimal(size)).active <==> size <= MAX_CLIPBOARD
  {
    hide Decimal, Stoull;
    StoullInvertsDecimal(size);
  }

  lemma {:induction false} RefusedDeliversNothing(d: Board, ks: seq<Piece>)
    requires |ks| >= 1 && ks[0].mark == 1 && !StartTransfer(ks[0].seqNum, ks[0].data).active
    requires forall i :: 1 <= i < |ks| ==> ks[i].mark != 1
    ensures !Assemble(d, ks).clip.active && Assemble(d, ks).delivered == d.delivered
  {
    hide Stoull, Unmarshal;
    if |ks| == 1 {
      assert ks[..0] == [] && Assemble(d, []) == d;
    } else {
      RefusedDeliversNothing(d, ks[..|ks| - 1]);
    }
  }

  lemma {:induction false} DataOfIs(ks: seq<Piece>)
    ensures |DataOf(ks)| == |ks| && forall i :: 0 <= i < |ks| ==> DataOf(ks)[i] == ks[i].data
  {
    if ks != [] {
      DataOfIs(ks[..|ks| - 1]);
    }
  }

  /** The pieces of an upload, as the receiver's assembly sees them. */
  ghost predicate ArePiecesOfUpload(ks: seq<Piece>, seqNum: uint32, text: Bytes) {
    var up := Upload(seqNum, text);
    && |ks| == |up|
    && forall i :: 0 <= i < |up| ==> up[i].Clipboard? && ks[i] == PieceOf(up[i], ks[i].a)
  }

  lemma UploadIsTransfer(ks: seq<Piece>, seqNum: uint32, text: Bytes)
    requires ArePiecesOfUpload(ks, seqNum, text)
    ensures var container := TextContainer(text);
      && |ks| >= 2 && ks[0].mark == 1 && ks[0].data == Decimal(|container|)
      && ks[|ks| - 1].mark == 3
      && (forall i :: 1 <= i < |ks| - 1 ==> ks[i].mark == 2)
      && Joined(DataOf(ks[1..|ks| - 1])) == container
  {
    hide TextContainer, Chunks, DataMessages, Decimal, DataOf, Joined;
    var container := TextContainer(text);
    var parts := Chunks(container);
    var up := Upload(seqNum, text);
    DataMessagesAre(seqNum, parts);
    ChunksJoin(container);
    assert forall i :: 1 <= i < |ks| - 1 ==> up[i] == DataMessages(seqNum, parts)[i - 1];
    var mid := ks[1..|ks| - 1];
    DataOfIs(mid);
    assert forall i :: 0 <= i < |parts| ==> mid[i] == ks[i + 1];
    assert DataOf(mid) == parts;
  }

  ghost predicate SyncingAtEnd(ks: seq<Piece>) {
    ks != [] && ks[|ks| - 1].a.sync
  }

  /** Up to 1,048,564 octets the text is passed on whole, once; anything longer is refused and nothing is
      passed on. */
  lemma UploadDelivers(c: Core, seqNum: uint32, text: Bytes, xs: seq<Action>)
    requires text != [] && |text| + 12 < ULL_LIMIT && c.board.hasCallback
    requires ArePiecesOfUpload(ChunksOf(xs), seqNum, text)
    requires SyncingAtEnd(ChunksOf(xs))
    ensures !Run(c, xs).board.clip.active
    ensures Run(c, xs).board.delivered
         == c.board.delivered + (if |text| <= 1_048_564 then [text] else [])
  {
    hide Run, Assemble, ChunksOf, Stoull, Decimal, Unmarshal, TextContainer, ArePiecesOfUpload, DataOf, Joined;
    var ks := ChunksOf(xs);
    UploadIsTransfer(ks, seqNum, text);
    TextContainerLength(text);
    StartAcceptedUpToLimit(ks[0].seqNum, |text| + 12);
    if |text| <= 1_048_564 {
      TransferDelivers(c, xs);
      UnmarshalInvertsMarshal(text);
    } else {
      AssemblyIgnoresOthers(c, xs);
      RefusedDeliversNothing(c.board, ks);
    }
    assert c.board.delivered + [] == c.board.delivered;
  }

  /** The same for a worker, whatever octets arrive and however its connections end: if the clipboard
      messages it parses in all its attempts are an upload, the text is passed on whole, once, or refused,
      also when the upload goes on after a reconnection. */
  lemma WorkerDelivers(c: Core, seqNum: uint32, text: Bytes, ts: seq<Attempt>)
    requires text != [] && |text| + 12 < ULL_LIMIT && c.board.hasCallback
    ensures var ks := PiecesIn(MessagesIn(c, ts), SamplesIn(c, ts));
      ArePiecesOfUpload(ks, seqNum, text) && SyncingAtEnd(ks) ==>
        && !AfterAttempts(c, ts).board.clip.active
        && AfterAttempts(c, ts).board.delivered
           == c.board.delivered + (if |text| <= 1_048_564 then [text] else [])
  {
    hide Run, AfterAttempts, MessagesIn, SamplesIn, MessagesOf, SamplesOf, PiecesIn, ChunksOf, ArePiecesOfUpload;
    var xs := AttemptsAreActions(c, ts);
    ChunksArePieces(xs);
    if ArePiecesOfUpload(ChunksOf(xs), seqNum, text) && SyncingAtEnd(ChunksOf(xs)) {
      UploadDelivers(c, seqNum, text, xs);
    }
  }

  // ---------- over the wire ----------

  lemma UploadIsClipboard(seqNum: uint32, text: Bytes)
    ensures forall i :: 0 <= i < |Upload(seqNum, text)| ==> Upload(seqNum, text)[i].Clipboard?
  {
    hide Chunks, DataMessages, TextContainer, Decimal;
    DataMessagesAre(seqNum, Chunks(TextContainer(text)));
  }

  /** Any sendable messages on the wire, with anything after them: the first `n` are handled, as far as there
      is no verdict and the peer takes the replies. If the clipboard messages among these are the upload of
      a text, and the reader has a callback and syncing on at the end of it, then whatever other messages
      come in between the callback is given exactly the text if its container is within 1 MiB, and nothing
      otherwise, whether the loop goes on afterwards or not. */
  lemma ClipboardAmongOthers(
    seqNum: uint32, text: Bytes, l: Loop, ms: seq<Msg>, tail: Bytes, samples: seq<Ambient>) returns (n: nat)
    requires text != [] && |text| + 12 < ULL_LIMIT
    requires AllSendable(ms) && |samples| == |ms|
    requires l.going && l.core.board.hasCallback && l.input == Input([], Frames(PayloadsOf(ms)) + tail)
    ensures n <= |ms| && HandledUpTo(ProgressOf(l), ms, samples, n)
    ensures var r := Iterations(l, samples);
      var ks := PiecesIn(ms[..n], samples[..n]);
      && r.log == l.log + ms[..n]
      && (r.going ==> n == |ms| && r.input == Input([], tail))
      && (ArePiecesOfUpload(ks, seqNum, text) && SyncingAtEnd(ks) ==>
           && !r.core.board.clip.active
           && r.core.board.delivered
              == l.core.board.delivered + (if |text| <= 1_048_564 then [text] else []))
  {
    hide WriteFrames, PayloadsOf, Frames, Upload, Iterations, HandleAll, Run, Actions, ChunksOf, Sendable;
    hide HandledUpTo, PiecesIn, ArePiecesOfUpload, SyncingAtEnd, MessagesOf, SamplesOf;
    LoopHandlesMessages(l, ms, tail, samples);
    n := HandledIsRun(ProgressOf(l), ms, samples);
    var n' := LogsWhatIsHandled(ProgressOf(l), ms, samples);
    assert |l.log + ms[..n]| == |l.log + ms[..n']|;
    var ks := PiecesIn(ms[..n], samples[..n]);
    if ArePiecesOfUpload(ks, seqNum, text) && SyncingAtEnd(ks) {
      var xs := Actions(ms[..n], samples[..n]);
      ActionsAre(ms[..n], samples[..n]);
      ChunksArePieces(xs);
      UploadDelivers(l.core, seqNum, text, xs);
    }
  }

  /** The octets a sender puts on the wire for a text, with nothing in between, read by the loop of another
      client that has a callback, syncing on and room to answer, whatever else follows: the loop handles all
      of them and goes on, and the callback is given exactly the text if its container is within 1 MiB, and
      nothing otherwise. */
  lemma ClipboardEndToEnd(o: Output, seqNum: uint32, text: Bytes, l: Loop, tail: Bytes, samples: seq<Ambient>)
    requires text != [] && |text| + 12 < ULL_LIMIT
    requires WriteFrames(o, PayloadsOf(Upload(seqNum, text))).1
    requires l.going && l.core.board.hasCallback
    requires var wire := WriteFrames(o, PayloadsOf(Upload(seqNum, text))).0.sent;
      |o.sent| <= |wire| && l.input == Input([], wire[|o.sent|..] + tail)
    requires |samples| == |Upload(seqNum, text)| && l.out.room >= 8 * |samples|
    requires forall i :: 0 <= i < |samples| ==> samples[i].sync
    ensures var r := Iterations(l, samples);
      && r.going && r.input == Input([], tail) && !r.core.board.clip.active
      && r.core.board.delivered
         == l.core.board.delivered + (if |text| <= 1_048_564 then [text] else [])
  {
    hide WriteFrames, PayloadsOf, Frames, Upload, Iterations, HandleAll, Sendable;
    hide HandledUpTo, PiecesIn;
    var up := Upload(seqNum, text);
    UploadIsSendable(seqNum, text);
    UploadIsClipboard(seqNum, text);
    WriteFramesSendsFrames(o, PayloadsOf(up));
    assert o.Put(Frames(PayloadsOf(up))).sent == o.sent + Frames(PayloadsOf(up));
    LoopHandlesMessages(l, up, tail, samples);
    ClipboardMessagesKeepGoing(ProgressOf(l), up, samples);
    UploadIsNotEmpty(seqNum, text);
    AllPieces(up, samples);
    var n := ClipboardAmongOthers(seqNum, text, l, up, tail, samples);
    assert up[..n] == up && samples[..n] == samples;
  }

  lemma UploadIsNotEmpty(seqNum: uint32, text: Bytes)
    ensures Upload(seqNum, text) != []
  {
  }
}
