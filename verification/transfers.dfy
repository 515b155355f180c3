// Clipboard transfers: assembly among other messages, and from one client to another.
module Transfers {
  import opened ByteOrder
  import opened Messages
  import opened Clipboards
  import opened ClientModel
  import opened Effects
  import opened Connections
  import opened Runs

  // ---------- assembly is independent of interleaving ----------

  /** One clipboard message as the assembly sees it. */
  datatype Piece = Piece(seqNum: uint32, mark: uint8, data: Bytes, a: Ambient)

  function ChunkOf(x: Action): seq<Piece> {
    if x.Received? && x.m.Clipboard? then [Piece(x.m.seqNum, x.m.mark, x.m.data, x.a)] else []
  }

  /** The clipboard messages of a run, everything else left out. */
  function ChunksOf(xs: seq<Action>): seq<Piece> {
    if xs == [] then [] else ChunksOf(xs[..|xs| - 1]) + ChunkOf(xs[|xs| - 1])
  }

  function PieceOf(m: Msg, a: Ambient): Piece
    requires m.Clipboard?
  {
    Piece(m.seqNum, m.mark, m.data, a)
  }

  /** The clipboard messages among those handled, with what was observed then. */
  function PiecesIn(ms: seq<Msg>, samples: seq<Ambient>): seq<Piece>
    requires |ms| == |samples|
  {
    if ms == [] then []
    else
      var n := |ms| - 1;
      PiecesIn(ms[..n], samples[..n]) + (if ms[n].Clipboard? then [PieceOf(ms[n], samples[n])] else [])
  }

  lemma {:induction false} ChunksArePieces(xs: seq<Action>)
    ensures ChunksOf(xs) == PiecesIn(MessagesOf(xs), SamplesOf(xs))
  {
    if xs != [] {
      var front, x := xs[..|xs| - 1], xs[|xs| - 1];
      ChunksArePieces(front);
      var ms, samples := MessagesOf(front), SamplesOf(front);
      if x.Received? {
        assert MessagesOf(xs) == ms + [x.m] && SamplesOf(xs) == samples + [x.a];
        assert (ms + [x.m])[..|ms|] == ms && (samples + [x.a])[..|ms|] == samples;
      } else {
        assert MessagesOf(xs) == ms && SamplesOf(xs) == samples;
        assert ChunksOf(xs) == ChunksOf(front);
      }
    }
  }

  lemma {:induction false} AllPieces(ms: seq<Msg>, samples: seq<Ambient>)
    requires |ms| == |samples| && forall i :: 0 <= i < |ms| ==> ms[i].Clipboard?
    ensures |PiecesIn(ms, samples)| == |ms|
    ensures forall i :: 0 <= i < |ms| ==> PiecesIn(ms, samples)[i] == PieceOf(ms[i], samples[i])
  {
    if ms != [] {
      AllPieces(ms[..|ms| - 1], samples[..|ms| - 1]);
    }
  }

  function Assemble(d: Board, ks: seq<Piece>): Board {
    if ks == [] then d
    else
      var k := ks[|ks| - 1];
      ReceiveChunk(Assemble(d, ks[..|ks| - 1]), k.seqNum, k.mark, k.data, k.a)
  }

  /** The same but for the text last exchanged, which plays no part in the assembly. */
  ghost predicate SameAssembly(d: Board, e: Board) {
    d.clip == e.clip && d.hasCallback == e.hasCallback && d.delivered == e.delivered
  }

  lemma ReceiveRespectsAssembly(d: Board, e: Board, k: Piece)
    requires SameAssembly(d, e)
    ensures SameAssembly(ReceiveChunk(d, k.seqNum, k.mark, k.data, k.a), ReceiveChunk(e, k.seqNum, k.mark, k.data, k.a))
  {
    hide Unmarshal, StartTransfer;
  }

  lemma OtherMessagesKeepBoard(c: Core, m: Msg, a: Ambient)
    requires !m.Clipboard?
    ensures Handle(c, m, a).core.board == c.board
  {
    hide Handle, PointerEvents, ButtonsAfter, Told;
    var _ := HandleChanges(c, m, a);
  }

  lemma StepAssembles(c: Core, x: Action)
    ensures ChunkOf(x) == [] ==> SameAssembly(Perform(c, x).board, c.board)
    ensures ChunkOf(x) != [] ==>
      var k := ChunkOf(x)[0];
      Perform(c, x).board == ReceiveChunk(c.board, k.seqNum, k.mark, k.data, k.a)
  {
    hide Handle, ReceiveChunk;
    if x.Received? {
      if x.m.Clipboard? {
        ClipboardMessageReceives(c, x.m, x.a);
      } else {
        OtherMessagesKeepBoard(c, x.m, x.a);
      }
    }
  }

  /** Over any run, across connections, the state of the assembly and what has been delivered depend on
      the clipboard messages alone. */
  lemma {:induction false} AssemblyIgnoresOthers(c: Core, xs: seq<Action>)
    ensures SameAssembly(Run(c, xs).board, Assemble(c.board, ChunksOf(xs)))
  {
    hide Perform, ReceiveChunk;
    if xs != [] {
      var front, x := xs[..|xs| - 1], xs[|xs| - 1];
      var before := Run(c, front);
      AssemblyIgnoresOthers(c, front);
      StepAssembles(before, x);
      if ChunkOf(x) == [] {
        assert ChunksOf(xs) == ChunksOf(front);
      } else {
        var k := ChunkOf(x)[0];
        assert ChunksOf(xs)[..|ChunksOf(xs)| - 1] == ChunksOf(front);
        ReceiveRespectsAssembly(before.board, Assemble(c.board, ChunksOf(front)), k);
      }
    }
  }

  lemma ClipboardMessageReceives(c: Core, m: Msg, a: Ambient)
    requires m.Clipboard?
    ensures Handle(c, m, a) == Handled(c.(board := ReceiveChunk(c.board, m.seqNum, m.mark, m.data, a)), [], true)
  {
    hide InfoPayload, ReceiveChunk, Entered, Departed, PointerTo, PointerBy, ButtonTo, Wheeled, KeyTo;
  }

  function DataOf(ks: seq<Piece>): seq<Bytes> {
    if ks == [] then [] else DataOf(ks[..|ks| - 1]) + [ks[|ks| - 1].data]
  }

  /** An accepted start, any data chunks, an end. */
  ghost predicate IsTransfer(ks: seq<Piece>) {
    && |ks| >= 2
    && ks[0].mark == 1 && StartTransfer(ks[0].seqNum, ks[0].data).active
    && ks[|ks| - 1].mark == 3
    && forall i :: 1 <= i < |ks| - 1 ==> ks[i].mark == 2
  }

  lemma {:induction false} JoinedAppend(parts: seq<Bytes>, last: Bytes)
    ensures Joined(parts + [last]) == Joined(parts) + last
  {
    if parts == [] {
      assert [last][1..] == [];
    } else {
      assert (parts + [last])[1..] == parts[1..] + [last];
      JoinedAppend(parts[1..], last);
    }
  }

  /** After the start and some data chunks the buffer holds the chunks joined in order. */
  lemma {:induction false} AssembleData(d: Board, ks: seq<Piece>)
    requires |ks| >= 1 && ks[0].mark == 1 && StartTransfer(ks[0].seqNum, ks[0].data).active
    requires forall i :: 1 <= i < |ks| ==> ks[i].mark == 2
    ensures var e := Assemble(d, ks);
      && e.clip.active && e.clip.buffer == Joined(DataOf(ks[1..]))
      && e.delivered == d.delivered && e.hasCallback == d.hasCallback
  {
    hide Stoull;
    if |ks| == 1 {
      assert ks[..0] == [] && Assemble(d, []) == d;
    } else {
      var front, k := ks[..|ks| - 1], ks[|ks| - 1];
      AssembleData(d, front);
      assert ks[1..][..|ks| - 2] == front[1..];
      JoinedAppend(DataOf(front[1..]), k.data);
    }
  }

  /** In any run, whatever other messages, reconnections and pushes come in between: if the clipboard
      messages are an accepted start, data chunks and an end, exactly the text of the chunks joined in
      order is passed on (once, if syncing is on at the end, there is text and a callback is set). */
  lemma TransferDelivers(c: Core, xs: seq<Action>)
    requires IsTransfer(ChunksOf(xs))
    ensures var ks := ChunksOf(xs);
      var text := Unmarshal(Joined(DataOf(ks[1..|ks| - 1])));
      && !Run(c, xs).board.clip.active
      && Run(c, xs).board.delivered
         == c.board.delivered + (if ks[|ks| - 1].a.sync && text != [] && c.board.hasCallback then [text] else [])
  {
    hide Run, Unmarshal, Assemble, ChunksOf, Stoull;
    var ks := ChunksOf(xs);
    var front := ks[..|ks| - 1];
    AssemblyIgnoresOthers(c, xs);
    AssembleData(c.board, front);
    assert front[1..] == ks[1..|ks| - 1];
    AssembleLast(c.board, ks);
  }

  lemma AssembleLast(d: Board, ks: seq<Piece>)
    requires ks != []
    ensures var k := ks[|ks| - 1];
      Assemble(d, ks) == ReceiveChunk(Assemble(d, ks[..|ks| - 1]), k.seqNum, k.mark, k.data, k.a)
  {
    hide ReceiveChunk;
  }

  /** Data or an end without a transfer under way, or an unknown mark at any time, changes nothing. */
  lemma StrayChunksAreIgnored(c: Core, clip: uint8, seqNum: uint32, mark: uint8, data: Bytes, a: Ambient)
    requires (!c.board.clip.active && mark != 1) || mark !in {1, 2, 3}
    ensures Handle(c, Clipboard(clip, seqNum, mark, data), a) == Handled(c, [], true)
  {
    hide Unmarshal, StartTransfer;
    ClipboardMessageReceives(c, Clipboard(clip, seqNum, mark, data), a);
  }

  /** A start begins afresh, whatever was under way, with the announced size and the number it carries; a
      size that cannot be read counts as 0 and is accepted. */
  lemma StartBeginsAfresh(c: Core, clip: uint8, seqNum: uint32, data: Bytes, a: Ambient)
    ensures var size := if Stoull(data).Some? then Stoull(data).value else 0;
      Handle(c, Clipboard(clip, seqNum, 1, data), a).core.board.clip == Transfer(size <= 1_048_576, [], size, seqNum)
  {
    hide Stoull;
    ClipboardMessageReceives(c, Clipboard(clip, seqNum, 1, data), a);
  }

  /** Nothing of a transfer is kept when none is under way. */
  ghost predicate IdleKeepsNothing(d: Board) {
    !d.clip.active ==> d.clip.buffer == []
  }

  lemma StepRemembers(c: Core, x: Action)
    requires c.board.hasCallback && IdleKeepsNothing(c.board)
    ensures var d, e := c.board, Perform(c, x).board;
      && e.hasCallback && IdleKeepsNothing(e)
      && (x.Pushed? ==> e.delivered == d.delivered && e.lastText == x.text)
      && (!x.Pushed? ==>
           || e.delivered == d.delivered + [e.lastText]
           || (e.delivered == d.delivered && e.lastText == d.lastText))
  {
    hide Handle, Unmarshal, Stoull;
    if x.Received? {
      if x.m.Clipboard? {
        ClipboardMessageReceives(c, x.m, x.a);
      } else {
        OtherMessagesKeepBoard(c, x.m, x.a);
      }
    }
  }

  /** The texts pushed or passed on in a run, in order. */
  function Exchanged(c: Core, xs: seq<Action>): seq<Bytes> {
    if xs == [] then []
    else
      var front, x := xs[..|xs| - 1], xs[|xs| - 1];
      Exchanged(c, front)
      + (if x.Pushed? then [x.text]
         else if Run(c, xs).board.delivered != Run(c, front).board.delivered then
           [Run(c, xs).board.lastText]
         else [])
  }

  /** With a callback set, the text remembered is the last one pushed or passed on, if there is any, and
      exactly what is passed on is delivered; between transfers nothing of them is kept. */
  lemma {:induction false} LastTextIsRemembered(c: Core, xs: seq<Action>)
    requires c.board.hasCallback && IdleKeepsNothing(c.board)
    ensures var b := Run(c, xs).board; var ts := Exchanged(c, xs);
      && b.hasCallback && IdleKeepsNothing(b)
      && b.lastText == (if ts == [] then c.board.lastText else ts[|ts| - 1])
      && ((forall i :: 0 <= i < |xs| ==> !xs[i].Pushed?) ==> b.delivered == c.board.delivered + ts)
  {
    hide Perform, IdleKeepsNothing;
    if xs == [] {
      assert c.board.delivered + [] == c.board.delivered;
    } else {
      var front, x := xs[..|xs| - 1], xs[|xs| - 1];
      LastTextIsRemembered(c, front);
      StepRemembers(Run(c, front), x);
      var ts := Exchanged(c, front);
      var last := [Run(c, xs).board.lastText];
      assert c.board.delivered + ts + last == c.board.delivered + (ts + last);
      assert ts + [] == ts;
      assert (forall i :: 0 <= i < |xs| ==> !xs[i].Pushed?) ==> forall i :: 0 <= i < |front| ==> !front[i].Pushed? by {
        assert forall i :: 0 <= i < |front| ==> front[i] == xs[i];
      }
    }
  }

  // ---------- a worker ----------

  /** Over all the attempts of a worker, the transfer in progress and what has been delivered depend on the
      clipboard messages parsed from the octets alone; a transfer may go on after a reconnection. */
  lemma WorkerAssembles(c: Core, ts: seq<Attempt>)
    ensures SameAssembly(AfterAttempts(c, ts).board,
                         Assemble(c.board, PiecesIn(MessagesIn(c, ts), SamplesIn(c, ts))))
  {
    hide Run, Assemble, AfterAttempts, MessagesIn, SamplesIn, MessagesOf, SamplesOf, PiecesIn, ChunksOf, SameAssembly;
    var xs := AttemptsAreActions(c, ts);
    AssemblyIgnoresOthers(c, xs);
    ChunksArePieces(xs);
  }
}
