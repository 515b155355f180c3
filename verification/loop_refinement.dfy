// The byte-level message loop does what handling the messages one by one does.
module LoopRefinement {
  import opened ByteOrder
  import opened Sockets
  import opened Framing
  import opened Messages
  import opened ClientModel
  import opened MessageLoop

  /** A message that fits the reader's limits and one frame. */
  ghost predicate Sendable(m: Msg) {
    WithinLimits(m) && |Payload(m)| <= MAX_FRAME
  }

  ghost predicate AllSendable(ms: seq<Msg>) {
    forall i :: 0 <= i < |ms| ==> Sendable(ms[i])
  }

  // ---------- handling messages without bytes ----------

  /** What the handler writes for one message, the no-op included. */
  function Replies(h: Handled): seq<Bytes> {
    h.replies + (if h.keep then NoopAfter(h.core) else [])
  }

  datatype Progress = Progress(core: Core, out: Output, log: seq<Msg>, going: bool)

  function HandleOne(p: Progress, m: Msg, a: Ambient): Progress {
    if !p.going then p
    else
      var h := Handle(p.core, m, a);
      var w := WriteFrames(p.out, Replies(h));
      Progress(h.core, w.0, p.log + [m], h.keep && w.1)
  }

  /** Handles the messages in order up to the first whose handling ends the loop. */
  function HandleAll(p: Progress, ms: seq<Msg>, samples: seq<Ambient>): Progress
    requires |ms| == |samples|
    decreases |ms|
  {
    if ms == [] then p else HandleAll(HandleOne(p, ms[0], samples[0]), ms[1..], samples[1..])
  }

  /** The part of a loop state that does not mention bytes still to be read. */
  function ProgressOf(l: Loop): Progress {
    Progress(l.core, l.out, l.log, l.going)
  }

  // ---------- one frame ----------

  lemma PayloadSplits(m: Msg)
    ensures |Payload(m)| >= 4
    ensures Payload(m)[..4] == Key(KindOf(m)).Octets() && Payload(m)[4..] == EncodedArgs(m)
  {
    hide EncodedArgs, Key;
  }

  /** After a frame has been read and pushed back, the key is its first four octets and the handler sees
      the rest of the frame followed by whatever else arrives. */
  lemma FrameIsParsed(m: Msg, rest: Bytes)
    requires Sendable(m)
    ensures var i := Input([], Framed(Payload(m)) + rest);
      var f := i.Frame();
      var h := f.left.Push(f.data).Exact(4);
      && f.ok && h.ok && |h.data| == 4
      && TagOf(h.data) == Key(KindOf(m))
      && h.left.All() == EncodedArgs(m) + rest
      && h.left.net == rest
  {
    hide EncodedArgs, Key, Framed, Payload, WithinLimits;
    var i := Input([], Framed(Payload(m)) + rest);
    assert i.All() == Framed(Payload(m)) + rest;
    FrameReadsBack(i, Payload(m), rest);
    PayloadSplits(m);
    TagReadsBack(KindOf(m));
    var pushed := i.Frame().left.Push(i.Frame().data);
    assert pushed == Input(Payload(m), rest);
    ExactCases(pushed, 4);
  }

  /** One passage of the loop over a well-formed frame handles its message and leaves exactly what
      follows the frame, with nothing in the push-back buffer. */
  lemma IterateHandlesMessage(l: Loop, m: Msg, rest: Bytes, a: Ambient)
    requires l.going && Sendable(m)
    requires l.input == Input([], Framed(Payload(m)) + rest)
    ensures ProgressOf(Iterate(l, a)) == HandleOne(ProgressOf(l), m, a)
    ensures Iterate(l, a).going ==> Iterate(l, a).input == Input([], rest)
  {
    hide EncodedArgs, Key, Framed, Payload, ParseMessage, Handle, WriteFrames, Input.Frame, Input.Exact;
    FrameIsParsed(m, rest);
    var f := l.input.Frame();
    var h := f.left.Push(f.data).Exact(4);
    var r := Handle(l.core, m, a);
    AnswerIs(l.core, h.left, l.out, m, rest, a);
    if WriteFrames(l.out, r.replies).1 {
      WriteFramesConcat(l.out, r.replies, if r.keep then NoopAfter(r.core) else []);
    } else {
      WriteFramesStops(l.out, r.replies, if r.keep then NoopAfter(r.core) else []);
      QuietHandlersWriteNothing(l.core, m, a);
    }
    WriteOneFrame(WriteFrames(l.out, r.replies).0, []);
  }

  lemma AnswerIs(c: Core, i: Input, o: Output, m: Msg, rest: Bytes, a: Ambient)
    requires WithinLimits(m) && i.All() == EncodedArgs(m) + rest && i.net == rest
    ensures var h := Handle(c, m, a);
      Answer(c, i, o, Key(KindOf(m)), a)
      == Some(Outcome(h.core, Input([], rest), WriteFrames(o, h.replies).0, m, h.keep && WriteFrames(o, h.replies).1))
  {
    hide EncodedArgs, Key, ParseMessage, Handle, WriteFrames, WithinLimits;
    MessageReadsBack(m, rest);
    assert |i.buf| == |EncodedArgs(m)|;
  }

  /** A handler that ends the loop itself has not written anything. */
  lemma QuietHandlersWriteNothing(c: Core, m: Msg, a: Ambient)
    ensures !Handle(c, m, a).keep ==> Handle(c, m, a).replies == []
  {
    hide Entered, Departed, PointerTo, PointerBy, ButtonTo, Wheeled, KeyTo, ReceiveChunk, InfoPayload;
  }

  // ---------- the whole loop ----------

  lemma {:induction false} FinishedStays(p: Progress, ms: seq<Msg>, samples: seq<Ambient>)
    requires |ms| == |samples| && !p.going
    ensures HandleAll(p, ms, samples) == p
    decreases |ms|
  {
    hide Handle, WriteFrames;
    if ms != [] {
      FinishedStays(p, ms[1..], samples[1..]);
    }
  }

  /** For any well-formed messages, each in one frame, with anything after them: the loop handles exactly
      these messages in order, up to the first whose handling ends it, and while it goes on the
      push-back buffer is empty and exactly the later frames are left. */
  lemma {:induction false} LoopHandlesMessages(l: Loop, ms: seq<Msg>, tail: Bytes, samples: seq<Ambient>)
    requires AllSendable(ms) && |ms| == |samples|
    requires l.going ==> l.input == Input([], Frames(PayloadsOf(ms)) + tail)
    ensures ProgressOf(Iterations(l, samples)) == HandleAll(ProgressOf(l), ms, samples)
    ensures Iterations(l, samples).going ==> Iterations(l, samples).input == Input([], tail)
    decreases |ms|
  {
    hide Iterate, HandleOne, Sendable, Payload, Framed;
    if !l.going {
      StoppedStays(l, samples);
      FinishedStays(ProgressOf(l), ms, samples);
    } else if ms == [] {
      assert Frames(PayloadsOf(ms)) + tail == tail;
    } else {
      var rest := Frames(PayloadsOf(ms[1..])) + tail;
      FramesFirst(ms, tail);
      IterateHandlesMessage(l, ms[0], rest, samples[0]);
      LoopHandlesMessages(Iterate(l, samples[0]), ms[1..], tail, samples[1..]);
    }
  }

  lemma FramesFirst(ms: seq<Msg>, tail: Bytes)
    requires ms != []
    ensures Frames(PayloadsOf(ms)) + tail == Framed(Payload(ms[0])) + (Frames(PayloadsOf(ms[1..])) + tail)
  {
    hide Payload, Framed;
    assert PayloadsOf(ms)[1..] == PayloadsOf(ms[1..]);
  }

  /** At every loop head reached after k messages the push-back buffer is empty. */
  lemma BufferEmptyAtLoopHeads(l: Loop, ms: seq<Msg>, tail: Bytes, samples: seq<Ambient>, k: nat)
    requires AllSendable(ms) && |ms| == |samples| && k <= |ms|
    requires l.going && l.input == Input([], Frames(PayloadsOf(ms)) + tail)
    ensures Iterations(l, samples[..k]).going ==>
      && Iterations(l, samples[..k]).input.buf == []
      && Iterations(l, samples[..k]).log == l.log + ms[..k]
  {
    hide Iterations, Payload, Sendable, Framed, PayloadsOf, Frames, HandleAll;
    assert ms == ms[..k] + ms[k..];
    PayloadsOfConcat(ms[..k], ms[k..]);
    FramesConcat(PayloadsOf(ms[..k]), PayloadsOf(ms[k..]));
    assert Frames(PayloadsOf(ms)) + tail
        == Frames(PayloadsOf(ms[..k])) + (Frames(PayloadsOf(ms[k..])) + tail);
    LoopHandlesMessages(l, ms[..k], Frames(PayloadsOf(ms[k..])) + tail, samples[..k]);
    LogWhileGoing(ProgressOf(l), ms[..k], samples[..k]);
  }

  lemma {:induction false} LogWhileGoing(p: Progress, ms: seq<Msg>, samples: seq<Ambient>)
    requires |ms| == |samples|
    ensures HandleAll(p, ms, samples).going ==> p.going && HandleAll(p, ms, samples).log == p.log + ms
    decreases |ms|
  {
    hide Handle, WriteFrames;
    if ms == [] {
      assert p.log + ms == p.log;
    } else {
      LogWhileGoing(HandleOne(p, ms[0], samples[0]), ms[1..], samples[1..]);
      assert p.log + [ms[0]] + ms[1..] == p.log + ms;
    }
  }

  // ---------- any octets ----------

  /** A passage over any octets either handles one message or only ends the loop. */
  lemma PassageHandles(l: Loop, a: Ambient) returns (m: Option<Msg>)
    requires l.going
    ensures m.None? ==> Iterate(l, a) == l.(going := false)
    ensures m.Some? ==> ProgressOf(Iterate(l, a)) == HandleOne(ProgressOf(l), m.value, a)
  {
    hide Handle, ParseMessage, WriteFrames, Input.Frame, Input.Exact, Input.All, Input.Drop, NoopAfter;
    var f := l.input.Frame();
    var h := f.left.Push(f.data).Exact(4);
    m := None;
    if f.ok && h.ok {
      ExactSplits(f.left.Push(f.data), 4);
      var p := ParseMessage(TagOf(h.data), h.left.All());
      if p.Some? {
        m := Some(p.value.m);
        AnsweredMessage(l, p.value.m, a);
      }
    }
  }

  /** Writing the answer and then the no-op is writing both. */
  lemma AnsweredMessage(l: Loop, m: Msg, a: Ambient)
    ensures var h := Handle(l.core, m, a);
      var first := WriteFrames(l.out, h.replies);
      var second := WriteFrames(first.0, if h.keep && first.1 then NoopAfter(h.core) else []);
      && WriteFrames(l.out, Replies(h)).0 == second.0
      && (h.keep && WriteFrames(l.out, Replies(h)).1 <==> h.keep && first.1 && second.1)
  {
    hide Handle, WriteFrames, NoopAfter;
    var h := Handle(l.core, m, a);
    var noop := if h.keep then NoopAfter(h.core) else [];
    if WriteFrames(l.out, h.replies).1 {
      WriteFramesConcat(l.out, h.replies, noop);
    } else {
      WriteFramesStops(l.out, h.replies, noop);
      QuietHandlersWriteNothing(l.core, m, a);
    }
    WriteOneFrame(WriteFrames(l.out, h.replies).0, []);
  }

  /** Over any octets the loop does what handling the messages it parses does, one for each of its first
      passages; while it goes on every passage has handled one. */
  lemma {:induction false} LoopHandlesWhatItParses(l: Loop, samples: seq<Ambient>) returns (ms: seq<Msg>)
    ensures |ms| <= |samples| && Iterations(l, samples).log == l.log + ms
    ensures var r, p := Iterations(l, samples), HandleAll(ProgressOf(l), ms, samples[..|ms|]);
      && ProgressOf(r) == p.(going := r.going)
      && (r.going ==> p.going && |ms| == |samples|)
    decreases |samples|
  {
    hide Iterate, HandleOne;
    ms := [];
    if samples == [] || !l.going {
      assert l.log + [] == l.log;
      if !l.going {
        StoppedStays(l, samples);
      }
    } else {
      var next := Iterate(l, samples[0]);
      var m := PassageHandles(l, samples[0]);
      if m.None? {
        StoppedStays(next, samples[1..]);
        assert l.log + [] == l.log;
      } else {
        var rest := LoopHandlesWhatItParses(next, samples[1..]);
        ms := [m.value] + rest;
        HandledIsLogged(ProgressOf(l), m.value, samples[0]);
        assert samples[..|ms|][1..] == samples[1..][..|rest|];
        assert ms[1..] == rest && samples[..|ms|][0] == samples[0];
        assert l.log + [m.value] + rest == l.log + ms;
      }
    }
  }

  lemma HandledIsLogged(p: Progress, m: Msg, a: Ambient)
    requires p.going
    ensures HandleOne(p, m, a).log == p.log + [m]
  {
    hide Handle, WriteFrames;
  }
}
