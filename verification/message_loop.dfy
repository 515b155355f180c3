// The message loop over the byte stream: frames in, frames out.
module MessageLoop {
  import opened ByteOrder
  import opened Sockets
  import opened Framing
  import opened Messages
  import opened ClientModel

  // ---------- one message read from the stream ----------

  datatype Outcome = Outcome(core: Core, input: Input, out: Output, m: Msg, keep: bool)

  /** Handling the message `key` introduces; None when the key is unknown or its arguments are
      malformed or missing, and then nothing but the input has changed. */
  function Answer(c: Core, i: Input, o: Output, key: Tag, a: Ambient): Option<Outcome> {
    match ParseMessage(key, i.All())
    case None => None
    case Some(p) =>
      ParsedLeavesSuffix(key, i.All());
      var h := Handle(c, p.m, a);
      var w := WriteFrames(o, h.replies);
      Some(Outcome(h.core, i.Drop(|i.All()| - |p.rest|), w.0, p.m, h.keep && w.1))
  }

  lemma ParsedLeavesSuffix(key: Tag, b: Bytes)
    requires ParseMessage(key, b).Some?
    ensures |ParseMessage(key, b).value.rest| <= |b|
    ensures b[|b| - |ParseMessage(key, b).value.rest|..] == ParseMessage(key, b).value.rest
  {
    hide ParseMessage, EncodedArgs;
    ParsedReencodes(key, b);
  }

  /** After a message in the running phase the client sends a no-op. */
  function NoopAfter(c: Core): seq<Bytes> {
    if c.session.handshakeDone then [NOOP_PAYLOAD] else []
  }

  // ---------- the loop ----------

  /** The state at a loop head. Once `going` is false the stream is closed and `input` is meaningless. */
  datatype Loop = Loop(core: Core, input: Input, out: Output, log: seq<Msg>, going: bool)

  /** One iteration: a frame, pushed back, its key, the handler, the no-op. */
  function Iterate(l: Loop, a: Ambient): Loop {
    var f := l.input.Frame();
    var h := f.left.Push(f.data).Exact(4);
    if !l.going then l
    else if !f.ok || !h.ok then l.(going := false)
    else
      match Answer(l.core, h.left, l.out, TagOf(h.data), a)
      case None => l.(going := false)
      case Some(r) =>
        var w := WriteFrames(r.out, if r.keep then NoopAfter(r.core) else []);
        Loop(r.core, r.input, w.0, l.log + [r.m], r.keep && w.1)
  }

  /** The iterations for which the stop flag was found unset, with what each of them observed. */
  function Iterations(l: Loop, samples: seq<Ambient>): Loop
    decreases |samples|
  {
    if samples == [] then l else Iterations(Iterate(l, samples[0]), samples[1..])
  }

  lemma {:induction false} IterationsAppend(l: Loop, samples: seq<Ambient>, a: Ambient)
    ensures Iterations(l, samples + [a]) == Iterate(Iterations(l, samples), a)
    decreases |samples|
  {
    hide Iterate;
    if samples == [] {
      assert ([a])[1..] == [];
    } else {
      assert (samples + [a])[1..] == samples[1..] + [a];
      IterationsAppend(Iterate(l, samples[0]), samples[1..], a);
    }
  }

  lemma {:induction false} StoppedStays(l: Loop, samples: seq<Ambient>)
    requires !l.going
    ensures Iterations(l, samples) == l
    decreases |samples|
  {
    if samples != [] {
      StoppedStays(l, samples[1..]);
    }
  }

  /** An iteration that goes on has consumed at least the length prefix and the key. */
  lemma IterationConsumes(l: Loop, a: Ambient)
    requires l.going
    ensures Iterate(l, a).going ==> |Iterate(l, a).input.All()| + 8 <= |l.input.All()|
  {
    hide Answer, BigEndian, Number;
    if Iterate(l, a).going {
      var f := l.input.Frame();
      ExactSplits(l.input, 4);
      ExactSplits(l.input.Exact(4).left, Number(l.input.Exact(4).data));
      var pushed := f.left.Push(f.data);
      ExactSplits(pushed, 4);
      AnswerConsumes(l.core, pushed.Exact(4).left, l.out, TagOf(pushed.Exact(4).data), a);
    }
  }

  lemma AnswerConsumes(c: Core, i: Input, o: Output, key: Tag, a: Ambient)
    requires Answer(c, i, o, key, a).Some?
    ensures |Answer(c, i, o, key, a).value.input.All()| <= |i.All()|
  {
    hide Handle;
    ParsedLeavesSuffix(key, i.All());
  }
}
