// Length-prefixed framing is uniquely decodable.
module Framing {
  import opened ByteOrder
  import opened Sockets

  function Frames(payloads: seq<Bytes>): Bytes {
    if payloads == [] then [] else Framed(payloads[0]) + Frames(payloads[1..])
  }

  ghost predicate Frameable(payloads: seq<Bytes>) {
    forall i :: 0 <= i < |payloads| ==> |payloads[i]| <= MAX_FRAME
  }

  /** What repeated readFrame calls return before the first one that fails. */
  function Payloads(i: Input): seq<Bytes>
    decreases |i.buf| + |i.net|
  {
    var r := i.Frame();
    if r.ok then [r.data] + Payloads(r.left) else []
  }

  /** Repeated writeFrame calls, stopping at the first that fails. */
  function WriteFrames(o: Output, payloads: seq<Bytes>): (r: (Output, bool))
    decreases |payloads|
  {
    if payloads == [] then (o, true)
    else if !o.FrameFits(payloads[0]) then (o.PutFrame(payloads[0]), false)
    else WriteFrames(o.PutFrame(payloads[0]), payloads[1..])
  }

  lemma LengthPrefix(p: Bytes)
    requires |p| <= MAX_FRAME
    ensures Number(BigEndian(|p|, 4)) == |p|
  {
    hide BigEndian, Number;
    PrefixReads(|p|, []);
    assert (BigEndian(|p|, 4) + [])[..4] == BigEndian(|p|, 4);
  }

  /** Reading back one frame, wherever the boundary between buffer and socket falls. */
  lemma FrameReadsBack(i: Input, p: Bytes, rest: Bytes)
    requires |p| <= MAX_FRAME
    requires i.All() == Framed(p) + rest
    ensures i.Frame().ok && i.Frame().data == p && i.Frame().left.All() == rest
    ensures i.buf == [] ==> i.Frame().left == Input([], rest)
  {
    hide BigEndian, Number;
    LengthPrefix(p);
    var head := i.Exact(4);
    assert head.data == BigEndian(|p|, 4);
    assert head.left.All() == p + rest;
    assert head.left.Exact(|p|).data == p;
    assert (p + rest)[|p|..] == rest;
  }

  /** Repeated readFrame on the bytes of repeated writeFrame returns the list written. */
  lemma {:induction false} FramesReadBack(i: Input, payloads: seq<Bytes>)
    requires Frameable(payloads)
    requires i.All() == Frames(payloads)
    ensures Payloads(i) == payloads
    decreases |payloads|
  {
    hide BigEndian, Number;
    if payloads != [] {
      FrameReadsBack(i, payloads[0], Frames(payloads[1..]));
      FramesReadBack(i.Frame().left, payloads[1..]);
    }
  }

  /** Two different lists of payloads never give the same bytes. */
  lemma FramesAreInjective(a: seq<Bytes>, b: seq<Bytes>)
    requires Frameable(a) && Frameable(b)
    ensures Frames(a) == Frames(b) <==> a == b
  {
    hide BigEndian, Number;
    if Frames(a) == Frames(b) {
      FramesReadBack(Input([], Frames(a)), a);
      FramesReadBack(Input([], Frames(b)), b);
    }
  }

  /** What is left after the last complete frame. */
  function Leftover(i: Input): Bytes
    decreases |i.buf| + |i.net|
  {
    if i.Frame().ok then Leftover(i.Frame().left) else i.All()
  }

  lemma FrameReencodes(i: Input)
    requires i.Frame().ok
    ensures i.All() == Framed(i.Frame().data) + i.Frame().left.All()
    ensures |i.Frame().data| <= MAX_FRAME
    ensures |i.Frame().left.buf| + |i.Frame().left.net| < |i.buf| + |i.net|
  {
    hide BigEndian, Number, Input.Exact, Input.All;
    var head := i.Exact(4);
    ExactSplits(i, 4);
    var n := Number(head.data);
    ExactSplits(head.left, n);
    BigEndianOfNumber(head.data);
    var body := head.left.Exact(n);
    assert head.data + (body.data + body.left.All()) == head.data + body.data + body.left.All();
  }

  /** Whatever arrives, the frames read are exactly the bytes consumed, and each respects the limit. */
  lemma {:induction false} PayloadsReencode(i: Input)
    ensures Frameable(Payloads(i))
    ensures i.All() == Frames(Payloads(i)) + Leftover(i)
    decreases |i.buf| + |i.net|
  {
    hide Framed, Input.Frame, Input.All;
    if i.Frame().ok {
      var data, left := i.Frame().data, i.Frame().left;
      FrameReencodes(i);
      PayloadsReencode(left);
      assert Payloads(i)[1..] == Payloads(left);
      assert Framed(data) + (Frames(Payloads(left)) + Leftover(left)) == i.All();
    }
  }

  lemma {:induction false} FramesConcat(a: seq<Bytes>, b: seq<Bytes>)
    ensures Frames(a + b) == Frames(a) + Frames(b)
  {
    hide BigEndian, Number;
    if a == [] {
      assert a + b == b;
    } else {
      assert (a + b)[1..] == a[1..] + b;
      FramesConcat(a[1..], b);
    }
  }

  /** A list of frames goes out as its bytes; it is refused exactly at an oversize frame or when the
      peer has no room for all of them. */
  lemma {:induction false} WriteFramesSendsFrames(o: Output, payloads: seq<Bytes>)
    ensures WriteFrames(o, payloads).1 <==> Frameable(payloads) && o.Fits(Frames(payloads))
    ensures Frameable(payloads) ==> WriteFrames(o, payloads).0 == o.Put(Frames(payloads))
    decreases |payloads|
  {
    hide BigEndian, Number;
    if payloads == [] {
      assert o.Put([]) == o;
    } else {
      var p, rest := payloads[0], payloads[1..];
      PutTwice(o, Framed(p), Frames(rest));
      assert Frameable(payloads) <==> |p| <= MAX_FRAME && Frameable(rest) by {
        assert payloads == [p] + rest;
      }
      if o.FrameFits(p) {
        WriteFramesSendsFrames(o.PutFrame(p), rest);
      } else if |p| <= MAX_FRAME {
        var full := o.Put(Framed(p));
        assert full.Put(Frames(rest)) == full;
      }
    }
  }

  lemma WriteFramesConcat(o: Output, a: seq<Bytes>, b: seq<Bytes>)
    requires WriteFrames(o, a).1
    ensures WriteFrames(o, a + b) == WriteFrames(WriteFrames(o, a).0, b)
    decreases |a|
  {
    hide BigEndian, Number;
    if a == [] {
      assert a + b == b;
    } else {
      assert (a + b)[1..] == a[1..] + b;
      WriteFramesConcat(o.PutFrame(a[0]), a[1..], b);
    }
  }

  lemma WriteOneFrame(o: Output, payload: Bytes)
    ensures WriteFrames(o, [payload]) == (o.PutFrame(payload), o.FrameFits(payload))
    ensures WriteFrames(o, []) == (o, true)
  {
    hide Output.PutFrame, Output.FrameFits;
    assert [payload][1..] == [];
  }

  /** After a frame that cannot be written nothing more is sent. */
  lemma {:induction false} WriteFramesStops(o: Output, a: seq<Bytes>, b: seq<Bytes>)
    requires !WriteFrames(o, a).1
    ensures WriteFrames(o, a + b) == WriteFrames(o, a)
    decreases |a|
  {
    hide Output.PutFrame, Output.FrameFits;
    assert (a + b)[1..] == a[1..] + b;
    if o.FrameFits(a[0]) {
      WriteFramesStops(o.PutFrame(a[0]), a[1..], b);
    }
  }

  /** Writing one more frame if everything before it could be written. */
  lemma WriteFramesAppend(o: Output, a: seq<Bytes>, payload: Bytes)
    ensures WriteFrames(o, a + [payload])
         == if WriteFrames(o, a).1 then WriteFrames(WriteFrames(o, a).0, [payload]) else WriteFrames(o, a)
  {
    hide WriteFrames;
    if WriteFrames(o, a).1 {
      WriteFramesConcat(o, a, [payload]);
    } else {
      WriteFramesStops(o, a, [payload]);
    }
  }

  // ---------- the limit and the push-back buffer ----------

  /** A frame is read, and written when there is room, exactly up to 4 MiB. */
  lemma FrameLimitIsExact(p: Bytes, rest: Bytes, o: Output)
    requires |p| < 0x1_0000_0000 && o.room >= |p| + 4
    ensures Input([], Framed(p) + rest).Frame().ok <==> |p| <= 4_194_304
    ensures o.FrameFits(p) <==> |p| <= 4_194_304
  {
    hide BigEndian, Number;
    var i := Input([], Framed(p) + rest);
    assert i.All() == Framed(p) + rest;
    if |p| <= MAX_FRAME {
      FrameReadsBack(i, p, rest);
    } else {
      PrefixReads(|p|, p + rest);
      assert i.All() == BigEndian(|p|, 4) + (p + rest);
    }
  }

  /** What is pushed back is read after what was pushed back before and ahead of anything on the socket. */
  lemma PushedIsReadNext(i: Input, data: Bytes)
    ensures var before := i.Push(data).Exact(|i.buf|);
      var now := before.left.Exact(|data|);
      && before.ok && before.data == i.buf && now.ok && now.data == data && now.left == Input([], i.net)
  {
    var before := i.Push(data).Exact(|i.buf|);
    ExactCases(i.Push(data), |i.buf|);
    assert (i.buf + data)[..|i.buf|] == i.buf && (i.buf + data)[|i.buf|..] == data;
    ExactCases(Input(data, i.net), |data|);
    assert data[..|data|] == data && data[|data|..] == [];
  }
}
