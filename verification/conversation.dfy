// What a client says on a connection: one hello back, then the answer to each message and the no-ops.
module Conversation {
  import opened ByteOrder
  import opened Sockets
  import opened Framing
  import opened Formats
  import opened CodecLaws
  import opened Messages
  import opened ClientModel
  import opened Effects
  import opened MessageLoop
  import opened Connections
  import opened LoopRefinement

  // ---------- what is expected, told from the messages alone ----------

  /** The answer a message asks for: screen information, an echo, or none. */
  function AnswerTo(c: Core, m: Msg): seq<Bytes> {
    match m
    case QueryInfo => [InfoPayload(c)]
    case KeepAlive => [KEEP_ALIVE_PAYLOAD]
    case _ => []
  }

  /** A message's answer, followed by a no-op once the options have been set, that message included. */
  function ExpectedOnce(c: Core, m: Msg, optionsSet: bool): seq<Bytes> {
    AnswerTo(c, m) + (if optionsSet || m.SetOptions? then [NOOP_PAYLOAD] else [])
  }

  /** The answers and no-ops expected of a list of messages. */
  function Expected(c: Core, ms: seq<Msg>, samples: seq<Ambient>, optionsSet: bool): seq<Bytes>
    requires |ms| == |samples|
    decreases |ms|
  {
    if ms == [] then []
    else
      ExpectedOnce(c, ms[0], optionsSet)
      + Expected(Handle(c, ms[0], samples[0]).core, ms[1..], samples[1..], optionsSet || ms[0].SetOptions?)
  }

  // ---------- what is said ----------

  lemma RepliesAreAnswers(c: Core, m: Msg, a: Ambient)
    ensures Handle(c, m, a).replies == AnswerTo(c, m)
  {
    hide Entered, Departed, PointerTo, PointerBy, ButtonTo, Wheeled, KeyTo, ReceiveChunk, InfoPayload;
  }

  /** The running phase begins with the options message and with nothing else; reconnecting is given up
      by a fatal message and by nothing else. */
  lemma PhaseFollowsOptions(c: Core, m: Msg, a: Ambient)
    ensures Handle(c, m, a).core.session.handshakeDone <==> c.session.handshakeDone || m.SetOptions?
    ensures Handle(c, m, a).core.session.shouldReconnect <==> c.session.shouldReconnect && !IsFatal(m)
  {
    hide Handle, PointerEvents, ButtonsAfter, Told;
    var _ := HandleChanges(c, m, a);
  }

  /** Exactly the refusals and farewells end the loop by themselves. */
  lemma VerdictsEndTheLoop(c: Core, m: Msg, a: Ambient)
    ensures Handle(c, m, a).keep <==> !IsVerdict(m)
  {
    hide Entered, Departed, PointerTo, PointerBy, ButtonTo, Wheeled, KeyTo, ReceiveChunk, InfoPayload;
  }

  /** How many messages come before the first one that ends the loop by itself. */
  function BeforeVerdict(ms: seq<Msg>): (k: nat)
    ensures k <= |ms| && (k < |ms| ==> IsVerdict(ms[k]))
    ensures forall i :: 0 <= i < k ==> !IsVerdict(ms[i])
  {
    if ms == [] || IsVerdict(ms[0]) then 0 else 1 + BeforeVerdict(ms[1..])
  }

  lemma OneIsAsExpected(p: Progress, m: Msg, a: Ambient)
    requires p.going
    ensures var q := HandleOne(p, m, a);
      var w := WriteFrames(p.out, ExpectedOnce(p.core, m, p.core.session.handshakeDone));
      && q.core == Handle(p.core, m, a).core && q.log == p.log + [m]
      && q.core.session.handshakeDone == (p.core.session.handshakeDone || m.SetOptions?)
      && (q.going <==> !IsVerdict(m) && w.1)
      && q.out == if IsVerdict(m) then p.out else w.0
  {
    hide Handle, WriteFrames, InfoPayload, AnswerTo, IsVerdict;
    RepliesAreAnswers(p.core, m, a);
    PhaseFollowsOptions(p.core, m, a);
    VerdictsEndTheLoop(p.core, m, a);
    QuietHandlersWriteNothing(p.core, m, a);
    WriteOneFrame(p.out, []);
  }

  /** What is expected of the first `n` messages, one or more: that of the first, then of the others. */
  lemma ExpectedFirst(p: Progress, ms: seq<Msg>, samples: seq<Ambient>, n: nat)
    requires |ms| == |samples| && p.going && 1 <= n <= |ms|
    ensures var q := HandleOne(p, ms[0], samples[0]);
      Expected(p.core, ms[..n], samples[..n], p.core.session.handshakeDone)
      == ExpectedOnce(p.core, ms[0], p.core.session.handshakeDone)
         + Expected(q.core, ms[1..][..n - 1], samples[1..][..n - 1], q.core.session.handshakeDone)
  {
    hide Handle, WriteFrames, HandleOne, AnswerTo, IsVerdict;
    OneIsAsExpected(p, ms[0], samples[0]);
    assert ms[..n][1..] == ms[1..][..n - 1] && samples[..n][1..] == samples[1..][..n - 1];
  }

  /** However the loop ends, what has been written is what is expected of the messages before the first
      verdict, or as much of it as the peer took; the loop goes on if and only if there is no verdict and
      the peer took it all. */
  lemma {:induction false} SaysWhatIsExpected(p: Progress, ms: seq<Msg>, samples: seq<Ambient>)
    requires |ms| == |samples| && p.going
    ensures var k, q := BeforeVerdict(ms), HandleAll(p, ms, samples);
      var w := WriteFrames(p.out, Expected(p.core, ms[..k], samples[..k], p.core.session.handshakeDone));
      && q.out == w.0
      && (q.going <==> k == |ms| && w.1)
    decreases |ms|
  {
    hide Handle, WriteFrames, HandleOne, AnswerTo, IsVerdict;
    WriteOneFrame(p.out, []);
    if ms != [] {
      var q := HandleOne(p, ms[0], samples[0]);
      OneIsAsExpected(p, ms[0], samples[0]);
      var k := BeforeVerdict(ms);
      if k > 0 {
        var once := ExpectedOnce(p.core, ms[0], p.core.session.handshakeDone);
        var later := Expected(q.core, ms[1..][..k - 1], samples[1..][..k - 1], q.core.session.handshakeDone);
        ExpectedFirst(p, ms, samples, k);
        if q.going {
          SaysWhatIsExpected(q, ms[1..], samples[1..]);
          WriteFramesConcat(p.out, once, later);
        } else {
          FinishedStays(q, ms[1..], samples[1..]);
          WriteFramesStops(p.out, once, later);
        }
      } else {
        FinishedStays(q, ms[1..], samples[1..]);
      }
    }
  }

  /** The first `n` of the messages have been handled: up to and including the first verdict, or up to and
      including the first whose answer or no-op the peer did not take. */
  ghost predicate HandledUpTo(p: Progress, ms: seq<Msg>, samples: seq<Ambient>, n: nat)
    requires |ms| == |samples|
  {
    var k, begun := BeforeVerdict(ms), p.core.session.handshakeDone;
    && n <= |ms|
    && (if WriteFrames(p.out, Expected(p.core, ms[..k], samples[..k], begun)).1 then
          n == if k < |ms| then k + 1 else k
        else
          && 0 < n <= k
          && WriteFrames(p.out, Expected(p.core, ms[..n - 1], samples[..n - 1], begun)).1
          && !WriteFrames(p.out, Expected(p.core, ms[..n], samples[..n], begun)).1)
  }

  lemma {:induction false} LogsWhatIsHandled(p: Progress, ms: seq<Msg>, samples: seq<Ambient>) returns (n: nat)
    requires |ms| == |samples| && p.going
    ensures n <= |ms| && HandledUpTo(p, ms, samples, n)
    ensures HandleAll(p, ms, samples).log == p.log + ms[..n]
    decreases |ms|
  {
    hide Handle, WriteFrames, HandleOne, ExpectedOnce, IsVerdict, Expected, HandledUpTo;
    if ms == [] {
      n := 0;
      NothingHandled(p);
      assert p.log + [] == p.log;
    } else {
      var q := HandleOne(p, ms[0], samples[0]);
      OneIsAsExpected(p, ms[0], samples[0]);
      if q.going {
        var later := LogsWhatIsHandled(q, ms[1..], samples[1..]);
        n := 1 + later;
        assert p.log + [ms[0]] + ms[1..][..later] == p.log + ms[..n];
        HandledOneMore(p, ms, samples, later);
      } else {
        n := 1;
        FinishedStays(q, ms[1..], samples[1..]);
        assert ms[..1] == [ms[0]];
        HandledLast(p, ms, samples);
      }
    }
  }

  lemma NothingHandled(p: Progress)
    ensures HandledUpTo(p, [], [], 0)
  {
    WriteOneFrame(p.out, []);
  }

  lemma HandledOneMore(p: Progress, ms: seq<Msg>, samples: seq<Ambient>, later: nat)
    requires |ms| == |samples| && p.going && ms != []
    ensures var q := HandleOne(p, ms[0], samples[0]);
      q.going && HandledUpTo(q, ms[1..], samples[1..], later) ==> HandledUpTo(p, ms, samples, 1 + later)
  {
    hide WriteFrames, HandleOne, IsVerdict, Expected;
    var q := HandleOne(p, ms[0], samples[0]);
    if q.going && HandledUpTo(q, ms[1..], samples[1..], later) {
      OneIsAsExpected(p, ms[0], samples[0]);
      WrittenFirst(p, ms, samples, BeforeVerdict(ms));
      WrittenFirst(p, ms, samples, 1 + later);
      if later > 0 {
        WrittenFirst(p, ms, samples, later);
      }
    }
  }

  lemma HandledLast(p: Progress, ms: seq<Msg>, samples: seq<Ambient>)
    requires |ms| == |samples| && p.going && ms != [] && !HandleOne(p, ms[0], samples[0]).going
    ensures HandledUpTo(p, ms, samples, 1)
  {
    hide WriteFrames, HandleOne, IsVerdict, ExpectedOnce;
    var q, k := HandleOne(p, ms[0], samples[0]), BeforeVerdict(ms);
    var once := ExpectedOnce(p.core, ms[0], p.core.session.handshakeDone);
    OneIsAsExpected(p, ms[0], samples[0]);
    WriteOneFrame(p.out, []);
    if k > 0 {
      ExpectedFirst(p, ms, samples, k);
      ExpectedFirst(p, ms, samples, 1);
      assert once + [] == once;
      WriteFramesStops(p.out, once,
        Expected(q.core, ms[1..][..k - 1], samples[1..][..k - 1], q.core.session.handshakeDone));
    }
  }

  lemma WrittenFirst(p: Progress, ms: seq<Msg>, samples: seq<Ambient>, n: nat)
    requires |ms| == |samples| && p.going && 1 <= n <= |ms| && HandleOne(p, ms[0], samples[0]).going
    ensures var q := HandleOne(p, ms[0], samples[0]);
      WriteFrames(p.out, Expected(p.core, ms[..n], samples[..n], p.core.session.handshakeDone))
      == WriteFrames(q.out,
           Expected(q.core, ms[1..][..n - 1], samples[1..][..n - 1], q.core.session.handshakeDone))
  {
    hide Handle, WriteFrames, HandleOne, AnswerTo, IsVerdict, Expected, ExpectedOnce;
    var q := HandleOne(p, ms[0], samples[0]);
    OneIsAsExpected(p, ms[0], samples[0]);
    ExpectedFirst(p, ms, samples, n);
    WriteFramesConcat(p.out, ExpectedOnce(p.core, ms[0], p.core.session.handshakeDone),
      Expected(q.core, ms[1..][..n - 1], samples[1..][..n - 1], q.core.session.handshakeDone));
  }

  /** A server reads from the answer to its query an origin of 0,0, the screen's size, an unused 0 and the
      pointer, each modulo 2^16. */
  lemma InfoReadsBack(c: Core, rest: Bytes)
    ensures InfoPayload(c)[..4] == Tag('D', 'I', 'N', 'F').Octets()
    ensures Decode(INFO_ITEMS, InfoPayload(c)[4..] + rest)
         == Some(Decoded([Num(0), Num(0), Num(Truncate(c.screen.w, 2)), Num(Truncate(c.screen.h, 2)), Num(0),
                          Num(Truncate(c.pointerX, 2)), Num(Truncate(c.pointerY, 2))], rest))
  {
    hide Encode, Decode, Truncate, Safe, Matches, ReduceAll;
    InfoArgsMatch(c);
    InfoArgsSafe(c);
    InfoArgsReduced(c);
    assert InfoPayload(c)[4..] == Encode(INFO_ITEMS, InfoArgs(c));
    RoundTrip(INFO_ITEMS, InfoArgs(c), rest);
  }

  lemma InfoArgsReduced(c: Core)
    requires Matches(INFO_ITEMS, InfoArgs(c))
    ensures ReduceAll(INFO_ITEMS, InfoArgs(c))
         == [Num(0), Num(0), Num(Truncate(c.screen.w, 2)), Num(Truncate(c.screen.h, 2)), Num(0),
             Num(Truncate(c.pointerX, 2)), Num(Truncate(c.pointerY, 2))]
  {
    hide Truncate, Safe, Matches, ReduceAll;
    PairwiseMatches(INFO_ITEMS, InfoArgs(c));
    Pow256Values();
    TruncateFits(0, 2);
  }

  lemma InfoArgsSafe(c: Core)
    ensures Matches(INFO_ITEMS, InfoArgs(c)) && Safe(INFO_ITEMS, InfoArgs(c))
  {
    hide Matches;
    InfoArgsMatch(c);
  }

  // ---------- the greeting ----------

  lemma HelloArgsMatch(h: Hello)
    ensures Matches(HELLO_ITEMS, HelloArgs(h))
    ensures |h.name| == 7 ==> Safe(HELLO_ITEMS, HelloArgs(h))
  {
    PairwiseMatches(HELLO_ITEMS, HelloArgs(h));
  }

  function HelloArgs(h: Hello): seq<Value> {
    [Str(h.name), Num(h.major), Num(h.minor)]
  }

  /** The octets of the server's hello. */
  function HelloPayload(h: Hello): Bytes {
    HelloArgsMatch(h);
    Encode(HELLO_ITEMS, HelloArgs(h))
  }

  lemma HelloReadsBack(h: Hello, rest: Bytes)
    requires |h.name| == 7
    ensures ReadHello(HelloPayload(h) + rest) == Some((h, rest))
  {
    hide Encode, Decode, Truncate;
    HelloArgsMatch(h);
    RoundTrip(HELLO_ITEMS, HelloArgs(h), rest);
    PairwiseMatches(HELLO_ITEMS, HelloArgs(h));
    SignedReadsBack(h.major);
    SignedReadsBack(h.minor);
    var v := ReduceAll(HELLO_ITEMS, HelloArgs(h));
    assert v[0] == Reduce(HELLO_ITEMS[0], HelloArgs(h)[0]) == Str(h.name);
    assert v[1] == Reduce(HELLO_ITEMS[1], HelloArgs(h)[1]);
    assert v[2] == Reduce(HELLO_ITEMS[2], HelloArgs(h)[2]);
  }

  lemma HelloPayloadSize(h: Hello)
    ensures |HelloPayload(h)| == 11
  {
    hide BigEndian, Pad;
    var items, args := HELLO_ITEMS, HelloArgs(h);
    HelloArgsMatch(h);
    assert items[1..] == [Int(2), Int(2)] && items[1..][1..] == [Int(2)] && items[1..][1..][1..] == [];
    assert args[1..] == [Num(h.major), Num(h.minor)] && args[1..][1..] == [Num(h.minor)];
    assert args[1..][1..][1..] == [];
    assert Matches([], []) && Encode([], []) == [];
    assert Matches([Int(2)], [Num(h.minor)]) && |Encode([Int(2)], [Num(h.minor)])| == 2;
    assert Matches([Int(2), Int(2)], [Num(h.major), Num(h.minor)]);
    assert |Encode([Int(2), Int(2)], [Num(h.major), Num(h.minor)])| == 4;
  }

  /** A server reads from the hello back the same seven name octets, version 1, the lower of its own
      minor version and 8, and the screen name. */
  lemma HelloBackReadsBack(h: Hello, screenName: Bytes, rest: Bytes)
    requires |h.name| == 7 && |screenName| <= MAX_TEXT
    ensures Decode(HELLO_BACK_ITEMS, HelloBack(h, screenName) + rest)
         == Some(Decoded([Str(h.name), Num(1), Num(Truncate(if h.minor < 8 then h.minor else 8, 2)),
                          Str(screenName)], rest))
  {
    hide Encode, Decode, Truncate;
    var items, args := HELLO_BACK_ITEMS, HelloBackArgs(h, screenName);
    HelloBackArgsMatch(h, screenName);
    PairwiseMatches(items, args);
    RoundTrip(items, args, rest);
    var v := ReduceAll(items, args);
    assert v[0] == Reduce(items[0], args[0]) == Str(h.name);
    assert v[1] == Reduce(items[1], args[1]);
    assert v[2] == Reduce(items[2], args[2]);
    assert v[3] == Reduce(items[3], args[3]) == Str(screenName);
    Pow256Values();
    TruncateFits(1, 2);
    assert v == [v[0], v[1], v[2], v[3]];
  }

  /** A matching hello is answered, and the loop starts with exactly what follows its frame. */
  lemma GreetingAnswers(c: Core, h: Hello, rest: Bytes, room: nat)
    requires |h.name| == 7 && h.major == 1
    ensures var g := Greet(c, Input([], Framed(HelloPayload(h)) + rest), Output([], room));
      var w := WriteFrames(Output([], room), [HelloBack(h, c.screen.name)]);
      && g.going == w.1 && g.core == c && g.out == w.0 && g.log == []
      && (g.going ==> g.input == Input([], rest))
  {
    hide Framed, HelloPayload, HelloBack, ReadHello, WriteFrames, Input.Frame;
    var i := Input([], Framed(HelloPayload(h)) + rest);
    assert i.All() == Framed(HelloPayload(h)) + rest;
    HelloPayloadSize(h);
    FrameReadsBack(i, HelloPayload(h), rest);
    HelloReadsBack(h, rest);
    var pushed := i.Frame().left.Push(i.Frame().data);
    assert pushed == Input(HelloPayload(h), rest);
    assert pushed.Drop(|HelloPayload(h)|) == Input([], rest);
  }

  /** The connection on which the server sends a matching hello, the messages, each in one frame, and then
      anything. */
  function Offered(h: Hello, ms: seq<Msg>, tail: Bytes, room: nat): Link {
    Accepted(Framed(HelloPayload(h)) + (Frames(PayloadsOf(ms)) + tail), room)
  }

  /** The hello back, then what is expected of the messages before the first verdict. */
  function WholeAnswer(c: Core, h: Hello, ms: seq<Msg>, samples: seq<Ambient>): seq<Bytes>
    requires |ms| == |samples|
  {
    var k := BeforeVerdict(ms);
    [HelloBack(h, c.screen.name)] + Expected(c, ms[..k], samples[..k], c.session.handshakeDone)
  }

  lemma NothingExpected(c: Core, optionsSet: bool)
    ensures Expected(c, [], [], optionsSet) == []
  {
  }

  lemma HelloIsReceived(h: Hello, rest: Bytes)
    requires |h.name| == 7
    ensures ReceivedHello(Framed(HelloPayload(h)) + rest) == Some(h)
  {
    hide Framed, HelloPayload, ReadHello, Input.Frame;
    var i := Input([], Framed(HelloPayload(h)) + rest);
    assert i.All() == Framed(HelloPayload(h)) + rest;
    HelloPayloadSize(h);
    FrameReadsBack(i, HelloPayload(h), rest);
    HelloReadsBack(h, rest);
    assert i.Frame().left.Push(i.Frame().data) == Input(HelloPayload(h), rest);
  }

  /** A server of another protocol version gets no answer, and reconnecting is given up. */
  lemma OtherVersionIsRefused(c: Core, h: Hello, rest: Bytes, room: nat)
    requires |h.name| == 7 && h.major != 1
    ensures var g := Greet(c, Input([], Framed(HelloPayload(h)) + rest), Output([], room));
      !g.going && g.out == Output([], room) && !g.core.session.shouldReconnect && g.log == []
  {
    hide Framed, HelloPayload, ReadHello, Input.Frame, HelloBack, WriteFrames;
    var i := Input([], Framed(HelloPayload(h)) + rest);
    assert i.All() == Framed(HelloPayload(h)) + rest;
    HelloPayloadSize(h);
    FrameReadsBack(i, HelloPayload(h), rest);
    HelloReadsBack(h, rest);
    assert i.Frame().left.Push(i.Frame().data) == Input(HelloPayload(h), rest);
  }

  lemma ReceivedNameIsSeven(net: Bytes)
    ensures ReceivedHello(net).Some? ==> |ReceivedHello(net).value.name| == 7
  {
    hide ReadHello, Input.Frame;
    var f := Input([], net).Frame();
    if f.ok {
      NameIsSeven(f.left.Push(f.data).All());
    }
  }

  /** The greeting over any octets: what decides is the first frame. */
  lemma GreetingSays(c: Core, net: Bytes, room: nat)
    ensures var g := Greet(c, Input([], net), Output([], room));
      var hello := ReceivedHello(net);
      && g.log == []
      && (hello.None? || hello.value.major != 1 ==> !g.going && g.out == Output([], room))
      && (hello.Some? && hello.value.major == 1 ==>
           && (g.out, g.going) == WriteFrames(Output([], room), [HelloBack(hello.value, c.screen.name)])
           && g.core == c)
  {
    hide ReadHello, HelloBack, WriteFrames, Input.Frame;
    ReceivedNameIsSeven(net);
  }

  /** A whole connection, over any octets and however it ends. Without a matching hello nothing is written.
      With one, `ms` are the messages parsed, in order; written are the hello back and then exactly the
      answers and no-ops expected of those before the first verdict, or as much of this as the peer takes,
      and nothing else. On a client's first connection no-ops start with the options message; once it has
      had one, later connections start with no-ops at once. */
  lemma ConversationIsAsExpected(c: Core, net: Bytes, room: nat, samples: seq<Ambient>) returns (ms: seq<Msg>)
    ensures |ms| <= |samples| && Attempted(c, Accepted(net, room), samples).log == ms
    ensures var l, hello := Attempted(c, Accepted(net, room), samples), ReceivedHello(net);
      if hello.None? || hello.value.major != 1 then !l.going && ms == [] && l.out == Output([], room)
      else l.out == WriteFrames(Output([], room), WholeAnswer(c, hello.value, ms, samples[..|ms|])).0
  {
    hide HelloBack, WriteFrames, Greet, Iterations, HandleAll, Expected, ReceivedHello;
    GreetingSays(c, net, room);
    var g, hello := Greeted(c, Accepted(net, room)), ReceivedHello(net);
    if g.going {
      ms := LoopHandlesWhatItParses(g, samples);
      assert [] + ms == ms;
      var k := BeforeVerdict(ms);
      SaysWhatIsExpected(ProgressOf(g), ms, samples[..|ms|]);
      WriteFramesConcat(Output([], room), [HelloBack(hello.value, c.screen.name)],
        Expected(c, ms[..k], samples[..|ms|][..k], c.session.handshakeDone));
    } else {
      StoppedStays(g, samples);
      ms := [];
      if hello.Some? {
        NothingExpected(c, c.session.handshakeDone);
        assert [HelloBack(hello.value, c.screen.name)] + [] == [HelloBack(hello.value, c.screen.name)];
      }
    }
  }

  /** When the server sends a matching hello and well-formed messages, each in one frame, with anything after
      them: the client goes on after the messages if and only if there is no verdict among them and the peer
      took everything; then exactly they have been handled and what comes after them is left to read. */
  lemma WellFormedConversation(
    c: Core, h: Hello, ms: seq<Msg>, tail: Bytes, room: nat, samples: seq<Ambient>)
    requires |h.name| == 7 && h.major == 1
    requires AllSendable(ms) && |ms| == |samples|
    ensures var l := Attempted(c, Offered(h, ms, tail, room), samples);
      var w := WriteFrames(Output([], room), WholeAnswer(c, h, ms, samples));
      && l.out == w.0
      && (l.going <==> BeforeVerdict(ms) == |ms| && w.1)
      && (l.going ==> l.input == Input([], tail) && l.log == ms)
  {
    hide Framed, HelloPayload, HelloBack, WriteFrames, Greet, Iterations, HandleAll, Frames, Expected, PayloadsOf;
    var k := BeforeVerdict(ms);
    GreetingAnswers(c, h, Frames(PayloadsOf(ms)) + tail, room);
    var g := Greeted(c, Offered(h, ms, tail, room));
    var back, said := [HelloBack(h, c.screen.name)], Expected(c, ms[..k], samples[..k], c.session.handshakeDone);
    if g.going {
      LoopHandlesMessages(g, ms, tail, samples);
      SaysWhatIsExpected(ProgressOf(g), ms, samples);
      LogWhileGoing(ProgressOf(g), ms, samples);
      assert [] + ms == ms;
      WriteFramesConcat(Output([], room), back, said);
    } else {
      StoppedStays(g, samples);
      WriteFramesStops(Output([], room), back, said);
    }
  }

  /** What the server makes of it, over any octets: if it takes everything, it reads exactly the hello back
      and what is expected of the messages `ms` parsed, frame by frame; otherwise it has as many octets of
      this as it took. */
  lemma ConversationIsReadBack(c: Core, net: Bytes, room: nat, samples: seq<Ambient>) returns (ms: seq<Msg>)
    requires ReceivedHello(net).Some? && ReceivedHello(net).value.major == 1
    ensures |ms| <= |samples| && Attempted(c, Accepted(net, room), samples).log == ms
    ensures var sent := Attempted(c, Accepted(net, room), samples).out.sent;
      var all := WholeAnswer(c, ReceivedHello(net).value, ms, samples[..|ms|]);
      && (Frameable(all) ==> sent == Frames(all)[..Min(|Frames(all)|, room)])
      && (WriteFrames(Output([], room), all).1 ==> Payloads(Input([], sent)) == all)
  {
    hide Attempted, WriteFrames, Frames, Payloads, WholeAnswer, BeforeVerdict, ReceivedHello;
    ms := ConversationIsAsExpected(c, net, room, samples);
    WrittenIsReadBack(room, WholeAnswer(c, ReceivedHello(net).value, ms, samples[..|ms|]));
  }

  /** Which messages are handled: none if the peer does not take the hello back; else those up to and
      including the first verdict, or the first whose answer or no-op the peer does not take. */
  lemma ConversationHandles(
    c: Core, h: Hello, ms: seq<Msg>, tail: Bytes, room: nat, samples: seq<Ambient>) returns (n: nat)
    requires |h.name| == 7 && h.major == 1
    requires AllSendable(ms) && |ms| == |samples|
    ensures n <= |ms| && Attempted(c, Offered(h, ms, tail, room), samples).log == ms[..n]
    ensures var back := WriteFrames(Output([], room), [HelloBack(h, c.screen.name)]);
      if back.1 then HandledUpTo(Progress(c, back.0, [], true), ms, samples, n) else n == 0
  {
    hide Framed, HelloPayload, HelloBack, WriteFrames, Greet, Iterations, HandleAll, Frames, Expected, PayloadsOf;
    GreetingAnswers(c, h, Frames(PayloadsOf(ms)) + tail, room);
    var g := Greeted(c, Offered(h, ms, tail, room));
    if g.going {
      LoopHandlesMessages(g, ms, tail, samples);
      n := LogsWhatIsHandled(ProgressOf(g), ms, samples);
      assert [] + ms[..n] == ms[..n];
    } else {
      StoppedStays(g, samples);
      n := 0;
    }
  }

  lemma WrittenIsReadBack(room: nat, all: seq<Bytes>)
    ensures var w := WriteFrames(Output([], room), all);
      && (Frameable(all) ==> w.0.sent == Frames(all)[..Min(|Frames(all)|, room)])
      && (w.1 ==> Payloads(Input([], w.0.sent)) == all)
  {
    hide WriteFrames, Frames, Payloads;
    WriteFramesSendsFrames(Output([], room), all);
    if WriteFrames(Output([], room), all).1 {
      var sent := WriteFrames(Output([], room), all).0.sent;
      assert sent == Frames(all);
      FramesReadBack(Input([], sent), all);
    }
  }
}
