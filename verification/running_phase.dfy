// When a client begins to send no-ops: with the first options message of its life, not of a connection.
module RunningPhase {
  import opened ByteOrder
  import opened Sockets
  import opened Framing
  import opened Formats
  import opened CodecLaws
  import opened Messages
  import opened ClientModel
  import opened MessageLoop
  import opened Connections
  import opened LoopRefinement
  import opened Conversation
  import opened Verdicts
  import opened Runs
  import opened Pointing

  // ---------- the running phase ----------

  ghost predicate OptionsAmong(ms: seq<Msg>) {
    exists i :: 0 <= i < |ms| && ms[i].SetOptions?
  }

  lemma OptionsAppend(ms: seq<Msg>, m: Msg)
    ensures OptionsAmong(ms + [m]) <==> OptionsAmong(ms) || m.SetOptions?
  {
    var all := ms + [m];
    assert all[|ms|] == m;
    assert forall i :: 0 <= i < |ms| ==> all[i] == ms[i];
  }

  lemma {:induction false} PhaseOverRuns(c: Core, xs: seq<Action>)
    ensures Run(c, xs).session.handshakeDone <==> c.session.handshakeDone || OptionsAmong(MessagesOf(xs))
  {
    hide Handle, OptionsAmong;
    if xs == [] {
      NoOptions();
    } else {
      var front, x := xs[..|xs| - 1], xs[|xs| - 1];
      PhaseOverRuns(c, front);
      if x.Received? {
        PhaseFollowsOptions(Run(c, front), x.m, x.a);
        OptionsAppend(MessagesOf(front), x.m);
        assert MessagesOf(xs) == MessagesOf(front) + [x.m];
      } else {
        assert MessagesOf(xs) == MessagesOf(front);
      }
    }
  }

  lemma NoOptions()
    ensures !OptionsAmong([])
  {
  }

  /** A worker's client is in the running phase, in which every message is followed by a no-op, if and only
      if it was before or an options message has been parsed in any of the attempts so far. */
  lemma WorkerPhaseFollowsOptions(c: Core, ts: seq<Attempt>)
    ensures AfterAttempts(c, ts).session.handshakeDone
      <==> c.session.handshakeDone || OptionsAmong(MessagesIn(c, ts))
  {
    hide Run, AfterAttempts, MessagesIn, SamplesIn, MessagesOf, SamplesOf, OptionsAmong;
    var xs := AttemptsAreActions(c, ts);
    PhaseOverRuns(c, xs);
  }

  // ---------- no-ops before the options ----------

  const HELLO: Hello := Hello([66, 97, 114, 114, 105, 101, 114], 1, 8)

  /** An attempt on which the server sends the hello and one message, with nothing to stop the worker. */
  function OneMessageAttempt(m: Msg, a: Ambient): Attempt {
    Attempt(Offered(HELLO, [m], [], 100), [a], false, true, false)
  }

  lemma NoNumbersEncode()
    ensures var none: seq<uint32> := [];
      && Matches([Ints(4)], [Nums(none)]) && Safe([Ints(4)], [Nums(none)])
      && |Encode([Ints(4)], [Nums(none)])| == 4
  {
    hide BigEndian;
    assert Matches([], []) && Encode([], []) == [];
  }

  lemma OptionsAreShort()
    ensures Sendable(SetOptions([]))
  {
    hide Encode, Safe, Matches;
    NoNumbersEncode();
    assert Items(SetOptionsKind) == [Ints(4)];
    var none: seq<uint32> := [];
    assert Args(SetOptions([])) == [Nums(none)];
  }

  lemma InfoAckIsShort()
    ensures Sendable(InfoAck)
  {
    assert Items(InfoAckKind) == [] && Args(InfoAck) == [];
  }

  lemma HelloBackSize()
    ensures |HelloBack(HELLO, [])| == 15
  {
    hide BigEndian, Pad;
    var items, args := HELLO_BACK_ITEMS, HelloBackArgs(HELLO, []);
    HelloBackArgsMatch(HELLO, []);
    assert items[1..] == [Int(2), Int(2), Text] && items[1..][1..] == [Int(2), Text];
    assert items[1..][1..][1..] == [Text] && items[1..][1..][1..][1..] == [];
    assert args[1..][1..][1..] == [Str([])] && args[1..][1..][1..][1..] == [];
    assert Matches([], []) && Encode([], []) == [];
    assert Matches([Text], [Str([])]) && |Encode([Text], [Str([])])| == 4;
  }

  /** The hello back and one no-op fit the room. */
  lemma AnswerFits()
    ensures WriteFrames(Output([], 100), [HelloBack(HELLO, []), NOOP_PAYLOAD]).1
  {
    hide HelloBack, BigEndian, WriteFrames;
    HelloBackSize();
    var all := [HelloBack(HELLO, []), NOOP_PAYLOAD];
    var none: seq<Bytes> := [];
    assert all[1..] == [NOOP_PAYLOAD] && all[1..][1..] == none;
    assert |NOOP_PAYLOAD| == 4 && Frames(none) == [];
    assert Frames([NOOP_PAYLOAD]) == Framed(NOOP_PAYLOAD) + Frames(none);
    assert Frames(all) == Framed(all[0]) + Frames([NOOP_PAYLOAD]);
    assert |Frames(all)| == 27;
    WriteFramesSendsFrames(Output([], 100), all);
  }

  /** One such attempt by a client without a name: the message is handled and what is written is the hello
      back and a no-op, if the running phase has begun before or the message begins it. */
  lemma OneMessageAnswered(c: Core, m: Msg, a: Ambient)
    requires c.screen.name == [] && Sendable(m) && !IsVerdict(m) && !IsQuery(m)
    requires c.session.handshakeDone || m.SetOptions?
    ensures var l := Attempted(c, OneMessageAttempt(m, a).link, [a]);
      l.going && l.log == [m] && Payloads(Input([], l.out.sent)) == [HelloBack(HELLO, []), NOOP_PAYLOAD]
  {
    hide Attempted, Offered, WriteFrames, HelloBack, Handle, Payloads, Sendable;
    WellFormedConversation(c, HELLO, [m], [], 100, [a]);
    assert [m][..1] == [m] && [a][..1] == [a] && [m][1..] == [] && [a][1..] == [];
    assert BeforeVerdict([]) == 0 && BeforeVerdict([m]) == 1;
    assert Expected(c, [m], [a], c.session.handshakeDone) == [NOOP_PAYLOAD];
    assert WholeAnswer(c, HELLO, [m], [a]) == [HelloBack(HELLO, []), NOOP_PAYLOAD];
    AnswerFits();
    WrittenIsReadBack(100, [HelloBack(HELLO, []), NOOP_PAYLOAD]);
  }

  /** A worker's second connection on which no options message arrives at all: the server has set the
      options on the first, and its only message on the second is followed by a no-op. */
  lemma NoopBeforeOptions(a: Ambient)
    ensures var first, second := OneMessageAttempt(SetOptions([]), a), OneMessageAttempt(InfoAck, a);
      var c := AfterAttempt(INITIAL, first);
      && IsWorkerRun(INITIAL, [first, second])
      && MessagesDuring(c, second) == [InfoAck]
      && Payloads(Input([], Attempted(Begun(c), second.link, second.samples).out.sent))
         == [HelloBack(HELLO, []), NOOP_PAYLOAD]
  {
    hide Attempted, Sendable, HelloBack, Payloads, GoesOn, Handle;
    InfoAckIsShort();
    var first, second := OneMessageAttempt(SetOptions([]), a), OneMessageAttempt(InfoAck, a);
    FirstGoesOn(a);
    AfterFirst(a);
    OneMessageAnswered(Begun(AfterAttempt(INITIAL, first)), InfoAck, a);
    assert [first, second][..0] == [] && AfterAttempts(INITIAL, []) == INITIAL;
  }

  lemma FirstGoesOn(a: Ambient)
    ensures GoesOn(INITIAL, OneMessageAttempt(SetOptions([]), a))
  {
    hide Greeted, Iterations, GoesOn, HelloMismatch, Payloads, Sendable;
    var first := OneMessageAttempt(SetOptions([]), a);
    OptionsAreShort();
    OneMessageAnswered(Begun(INITIAL), SetOptions([]), a);
    GoesOnExactlyUnlessFatal(INITIAL, first);
    GreetingFlag(INITIAL, first.link);
    if !Greeted(Begun(INITIAL), first.link).going {
      StoppedStays(Greeted(Begun(INITIAL), first.link), [a]);
    }
  }

  lemma AfterFirst(a: Ambient)
    ensures var c := AfterAttempt(INITIAL, OneMessageAttempt(SetOptions([]), a));
      c.session.handshakeDone && c.screen.name == []
  {
    hide Attempted, AfterAttempt, Run, MessagesOf, SamplesOf, Payloads, Sendable;
    OptionsAreShort();
    OneMessageAnswered(Begun(INITIAL), SetOptions([]), a);
    var xs := AttemptIsActions(INITIAL, OneMessageAttempt(SetOptions([]), a));
    PhaseOverRuns(INITIAL, xs);
    assert [SetOptions([])][0].SetOptions?;
    PointerFollowsMessages(INITIAL, xs);
  }
}
