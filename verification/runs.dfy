// Everything that can happen to a client over its whole life, as a list of actions.
module Runs {
  import opened ByteOrder
  import opened Sockets
  import opened Framing
  import opened Messages
  import opened ClientModel
  import opened MessageLoop
  import opened Connections
  import opened LoopRefinement

  /** A message handled, a connection attempt begun, a hello refused, a local text pushed, the screen's size
      set. */
  datatype Action =
    | Received(m: Msg, a: Ambient)
    | AttemptBegun
    | HelloRefused
    | Pushed(text: Bytes)
    | Resized(w: int, h: int)

  function Perform(c: Core, x: Action): Core {
    match x
    case Received(m, a) => Handle(c, m, a).core
    case AttemptBegun => Begun(c)
    case HelloRefused => c.(session := c.session.(shouldReconnect := false))
    case Pushed(text) => c.(board := c.board.(lastText := text))
    case Resized(w, h) => Resize(c, w, h)
  }

  function Run(c: Core, xs: seq<Action>): Core {
    if xs == [] then c else Perform(Run(c, xs[..|xs| - 1]), xs[|xs| - 1])
  }

  lemma {:induction false} RunConcat(c: Core, xs: seq<Action>, ys: seq<Action>)
    ensures Run(c, xs + ys) == Run(Run(c, xs), ys)
  {
    hide Perform;
    if ys == [] {
      assert xs + ys == xs;
    } else {
      assert (xs + ys)[..|xs + ys| - 1] == xs + ys[..|ys| - 1];
      RunConcat(c, xs, ys[..|ys| - 1]);
    }
  }

  /** The size of the screen is not set. */
  ghost predicate KeepsScreen(xs: seq<Action>) {
    forall i :: 0 <= i < |xs| ==> !xs[i].Resized?
  }

  // ---------- the messages parsed ----------

  function ParsedIn(x: Action): seq<Msg> {
    if x.Received? then [x.m] else []
  }

  /** The messages handled in a run. */
  function MessagesOf(xs: seq<Action>): seq<Msg> {
    if xs == [] then [] else MessagesOf(xs[..|xs| - 1]) + ParsedIn(xs[|xs| - 1])
  }

  lemma {:induction false} MessagesConcat(xs: seq<Action>, ys: seq<Action>)
    ensures MessagesOf(xs + ys) == MessagesOf(xs) + MessagesOf(ys)
  {
    if ys == [] {
      assert xs + ys == xs && MessagesOf(xs) + [] == MessagesOf(xs);
    } else {
      var front, last := ys[..|ys| - 1], ys[|ys| - 1];
      assert (xs + ys)[..|xs + ys| - 1] == xs + front;
      MessagesConcat(xs, front);
      assert MessagesOf(xs) + (MessagesOf(front) + ParsedIn(last))
          == MessagesOf(xs) + MessagesOf(front) + ParsedIn(last);
    }
  }

  lemma OneParsed(x: Action)
    ensures MessagesOf([x]) == ParsedIn(x) && MessagesOf([]) == []
  {
    assert [x][..0] == [] && [] + ParsedIn(x) == ParsedIn(x);
  }

  /** What was observed while handling them. */
  function SamplesOf(xs: seq<Action>): (r: seq<Ambient>)
    ensures |r| == |MessagesOf(xs)|
  {
    if xs == [] then []
    else SamplesOf(xs[..|xs| - 1]) + (if xs[|xs| - 1].Received? then [xs[|xs| - 1].a] else [])
  }

  lemma {:induction false} SamplesConcat(xs: seq<Action>, ys: seq<Action>)
    ensures SamplesOf(xs + ys) == SamplesOf(xs) + SamplesOf(ys)
  {
    if ys == [] {
      assert xs + ys == xs && SamplesOf(xs) + [] == SamplesOf(xs);
    } else {
      var front, last := ys[..|ys| - 1], ys[|ys| - 1];
      var s := if last.Received? then [last.a] else [];
      assert (xs + ys)[..|xs + ys| - 1] == xs + front;
      SamplesConcat(xs, front);
      assert SamplesOf(xs) + (SamplesOf(front) + s) == SamplesOf(xs) + SamplesOf(front) + s;
    }
  }

  lemma OneSampled(x: Action)
    ensures SamplesOf([x]) == (if x.Received? then [x.a] else []) && SamplesOf([]) == []
  {
    assert [x][..0] == [];
  }

  // ---------- handling messages is a run ----------

  function Actions(ms: seq<Msg>, samples: seq<Ambient>): seq<Action>
    requires |ms| == |samples|
  {
    if ms == [] then [] else [Received(ms[0], samples[0])] + Actions(ms[1..], samples[1..])
  }

  lemma {:induction false} ActionsAre(ms: seq<Msg>, samples: seq<Ambient>)
    requires |ms| == |samples|
    ensures var xs := Actions(ms, samples);
      MessagesOf(xs) == ms && SamplesOf(xs) == samples && KeepsScreen(xs)
    decreases |ms|
  {
    hide MessagesOf, SamplesOf;
    var first := if ms == [] then AttemptBegun else Received(ms[0], samples[0]);
    OneParsed(first);
    OneSampled(first);
    if ms != [] {
      ActionsAre(ms[1..], samples[1..]);
      MessagesConcat([first], Actions(ms[1..], samples[1..]));
      SamplesConcat([first], Actions(ms[1..], samples[1..]));
    }
  }

  /** Handling messages, until the loop ends, is a run of the corresponding actions. */
  lemma {:induction false} HandledIsRun(p: Progress, ms: seq<Msg>, samples: seq<Ambient>) returns (n: nat)
    requires |ms| == |samples| && p.going
    ensures n <= |ms| && HandleAll(p, ms, samples).log == p.log + ms[..n]
    ensures HandleAll(p, ms, samples).core == Run(p.core, Actions(ms[..n], samples[..n]))
    ensures HandleAll(p, ms, samples).going ==> n == |ms|
    decreases |ms|
  {
    hide Handle, WriteFrames, Run;
    if ms == [] {
      n := 0;
      NoAction(p.core);
      assert p.log + [] == p.log;
    } else {
      var q, first := HandleOne(p, ms[0], samples[0]), Received(ms[0], samples[0]);
      OneAction(p.core, first);
      if q.going {
        var later := HandledIsRun(q, ms[1..], samples[1..]);
        n := 1 + later;
        assert ms[..n][1..] == ms[1..][..later] && samples[..n][1..] == samples[1..][..later];
        assert p.log + [ms[0]] + ms[1..][..later] == p.log + ms[..n];
        RunConcat(p.core, [first], Actions(ms[1..][..later], samples[1..][..later]));
      } else {
        n := 1;
        FinishedStays(q, ms[1..], samples[1..]);
        assert ms[..1] == [ms[0]] && samples[..1] == [samples[0]];
        assert Actions([], []) == [] && [first] + [] == [first];
      }
    }
  }

  // ---------- the worker's attempts are such runs ----------

  /** `xs` handles exactly the messages `ms`, in this order, while observing `samples`. */
  ghost predicate Handles(xs: seq<Action>, ms: seq<Msg>, samples: seq<Ambient>) {
    KeepsScreen(xs) && MessagesOf(xs) == ms && SamplesOf(xs) == samples
  }

  lemma HandlesConcat(
    xs: seq<Action>, ms: seq<Msg>, ss: seq<Ambient>, ys: seq<Action>, ns: seq<Msg>, ts: seq<Ambient>)
    requires Handles(xs, ms, ss) && Handles(ys, ns, ts)
    ensures Handles(xs + ys, ms + ns, ss + ts)
  {
    hide MessagesOf, SamplesOf;
    MessagesConcat(xs, ys);
    SamplesConcat(xs, ys);
  }

  lemma QuietHandles(x: Action)
    requires !x.Received? && !x.Resized?
    ensures Handles([x], [], []) && Handles([], [], [])
  {
  }

  /** What the loop has handled in these passages: at most one message each. */
  lemma {:induction false} LogGrowsByPassages(l: Loop, samples: seq<Ambient>)
    ensures |l.log| <= |Iterations(l, samples).log| <= |l.log| + |samples|
    decreases |samples|
  {
    hide Handle, ParseMessage, Input.Frame, Input.Exact, WriteFrames;
    if samples != [] {
      LogGrowsByPassages(Iterate(l, samples[0]), samples[1..]);
    }
  }

  lemma IterationsAreActions(l: Loop, samples: seq<Ambient>) returns (xs: seq<Action>)
    ensures Iterations(l, samples).core == Run(l.core, xs)
    ensures var r := Iterations(l, samples);
      var n := |r.log| - |l.log|;
      0 <= n <= |samples| && r.log[..|l.log|] == l.log && Handles(xs, r.log[|l.log|..], samples[..n])
  {
    hide Iterations, HandleAll, Run, MessagesOf, SamplesOf;
    var ms := LoopHandlesWhatItParses(l, samples);
    assert (l.log + ms)[|l.log|..] == ms;
    if l.going {
      var n := HandledIsRun(ProgressOf(l), ms, samples[..|ms|]);
      assert |l.log + ms| == |l.log + ms[..n]|;
      assert ms[..n] == ms && samples[..|ms|][..n] == samples[..|ms|];
      xs := Actions(ms, samples[..|ms|]);
      ActionsAre(ms, samples[..|ms|]);
    } else {
      StoppedStays(l, samples);
      xs := [];
      NoAction(l.core);
      QuietHandles(AttemptBegun);
    }
  }

  lemma GreetIsAction(c: Core, link: Link) returns (xs: seq<Action>)
    ensures Greeted(c, link).core == Run(c, xs)
    ensures Greeted(c, link).log == [] && Handles(xs, [], [])
  {
    hide ReadHello, Input.Frame, Run, Handles;
    QuietHandles(HelloRefused);
    if Greeted(c, link).core == c {
      xs := [];
      NoAction(c);
    } else {
      xs := [HelloRefused];
      OneAction(c, HelloRefused);
    }
  }

  /** What a worker has parsed in an attempt, told from the octets it received. */
  function MessagesDuring(c: Core, t: Attempt): seq<Msg> {
    Attempted(Begun(c), t.link, t.samples).log
  }

  /** What was observed while handling it. */
  function SamplesDuring(c: Core, t: Attempt): (r: seq<Ambient>)
    ensures |r| == |MessagesDuring(c, t)|
  {
    GreetingLogsNothing(Begun(c), t.link);
    LogGrowsByPassages(Greeted(Begun(c), t.link), t.samples);
    t.samples[..|MessagesDuring(c, t)|]
  }

  lemma GreetingLogsNothing(c: Core, link: Link)
    ensures Greeted(c, link).log == []
  {
    hide ReadHello, Input.Frame;
  }

  /** One attempt, from raising the reconnect flag to the end of the message loop. */
  lemma AttemptIsActions(c: Core, t: Attempt) returns (xs: seq<Action>)
    ensures AfterAttempt(c, t) == Run(c, xs)
    ensures Handles(xs, MessagesDuring(c, t), SamplesDuring(c, t))
  {
    hide Run, Iterations, Greeted, Begun, Handles;
    var c0 := Begun(c);
    OneAction(c, AttemptBegun);
    BegunIsAction(c);
    QuietHandles(AttemptBegun);
    var greeting := GreetIsAction(c0, t.link);
    RunConcat(c, [AttemptBegun], greeting);
    HandlesConcat([AttemptBegun], [], [], greeting, [], []);
    var none: seq<Msg>, nobody: seq<Ambient> := [], [];
    assert none + none == none && nobody + nobody == nobody;
    var handled := IterationsAreActions(Greeted(c0, t.link), t.samples);
    assert MessagesDuring(c, t)[0..] == MessagesDuring(c, t);
    assert Handles(handled, MessagesDuring(c, t), SamplesDuring(c, t));
    RunConcat(c, [AttemptBegun] + greeting, handled);
    HandlesConcat([AttemptBegun] + greeting, [], [], handled, MessagesDuring(c, t), SamplesDuring(c, t));
    assert [] + MessagesDuring(c, t) == MessagesDuring(c, t) && [] + SamplesDuring(c, t) == SamplesDuring(c, t);
    xs := [AttemptBegun] + greeting + handled;
  }

  /** The messages a worker has parsed in its attempts. */
  function MessagesIn(c: Core, ts: seq<Attempt>): seq<Msg>
    decreases |ts|
  {
    if ts == [] then [] else MessagesDuring(c, ts[0]) + MessagesIn(AfterAttempt(c, ts[0]), ts[1..])
  }

  /** What was observed while handling them. */
  function SamplesIn(c: Core, ts: seq<Attempt>): (r: seq<Ambient>)
    ensures |r| == |MessagesIn(c, ts)|
    decreases |ts|
  {
    if ts == [] then [] else SamplesDuring(c, ts[0]) + SamplesIn(AfterAttempt(c, ts[0]), ts[1..])
  }

  /** Whatever the network sends and however it splits it, the attempts of a worker leave the client in
      a state that some list of actions leads to, in which exactly the messages parsed from the octets
      are handled, each with what was observed then, and the screen's size is not set; what holds after
      every run holds of the worker. */
  lemma {:induction false} AttemptsAreActions(c: Core, ts: seq<Attempt>) returns (xs: seq<Action>)
    ensures AfterAttempts(c, ts) == Run(c, xs)
    ensures Handles(xs, MessagesIn(c, ts), SamplesIn(c, ts))
    decreases |ts|
  {
    hide Run, AfterAttempt, MessagesDuring, SamplesDuring, Handles;
    if ts == [] {
      xs := [];
      NoAction(c);
      QuietHandles(AttemptBegun);
    } else {
      var first := AttemptIsActions(c, ts[0]);
      var next := AfterAttempt(c, ts[0]);
      var rest := AttemptsAreActions(next, ts[1..]);
      RunConcat(c, first, rest);
      HandlesConcat(first, MessagesDuring(c, ts[0]), SamplesDuring(c, ts[0]),
        rest, MessagesIn(next, ts[1..]), SamplesIn(next, ts[1..]));
      xs := first + rest;
    }
  }

  lemma BegunIsAction(c: Core)
    ensures Perform(c, AttemptBegun) == Begun(c)
  {
  }

  lemma NoAction(c: Core)
    ensures Run(c, []) == c
  {
  }

  lemma OneAction(c: Core, x: Action)
    ensures Run(c, [x]) == Perform(c, x)
  {
    hide Perform;
    assert [x][..0] == [];
    assert Run(c, []) == c;
  }
}
