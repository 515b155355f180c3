// One connection: the greeting, then the message loop.
module Connections {
  import opened ByteOrder
  import opened Sockets
  import opened Framing
  import opened Formats
  import opened CodecLaws
  import opened Messages
  import opened ClientModel
  import opened MessageLoop

  const HELLO_ITEMS: seq<Item> := [Fixed(7), Int(2), Int(2)]
  const HELLO_BACK_ITEMS: seq<Item> := [Fixed(7), Int(2), Int(2), Text]

  const MAJOR: int16 := 1
  const MINOR: int16 := 8

  /** The server's first frame. */
  datatype Hello = Hello(name: Bytes, major: int16, minor: int16)

  function ReadHello(b: Bytes): Option<(Hello, Bytes)> {
    match Decode(HELLO_ITEMS, b)
    case None => None
    case Some(d) =>
      DecodedInRange(HELLO_ITEMS, b);
      Some((Hello(d.vals[0].s, Signed16(d.vals[1].n), Signed16(d.vals[2].n)), d.rest))
  }

  /** The server's hello, if the first frame of what it sends is one. */
  function ReceivedHello(net: Bytes): Option<Hello> {
    var f := Input([], net).Frame();
    if !f.ok then None
    else
      match ReadHello(f.left.Push(f.data).All())
      case None => None
      case Some((h, _)) => Some(h)
  }

  /** The format fixes the name at seven octets. */
  lemma NameIsSeven(b: Bytes)
    ensures ReadHello(b).Some? ==> |ReadHello(b).value.0.name| == 7
  {
    hide Number;
  }

  predicate Mismatched(h: Hello) {
    |h.name| != 7 || h.major != MAJOR
  }

  function Lower(a: int16, b: int16): int16 {
    if a < b then a else b
  }

  function HelloBackArgs(h: Hello, screenName: Bytes): seq<Value> {
    [Str(h.name), Num(MAJOR), Num(Lower(h.minor, MINOR)), Str(screenName)]
  }

  lemma HelloBackArgsMatch(h: Hello, screenName: Bytes)
    ensures Matches(HELLO_BACK_ITEMS, HelloBackArgs(h, screenName))
  {
    PairwiseMatches(HELLO_BACK_ITEMS, HelloBackArgs(h, screenName));
  }

  function HelloBack(h: Hello, screenName: Bytes): Bytes {
    HelloBackArgsMatch(h, screenName);
    Encode(HELLO_BACK_ITEMS, HelloBackArgs(h, screenName))
  }

  /** The greeting; on failure only the core and the output matter. */
  function Greet(c: Core, i: Input, o: Output): Loop {
    var failed := Loop(c, i, o, [], false);
    var f := i.Frame();
    if !f.ok then failed
    else
      var pushed := f.left.Push(f.data);
      match ReadHello(pushed.All())
      case None => failed
      case Some((hello, rest)) =>
        if Mismatched(hello) then failed.(core := c.(session := c.session.(shouldReconnect := false)))
        else
          HelloLeavesSuffix(pushed.All());
          var w := WriteFrames(o, [HelloBack(hello, c.screen.name)]);
          Loop(c, pushed.Drop(|pushed.All()| - |rest|), w.0, [], w.1)
  }

  lemma HelloLeavesSuffix(b: Bytes)
    requires ReadHello(b).Some?
    ensures |ReadHello(b).value.1| <= |b|
  {
    hide Encode;
    Reencode(HELLO_ITEMS, b);
    assert Percents(HELLO_ITEMS) == 0;
  }

  // ---------- attempts ----------

  /** What the surroundings contribute to one attempt: the connection, what each passage of the message
      loop observed, and the flags the worker reads when the attempt is over. */
  datatype Attempt = Attempt(link: Link, samples: seq<Ambient>, stopAtReturn: bool, auto: bool, stop: bool)

  /** The state after connecting and greeting; `going` when the message loop is entered. */
  function Greeted(c: Core, link: Link): Loop {
    match link
    case Refused => Loop(c, DRAINED, Output([], 0), [], false)
    case Accepted(net, room) => Greet(c, Input([], net), Output([], room))
  }

  function Attempted(c: Core, link: Link, samples: seq<Ambient>): Loop {
    Iterations(Greeted(c, link), samples)
  }

  /** What runOnce returns: whether another attempt makes sense. */
  function Again(c: Core, link: Link, samples: seq<Ambient>, stopAtReturn: bool): bool {
    var g := Greeted(c, link);
    if link.Refused? then true
    else if !g.going then g.core.session.shouldReconnect
    else !stopAtReturn && Attempted(c, link, samples).core.session.shouldReconnect
  }

  /** Every attempt starts with the flag set again. */
  function Begun(c: Core): Core {
    c.(session := c.session.(shouldReconnect := true))
  }

  function AfterAttempt(c: Core, t: Attempt): Core {
    Attempted(Begun(c), t.link, t.samples).core
  }

  /** Whether the worker goes round again. */
  function GoesOn(c: Core, t: Attempt): bool {
    t.auto && Again(Begun(c), t.link, t.samples, t.stopAtReturn) && !t.stop
  }

  function AfterAttempts(c: Core, ts: seq<Attempt>): Core
    decreases |ts|
  {
    if ts == [] then c else AfterAttempts(AfterAttempt(c, ts[0]), ts[1..])
  }

  lemma {:induction false} AfterAttemptsAppend(c: Core, ts: seq<Attempt>, t: Attempt)
    ensures AfterAttempts(c, ts + [t]) == AfterAttempt(AfterAttempts(c, ts), t)
    decreases |ts|
  {
    hide AfterAttempt;
    if ts == [] {
      assert [t][1..] == [];
    } else {
      assert (ts + [t])[1..] == ts[1..] + [t];
      AfterAttemptsAppend(AfterAttempt(c, ts[0]), ts[1..], t);
    }
  }

  /** The attempts one worker makes: each one but the last was followed by another. A stop seen when
      the loop returned is still seen afterwards. */
  ghost predicate IsWorkerRun(c: Core, ts: seq<Attempt>) {
    && (forall i :: 0 <= i < |ts| - 1 ==> GoesOn(AfterAttempts(c, ts[..i]), ts[i]))
    && (forall i :: 0 <= i < |ts| ==> ts[i].stopAtReturn ==> ts[i].stop)
  }

  lemma WorkerRunAppend(c: Core, ts: seq<Attempt>, t: Attempt)
    requires IsWorkerRun(c, ts)
    requires ts != [] ==> GoesOn(AfterAttempts(c, ts[..|ts| - 1]), ts[|ts| - 1])
    requires t.stopAtReturn ==> t.stop
    ensures IsWorkerRun(c, ts + [t])
  {
    hide GoesOn, AfterAttempts;
    var all := ts + [t];
    forall i | 0 <= i < |all| - 1
      ensures GoesOn(AfterAttempts(c, all[..i]), all[i])
    {
      assert all[..i] == ts[..i] && all[i] == ts[i];
    }
  }
}
