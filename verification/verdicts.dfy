// A server that has refused the client for good is not called again.
module Verdicts {
  import opened ByteOrder
  import opened Sockets
  import opened Messages
  import opened ClientModel
  import opened Effects
  import opened MessageLoop
  import opened Connections
  import opened Conversation

  // ---------- fatal verdicts, told from what was received ----------

  /** The server's first frame is a complete hello of another protocol version. */
  predicate HelloMismatch(link: Link) {
    link.Accepted? && ReceivedHello(link.net).Some? && ReceivedHello(link.net).value.major != 1
  }

  ghost predicate FatalReceived(log: seq<Msg>) {
    exists i :: 0 <= i < |log| && IsFatal(log[i])
  }

  /** The attempt ended with a mismatched hello, a CBYE or a complete EICV. */
  ghost predicate EndedFatally(c: Core, t: Attempt) {
    HelloMismatch(t.link) || FatalReceived(Attempted(Begun(c), t.link, t.samples).log)
  }

  // ---------- the flag agrees with them ----------

  lemma FatalAppend(log: seq<Msg>, m: Msg)
    ensures FatalReceived(log + [m]) <==> FatalReceived(log) || IsFatal(m)
  {
    hide IsFatal;
    var all := log + [m];
    if FatalReceived(log) {
      var i :| 0 <= i < |log| && IsFatal(log[i]);
      assert IsFatal(all[i]);
    }
    if IsFatal(m) {
      assert IsFatal(all[|log|]);
    }
    if FatalReceived(all) {
      var i :| 0 <= i < |all| && IsFatal(all[i]);
      if i < |log| {
        assert IsFatal(log[i]);
      }
    }
  }

  /** The reconnect flag is unset exactly when it was before or a fatal message has been handled. */
  ghost predicate FlagTells(l: Loop, before: bool) {
    l.core.session.shouldReconnect <==> before && !FatalReceived(l.log)
  }

  lemma IterateKeepsFlag(l: Loop, a: Ambient, before: bool)
    requires FlagTells(l, before)
    ensures FlagTells(Iterate(l, a), before)
  {
    hide Handle, ParseMessage, Input.Frame, FatalReceived;
    var f := l.input.Frame();
    var h := f.left.Push(f.data).Exact(4);
    if l.going && f.ok && h.ok {
      var r := Answer(l.core, h.left, l.out, TagOf(h.data), a);
      if r.Some? {
        PhaseFollowsOptions(l.core, r.value.m, a);
        FatalAppend(l.log, r.value.m);
      }
    }
  }

  lemma {:induction false} IterationsKeepFlag(l: Loop, samples: seq<Ambient>, before: bool)
    requires FlagTells(l, before)
    ensures FlagTells(Iterations(l, samples), before)
    decreases |samples|
  {
    hide Iterate, FlagTells;
    if samples != [] {
      IterateKeepsFlag(l, samples[0], before);
      IterationsKeepFlag(Iterate(l, samples[0]), samples[1..], before);
    }
  }

  lemma GreetingFlag(c: Core, link: Link)
    ensures Greeted(Begun(c), link).log == []
    ensures Greeted(Begun(c), link).core.session.shouldReconnect <==> !HelloMismatch(link)
    ensures HelloMismatch(link) ==> !Greeted(Begun(c), link).going
    ensures link.Refused? ==> !Greeted(Begun(c), link).going && !HelloMismatch(link)
  {
    hide ReadHello, HelloBack, Input.Frame;
    if link.Accepted? {
      ReceivedNameIsSeven(link.net);
    }
  }

  /** After an attempt the worker goes round again if and only if automatic reconnection is on, no stop
      was requested, and the attempt did not end fatally. (A stop seen when the loop returned is still
      seen afterwards.) Resetting the flag for each attempt never revives a refused server. */
  lemma GoesOnExactlyUnlessFatal(c: Core, t: Attempt)
    requires t.stopAtReturn ==> t.stop
    ensures GoesOn(c, t) <==> t.auto && !t.stop && !EndedFatally(c, t)
  {
    hide Greeted, Iterations, FatalReceived, Begun, HelloMismatch;
    var g := Greeted(Begun(c), t.link);
    GreetingFlag(c, t.link);
    NothingFatalYet();
    if g.going {
      IterationsKeepFlag(g, t.samples, true);
    } else {
      StoppedStays(g, t.samples);
    }
  }

  /** A server of another version, whatever it sends after its hello, is not called again. */
  lemma OtherVersionIsFinal(c: Core, t: Attempt, h: Hello, rest: Bytes, room: nat)
    requires |h.name| == 7 && h.major != 1 && t.link == Accepted(Framed(HelloPayload(h)) + rest, room)
    ensures EndedFatally(c, t) && !GoesOn(c, t)
    ensures Attempted(Begun(c), t.link, t.samples).out == Output([], room)
  {
    hide Framed, HelloPayload, FatalReceived, Greet, Iterations, ReceivedHello;
    HelloIsReceived(h, rest);
    OtherVersionIsRefused(Begun(c), h, rest, room);
    StoppedStays(Greeted(Begun(c), t.link), t.samples);
  }

  /** A stop seen when the message loop is left is reported as such: no other attempt makes sense. */
  lemma StopIsReported(c: Core, link: Link, samples: seq<Ambient>)
    ensures Again(c, link, samples, true) ==> !Greeted(c, link).going
  {
    hide Greeted, Attempted;
    RefusedIsNotGreeted(c, link);
  }

  lemma RefusedIsNotGreeted(c: Core, link: Link)
    ensures link.Refused? ==> !Greeted(c, link).going
  {
  }

  lemma NothingFatalYet()
    ensures !FatalReceived([])
  {
  }

  /** Over a whole worker run: only the last attempt can have ended fatally. */
  lemma FatalVerdictsAreFinal(c: Core, ts: seq<Attempt>, i: nat)
    requires IsWorkerRun(c, ts) && i + 1 < |ts|
    ensures ts[i].auto && !ts[i].stop && !EndedFatally(AfterAttempts(c, ts[..i]), ts[i])
  {
    hide GoesOn, EndedFatally;
    GoesOnExactlyUnlessFatal(AfterAttempts(c, ts[..i]), ts[i]);
  }
}
