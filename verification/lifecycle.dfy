// Starting and stopping the worker: one caller thread and the worker threads it spawns, interleaved one
// shared access at a time.
module Lifecycle {

  /** Where a worker is: at the loop condition, past it and about to connect, inside runOnce, at the
      check behind it, waiting, past the loop but still marked running, past that, gone. */
  datatype Worker = AtHead | BeforeConnect | InConnection | AtCheck | InBackOff | Leaving | Reporting | Gone

  /** Where the caller is. stop(): flag set, socket not yet closed. connectDeskflow: polling, deciding,
      setting the screen's size.
      start(): called, found nothing running, flag cleared, marked running but thread not yet made. */
  datatype Caller =
    | Idle
    | Closing(thenPoll: bool)
    | Polling(polls: nat)
    | Deciding
    | SettingScreen
    | CallingStart(fromConnect: bool)
    | FoundIdle
    | FlagCleared
    | Marked

  datatype State = State(running: bool, stopRequested: bool, autoReconnect: bool, caller: Caller, workers: seq<Worker>)

  datatype Label =
    | StopSet
    | StartRefused(fromConnect: bool)
    | StopCleared
    | ScreenSet
    | ConnectBegins(id: nat)
    | Other

  const MAX_POLLS: nat := 15

  // ---------- steps ----------

  ghost predicate CallerStep(s: State, l: Label, t: State) {
    match s.caller
    case Idle =>
      || (exists connect: bool :: l == StopSet && t == s.(stopRequested := true, caller := Closing(connect)))
      || (l == Other && t == s.(caller := CallingStart(false)))
      || (exists auto: bool :: l == Other && t == s.(autoReconnect := auto))
    case Closing(thenPoll) => l == Other && t == s.(caller := if thenPoll then Polling(0) else Idle)
    case Polling(n) =>
      l == Other && t == s.(caller := if n < MAX_POLLS && s.running then Polling(n + 1) else Deciding)
    case Deciding => l == Other && t == s.(caller := if s.running then Idle else SettingScreen)
    case SettingScreen => l == ScreenSet && t == s.(caller := CallingStart(true))
    case CallingStart(fromConnect) =>
      if s.running then l == StartRefused(fromConnect) && t == s.(caller := Idle)
      else l == Other && t == s.(caller := FoundIdle)
    case FoundIdle => l == StopCleared && t == s.(stopRequested := false, caller := FlagCleared)
    case FlagCleared => l == Other && t == s.(running := true, caller := Marked)
    case Marked => l == Other && t == s.(workers := s.workers + [AtHead], caller := Idle)
  }

  function Moved(s: State, id: nat, w: Worker): State
    requires id < |s.workers|
  {
    s.(workers := s.workers[id := w])
  }

  ghost predicate WorkerStep(s: State, l: Label, t: State, id: nat)
    requires id < |s.workers|
  {
    match s.workers[id]
    case AtHead => l == Other && t == Moved(s, id, if s.stopRequested then Leaving else BeforeConnect)
    case BeforeConnect => l == ConnectBegins(id) && t == Moved(s, id, InConnection)
    case InConnection => l == Other && t == Moved(s, id, AtCheck)
    case AtCheck =>
      // the connection may also have ended for good
      || (l == Other && t == Moved(s, id, Leaving))
      || (s.autoReconnect && !s.stopRequested && l == Other && t == Moved(s, id, InBackOff))
    case InBackOff => l == Other && t == Moved(s, id, AtHead)
    case Leaving => l == Other && t == Moved(s, id, Reporting).(running := false)
    case Reporting => l == Other && t == Moved(s, id, Gone)
    case Gone => false
  }

  ghost predicate Next(s: State, l: Label, t: State) {
    CallerStep(s, l, t) || exists id: nat :: id < |s.workers| && WorkerStep(s, l, t, id)
  }

  ghost predicate Init(s: State) {
    s.running == false && s.stopRequested == false && s.caller == Idle && s.workers == []
  }

  /** A behaviour: states and the labels of the steps between them. */
  ghost predicate IsBehaviour(states: seq<State>, labels: seq<Label>) {
    && |states| == |labels| + 1 && Init(states[0])
    && forall i :: 0 <= i < |labels| ==> Next(states[i], labels[i], states[i + 1])
  }

  // ---------- the invariant ----------

  predicate InLoop(w: Worker) {
    w.AtHead? || w.BeforeConnect? || w.InConnection? || w.AtCheck? || w.InBackOff?
  }

  /** Not yet past the point where it marks itself as not running. */
  predicate IsLive(w: Worker) {
    InLoop(w) || w.Leaving?
  }

  ghost predicate NoneLive(s: State) {
    forall i :: 0 <= i < |s.workers| ==> !IsLive(s.workers[i])
  }

  ghost predicate LastIsLive(s: State) {
    s.workers != [] && IsLive(s.workers[|s.workers| - 1])
  }

  ghost predicate Inv(s: State) {
    // only the youngest worker can be live
    && (forall i :: 0 <= i < |s.workers| - 1 ==> !IsLive(s.workers[i]))
    // the flag is set exactly while a worker is live or about to be made
    && (s.running <==> LastIsLive(s) || s.caller.Marked?)
    // while the caller is inside start() no worker is live
    && (s.caller.FoundIdle? || s.caller.FlagCleared? || s.caller.Marked? ==> NoneLive(s))
    // connectDeskflow only goes on to start() when nothing is running
    && (s.caller.SettingScreen? || s.caller == CallingStart(true) ==> !s.running)
  }

  lemma CallerKeepsInv(s: State, l: Label, t: State)
    requires Inv(s) && CallerStep(s, l, t)
    ensures Inv(t) && !(l.StartRefused? && l.fromConnect) && !l.ConnectBegins?
    ensures l.StopCleared? || l.ScreenSet? ==> NoneLive(s)
    ensures s.stopRequested && !l.StopCleared? ==> t.stopRequested
    ensures t.workers == s.workers || t.workers == s.workers + [AtHead]
  {
  }

  lemma WorkerKeepsInv(s: State, l: Label, t: State, id: nat)
    requires Inv(s) && id < |s.workers| && WorkerStep(s, l, t, id)
    ensures Inv(t) && !l.StartRefused? && !l.StopCleared? && !l.ScreenSet? && t.stopRequested == s.stopRequested
    ensures l.ConnectBegins? ==> id == |s.workers| - 1 && s.workers[id].BeforeConnect?
    ensures t.workers == s.workers[id := t.workers[id]]
  {
  }

  lemma NextKeepsInv(s: State, l: Label, t: State)
    requires Inv(s) && Next(s, l, t)
    ensures Inv(t)
  {
    hide CallerStep, WorkerStep, Inv;
    if CallerStep(s, l, t) {
      CallerKeepsInv(s, l, t);
    } else {
      var id: nat :| id < |s.workers| && WorkerStep(s, l, t, id);
      WorkerKeepsInv(s, l, t, id);
    }
  }

  lemma {:induction false} InvHolds(states: seq<State>, labels: seq<Label>, n: nat)
    requires IsBehaviour(states, labels) && n < |states|
    ensures Inv(states[n])
  {
    hide Next;
    if n > 0 {
      InvHolds(states, labels, n - 1);
      NextKeepsInv(states[n - 1], labels[n - 1], states[n]);
    }
  }

  // ---------- what follows ----------

  /** In every reachable state at most one worker is inside the connect loop, and the running flag is
      set exactly while a worker exists that has not yet cleared it or is about to be made. */
  lemma AtMostOneWorker(states: seq<State>, labels: seq<Label>, n: nat, i: nat, j: nat)
    requires IsBehaviour(states, labels) && n < |states|
    ensures var ws := states[n].workers;
      i < |ws| && j < |ws| && InLoop(ws[i]) && InLoop(ws[j]) ==> i == j
    ensures states[n].running <==> !NoneLive(states[n]) || states[n].caller.Marked?
  {
    hide IsBehaviour;
    InvHolds(states, labels, n);
  }

  /** The start that connectDeskflow makes after its polling is never refused. */
  lemma ConnectNeverRefused(states: seq<State>, labels: seq<Label>, n: nat)
    requires IsBehaviour(states, labels) && n < |labels|
    ensures labels[n] != StartRefused(true)
  {
    hide CallerStep, WorkerStep, Inv;
    InvHolds(states, labels, n);
    var s, l, t := states[n], labels[n], states[n + 1];
    assert Next(s, l, t);
    if CallerStep(s, l, t) {
      CallerKeepsInv(s, l, t);
    } else {
      var id: nat :| id < |s.workers| && WorkerStep(s, l, t, id);
      WorkerKeepsInv(s, l, t, id);
    }
  }

  /** A stop request is never cleared while a worker is still in its loop. */
  lemma StopIsKeptWhileLive(states: seq<State>, labels: seq<Label>, n: nat)
    requires IsBehaviour(states, labels) && n < |labels| && states[n].stopRequested
    ensures states[n + 1].stopRequested || NoneLive(states[n])
  {
    hide CallerStep, WorkerStep, Inv, NoneLive;
    InvHolds(states, labels, n);
    var s, l, t := states[n], labels[n], states[n + 1];
    assert Next(s, l, t);
    if CallerStep(s, l, t) {
      CallerKeepsInv(s, l, t);
    } else {
      var id: nat :| id < |s.workers| && WorkerStep(s, l, t, id);
      WorkerKeepsInv(s, l, t, id);
    }
  }

  /** The size of the screen is only set while no worker is live, so it is fixed during a worker's run. */
  lemma ScreenIsFixedWhileLive(states: seq<State>, labels: seq<Label>, n: nat)
    requires IsBehaviour(states, labels) && n < |labels| && labels[n].ScreenSet?
    ensures NoneLive(states[n]) && NoneLive(states[n + 1])
  {
    hide CallerStep, WorkerStep, Inv, NoneLive;
    InvHolds(states, labels, n);
    var s, l, t := states[n], labels[n], states[n + 1];
    assert Next(s, l, t);
    if CallerStep(s, l, t) {
      CallerKeepsInv(s, l, t);
      ScreenSetKeepsWorkers(s, t);
    } else {
      var id: nat :| id < |s.workers| && WorkerStep(s, l, t, id);
      WorkerKeepsInv(s, l, t, id);
    }
  }

  lemma ScreenSetKeepsWorkers(s: State, t: State)
    requires CallerStep(s, ScreenSet, t)
    ensures NoneLive(t) <==> NoneLive(s)
  {
  }

  /** No stop comes between clearing the flag and making the thread, and polling is bounded. */
  ghost predicate CallerInv(s: State) {
    && (s.caller.FlagCleared? || s.caller.Marked? ==> !s.stopRequested)
    && (s.caller.Polling? ==> s.caller.polls <= 15)
  }

  lemma NextKeepsCallerInv(s: State, l: Label, t: State)
    requires CallerInv(s) && Next(s, l, t)
    ensures CallerInv(t)
  {
    if !CallerStep(s, l, t) {
      var id: nat :| id < |s.workers| && WorkerStep(s, l, t, id);
      assert t.caller == s.caller && t.stopRequested == s.stopRequested;
    }
  }

  /** A start that is not refused is not lost: the thread is made with no stop requested, so that its first
      look at the flag lets it connect unless a new stop has come. And connectDeskflow looks at most fifteen
      times whether the old worker is still running. */
  lemma {:induction false} StartIsNotLost(states: seq<State>, labels: seq<Label>, n: nat)
    requires IsBehaviour(states, labels) && n < |states|
    ensures states[n].caller.Marked? ==> !states[n].stopRequested
    ensures states[n].caller.Polling? ==> states[n].caller.polls <= 15
    ensures CallerInv(states[n])
  {
    hide Next;
    if n > 0 {
      StartIsNotLost(states, labels, n - 1);
      NextKeepsCallerInv(states[n - 1], labels[n - 1], states[n]);
    }
  }

  /** Connection attempts begun in a stretch of labels. */
  function Begun(labels: seq<Label>): nat {
    if labels == [] then 0
    else Begun(labels[..|labels| - 1]) + (if labels[|labels| - 1].ConnectBegins? then 1 else 0)
  }

  /** One if the youngest worker has passed the loop condition and not yet begun to connect. */
  function Committed(s: State): nat {
    if s.workers != [] && s.workers[|s.workers| - 1].BeforeConnect? then 1 else 0
  }

  lemma StepSpendsCommitment(s: State, l: Label, t: State)
    requires Inv(s) && Next(s, l, t) && s.stopRequested && !l.StopCleared?
    ensures t.stopRequested
    ensures Committed(t) + (if l.ConnectBegins? then 1 else 0) <= Committed(s)
  {
    hide CallerStep;
    if CallerStep(s, l, t) {
      CallerKeepsInv(s, l, t);
    } else {
      var id: nat :| id < |s.workers| && WorkerStep(s, l, t, id);
      WorkerKeepsInv(s, l, t, id);
    }
  }

  /** From a state with a stop requested on, as long as no new start has cleared it, at most one more
      connection attempt begins: the one a worker had already committed itself to. */
  lemma {:induction false} AtMostOneAttemptAfterStop(states: seq<State>, labels: seq<Label>, from: nat, upto: nat)
    requires IsBehaviour(states, labels) && from <= upto <= |labels| && states[from].stopRequested
    requires forall i :: from <= i < upto ==> !labels[i].StopCleared?
    ensures states[upto].stopRequested
    ensures Begun(labels[from..upto]) + Committed(states[upto]) <= Committed(states[from]) <= 1
    decreases upto - from
  {
    hide Next, Committed, Inv;
    if from == upto {
      assert labels[from..upto] == [];
      CommittedIsBit(states[from]);
    } else {
      AtMostOneAttemptAfterStop(states, labels, from, upto - 1);
      InvHolds(states, labels, upto - 1);
      StepSpendsCommitment(states[upto - 1], labels[upto - 1], states[upto]);
      assert labels[from..upto][..upto - 1 - from] == labels[from..upto - 1];
    }
  }

  lemma CommittedIsBit(s: State)
    ensures Committed(s) <= 1
  {
  }

  /** stop() leaves a stop requested. */
  lemma StopIsSet(s: State, t: State)
    requires Next(s, StopSet, t)
    ensures t.stopRequested
  {
  }

  /** After a call of stop(), until a new start clears it, at most one more connection attempt begins. */
  lemma AtMostOneAttemptAfterStopCall(states: seq<State>, labels: seq<Label>, n: nat, upto: nat)
    requires IsBehaviour(states, labels) && n < upto <= |labels| && labels[n] == StopSet
    requires forall i :: n < i < upto ==> !labels[i].StopCleared?
    ensures states[upto].stopRequested && Begun(labels[n + 1..upto]) <= 1
  {
    hide Next, Committed, Begun;
    assert Next(states[n], labels[n], states[n + 1]);
    StopIsSet(states[n], states[n + 1]);
    AtMostOneAttemptAfterStop(states, labels, n + 1, upto);
  }

  /** A worker that has left a connection only waits for another if reconnecting is on and no stop has been
      requested at that moment. */
  lemma WaitsOnlyIfAllowed(s: State, l: Label, t: State, id: nat)
    requires Next(s, l, t) && id < |s.workers| && id < |t.workers|
    requires s.workers[id].AtCheck? && t.workers[id].InBackOff?
    ensures s.autoReconnect && !s.stopRequested
  {
    if CallerStep(s, l, t) {
      CallerLeavesWorkers(s, l, t, id);
    } else {
      var j: nat :| j < |s.workers| && WorkerStep(s, l, t, j);
    }
  }

  lemma CallerLeavesWorkers(s: State, l: Label, t: State, id: nat)
    requires CallerStep(s, l, t) && id < |s.workers|
    ensures id < |t.workers| && t.workers[id] == s.workers[id]
  {
  }
}
