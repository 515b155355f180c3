// The tray icon manager: a debounce timer in front of a serialised chain of asynchronous updates.
module Tray {
  import opened ByteOrder

  /** A connection state; 0 to 3 are disconnected, connecting, connected, error. */
  type ConnState = int

  /** What the status bar shows: the states the icon and the menu were built for. */
  datatype Shown = Shown(icon: ConnState, menu: ConnState)

  /** One application by doUpdateState: the state it used, the manager's state at that instant, and
      whether the icon (loaded and set) and the menu got through. */
  datatype Applied = Applied(used: ConnState, wanted: ConnState, iconOk: bool, menuOk: bool)

  /** The manager together with the status bar. `loading` is the chain entry waiting for its icons,
      `queued` counts the entries behind it. */
  datatype TrayState = TrayState(
    added: bool,
    state: ConnState,
    timer: bool,
    queued: nat,
    loading: Option<ConnState>,
    adding: Option<ConnState>,
    shown: Option<Shown>,
    log: seq<Applied>)

  /** What can happen next, in any order the event loop chooses. */
  datatype Event =
    | UpdateState(state: ConnState)
    | TimerFires
    | EntryBegins
    | EntryEnds(iconOk: bool, menuOk: bool)
    | AddBegins
    | AddEnds(iconsLoaded: bool)
    | Removed(ok: bool)

  const START := TrayState(false, 0, false, 0, None, None, None, [])

  predicate Enabled(t: TrayState, e: Event) {
    match e
    case TimerFires => t.timer
    case EntryBegins => t.loading.None? && t.queued > 0
    case EntryEnds(_, _) => t.loading.Some?
    case AddBegins => !t.added && t.adding.None?
    case AddEnds(_) => t.adding.Some?
    case _ => true
  }

  /** Sets icon and menu of the item, if there is one, for the state `used`. */
  function Apply(t: TrayState, used: ConnState, iconOk: bool, menuOk: bool): TrayState {
    var shown := match t.shown
      case None => None
      case Some(v) => Some(Shown(if iconOk then used else v.icon, if menuOk then used else v.menu));
    t.(shown := shown, log := t.log + [Applied(used, t.state, iconOk, menuOk)])
  }

  function Step(t: TrayState, e: Event): TrayState
    requires Enabled(t, e)
  {
    match e
    case UpdateState(s) => t.(state := s, timer := t.timer || t.added)
    case TimerFires => t.(timer := false, queued := t.queued + 1)
    case EntryBegins => t.(queued := t.queued - 1, loading := Some(t.state))
    case EntryEnds(iconOk, menuOk) =>
      var t' := t.(loading := None);
      if t.loading.value != t.state then t' else Apply(t', t.loading.value, iconOk, menuOk)
    case AddBegins => t.(adding := Some(t.state))
    case AddEnds(iconsLoaded) =>
      var t' := t.(adding := None);
      if iconsLoaded then t'.(added := true, shown := Some(Shown(t.adding.value, t.state))) else t'
    case Removed(ok) => if t.added && ok then t.(added := false, shown := None) else t
  }

  // ---------- the class ----------

  class StatusBarManager {
    var added: bool
    var state: ConnState
    var debounceTimer: bool
    var updateChain: nat
    var current: Option<ConnState>
    var adding: Option<ConnState>

    // The status bar's side.
    var shown: Option<Shown>

    ghost var log: seq<Applied>

    ghost function View(): TrayState
      reads this
    {
      TrayState(added, state, debounceTimer, updateChain, current, adding, shown, log)
    }

    constructor ()
      ensures View() == START
    {
      added, state, debounceTimer, updateChain := false, 0, false, 0;
      current, adding, shown := None, None, None;
      log := [];
    }

    /** Remembers the state; when the item is in the bar, (re)starts the debounce timer. */
    method RequestState(s: ConnState)
      modifies this
      ensures View() == Step(old(View()), UpdateState(s))
    {
      state := s;
      if !added {
        return;
      }
      if debounceTimer {
        debounceTimer := false;
      }
      debounceTimer := true;
    }

    /** The timer callback: one more entry on the chain. */
    method OnTimer()
      requires debounceTimer
      modifies this
      ensures View() == Step(old(View()), TimerFires)
    {
      debounceTimer := false;
      updateChain := updateChain + 1;
    }

    /** doUpdateState up to its await: takes the state and asks for its icons. */
    method BeginEntry()
      requires current.None? && updateChain > 0
      modifies this
      ensures View() == Step(old(View()), EntryBegins)
    {
      updateChain := updateChain - 1;
      current := Some(state);
    }

    /** doUpdateState after its await: gives up if the state has changed, else sets icon and menu. */
    method EndEntry(iconOk: bool, menuOk: bool)
      requires current.Some?
      modifies this
      ensures View() == Step(old(View()), EntryEnds(iconOk, menuOk))
    {
      var s := current.value;
      current := None;
      if s != state {
        return;
      }
      if iconOk && shown.Some? {
        shown := Some(shown.value.(icon := s));
      }
      if menuOk && shown.Some? {
        shown := Some(shown.value.(menu := s));
      }
      log := log + [Applied(s, state, iconOk, menuOk)];
    }

    /** add() up to its await. */
    method BeginAdd()
      requires !added && adding.None?
      modifies this
      ensures View() == Step(old(View()), AddBegins)
    {
      adding := Some(state);
    }

    /** add() after its await: the icons are those of the state at the call, the menu that of now. */
    method EndAdd(iconsLoaded: bool)
      requires adding.Some?
      modifies this
      ensures View() == Step(old(View()), AddEnds(iconsLoaded))
    {
      var s := adding.value;
      adding := None;
      if iconsLoaded {
        shown := Some(Shown(s, state));
        added := true;
      }
    }

    /** remove(); a call that throws leaves the item in the bar and counts as added. */
    method Remove(ok: bool)
      modifies this
      ensures View() == Step(old(View()), Removed(ok))
    {
      if !added {
        return;
      }
      if !ok {
        return;
      }
      shown := None;
      added := false;
    }
  }

  // ---------- runs ----------

  /** Each event was possible when it happened. */
  ghost predicate Possible(es: seq<Event>)
    decreases |es|, 0
  {
    es == [] || (Possible(es[..|es| - 1]) && Enabled(After(es[..|es| - 1]), es[|es| - 1]))
  }

  ghost function After(es: seq<Event>): TrayState
    requires Possible(es)
    decreases |es|, 1
  {
    if es == [] then START else Step(After(es[..|es| - 1]), es[|es| - 1])
  }

  /** No timer set, no entry waiting or loading. */
  predicate Quiet(t: TrayState) {
    !t.timer && t.queued == 0 && t.loading.None?
  }

  /** The last application used the state now wanted, and what got through shows it. */
  ghost predicate Settled(t: TrayState) {
    && t.shown.Some? && t.log != []
    && var a := t.log[|t.log| - 1];
       && a.used == t.state
       && (a.iconOk ==> t.shown.value.icon == t.state)
       && (a.menuOk ==> t.shown.value.menu == t.state)
  }

  // ---------- told from the events ----------

  /** The last add() or remove() that got through was an add(). */
  predicate InBar(es: seq<Event>) {
    if es == [] then false
    else
      match es[|es| - 1]
      case AddEnds(loaded) => loaded || InBar(es[..|es| - 1])
      case Removed(ok) => !ok && InBar(es[..|es| - 1])
      case _ => InBar(es[..|es| - 1])
  }

  /** updateState has been called since the item was added. */
  predicate Requested(es: seq<Event>) {
    if es == [] then false
    else
      match es[|es| - 1]
      case UpdateState(_) => InBar(es[..|es| - 1])
      case AddEnds(loaded) => !loaded && Requested(es[..|es| - 1])
      case Removed(ok) => !ok && Requested(es[..|es| - 1])
      case _ => Requested(es[..|es| - 1])
  }

  /** `requested` when a request has been made since the item was added. */
  ghost predicate Inv(t: TrayState, requested: bool) {
    && (t.added <==> t.shown.Some?)
    && (requested ==> t.added)
    && (requested ==> t.timer || t.queued > 0 || t.loading == Some(t.state) || Settled(t))
    && (forall i :: 0 <= i < |t.log| ==> t.log[i].used == t.log[i].wanted)
    && (t.adding.Some? ==> !t.added)
  }

  function RequestedNext(inBar: bool, requested: bool, e: Event): bool {
    match e
    case UpdateState(_) => inBar
    case AddEnds(loaded) => !loaded && requested
    case Removed(ok) => !ok && requested
    case _ => requested
  }

  lemma StepKeepsInv(t: TrayState, e: Event, requested: bool)
    requires Inv(t, requested) && Enabled(t, e)
    ensures Inv(Step(t, e), RequestedNext(t.added, requested, e))
  {
    if e.EntryEnds? && t.loading.value == t.state {
      var t' := Step(t, e);
      assert t'.log == t.log + [Applied(t.state, t.state, e.iconOk, e.menuOk)];
    }
  }

  lemma {:induction false} AddedIsInBar(es: seq<Event>)
    requires Possible(es)
    ensures After(es).added <==> InBar(es)
  {
    if es != [] {
      AddedIsInBar(es[..|es| - 1]);
    }
  }

  lemma {:induction false} InvHolds(es: seq<Event>)
    requires Possible(es)
    ensures Inv(After(es), Requested(es))
  {
    hide Inv, Step;
    if es == [] {
      StartIsFine();
    } else {
      InvHolds(es[..|es| - 1]);
      AddedIsInBar(es[..|es| - 1]);
      StepKeepsInv(After(es[..|es| - 1]), es[|es| - 1], Requested(es[..|es| - 1]));
    }
  }

  lemma StartIsFine()
    ensures Inv(START, false)
  {
  }

  // ---------- convergence ----------

  /** The argument of the last updateState. */
  function LastRequested(es: seq<Event>): ConnState {
    if es == [] then 0
    else if es[|es| - 1].UpdateState? then es[|es| - 1].state
    else LastRequested(es[..|es| - 1])
  }

  lemma {:induction false} StateIsLastRequested(es: seq<Event>)
    requires Possible(es)
    ensures After(es).state == LastRequested(es)
  {
    if es != [] {
      StateIsLastRequested(es[..|es| - 1]);
    }
  }

  /** For every order of updateState calls, timer firings, chain entries and icon loads: every application
      used the state current at that instant, and once updateState has been called on an item in the bar,
      whenever nothing is pending any more the last application used the state last requested, and icon
      and menu, as far as they got through, show it. */
  lemma TrayConverges(es: seq<Event>)
    requires Possible(es)
    ensures forall i :: 0 <= i < |After(es).log| ==> After(es).log[i].used == After(es).log[i].wanted
    ensures Requested(es) && Quiet(After(es)) ==>
      && After(es).state == LastRequested(es)
      && Settled(After(es))
  {
    hide Step;
    InvHolds(es);
    StateIsLastRequested(es);
  }

  ghost predicate AllGotThrough(es: seq<Event>) {
    forall i :: 0 <= i < |es| && es[i].EntryEnds? ==> es[i].iconOk && es[i].menuOk
  }

  lemma {:induction false} LogGotThrough(es: seq<Event>)
    requires Possible(es) && AllGotThrough(es)
    ensures forall i :: 0 <= i < |After(es).log| ==> After(es).log[i].iconOk && After(es).log[i].menuOk
  {
    if es != [] {
      var front, e := es[..|es| - 1], es[|es| - 1];
      assert forall i :: 0 <= i < |front| ==> front[i] == es[i];
      LogGotThrough(front);
      if e.EntryEnds? {
        assert es[|es| - 1].iconOk && es[|es| - 1].menuOk;
      }
    }
  }

  /** With every load and call succeeding, what is shown when nothing is pending is exactly the state last
      requested, icon and menu alike. */
  lemma TrayShowsLastRequested(es: seq<Event>)
    requires Possible(es) && AllGotThrough(es)
    requires Requested(es) && Quiet(After(es))
    ensures After(es).shown == Some(Shown(LastRequested(es), LastRequested(es)))
  {
    hide Step;
    TrayConverges(es);
    LogGotThrough(es);
  }

  /** What does not get through leaves what is shown; what does shows the state used. */
  lemma FailedPartsStay(t: TrayState, iconOk: bool, menuOk: bool)
    requires t.shown.Some? && t.loading == Some(t.state)
    ensures var v := Step(t, EntryEnds(iconOk, menuOk)).shown;
      && v.Some?
      && v.value.icon == (if iconOk then t.state else t.shown.value.icon)
      && v.value.menu == (if menuOk then t.state else t.shown.value.menu)
  {
  }

  /** After an add() that failed, another can begin. */
  lemma AddCanBeRetried(t: TrayState)
    requires Enabled(t, AddEnds(false)) && Inv(t, false)
    ensures Enabled(Step(t, AddEnds(false)), AddBegins)
  {
  }

  // ---------- it settles, and merges ----------

  /** From any reachable state the timer and the chain entries alone, with nobody asking for anything, lead
      to a state in which nothing is pending. */
  lemma {:induction false} CanSettle(es: seq<Event>) returns (ds: seq<Event>)
    requires Possible(es)
    ensures Possible(es + ds) && Quiet(After(es + ds))
    ensures forall i :: 0 <= i < |ds| ==> ds[i] in {TimerFires, EntryBegins, EntryEnds(true, true)}
    decreases 2 * After(es).queued + (if After(es).loading.Some? then 1 else 0) + (if After(es).timer then 3 else 0)
  {
    var t := After(es);
    if Quiet(t) {
      ds := [];
      assert es + ds == es;
    } else {
      var e := if t.timer then TimerFires else if t.loading.Some? then EntryEnds(true, true) else EntryBegins;
      assert (es + [e])[..|es|] == es;
      var rest := CanSettle(es + [e]);
      ds := [e] + rest;
      assert es + ds == es + [e] + rest;
    }
  }

  /** Requests made while the item is in the bar. */
  function RequestsInBar(es: seq<Event>): nat {
    if es == [] then 0
    else
      RequestsInBar(es[..|es| - 1])
      + (if es[|es| - 1].UpdateState? && InBar(es[..|es| - 1]) then 1 else 0)
  }

  function Firings(es: seq<Event>): nat {
    if es == [] then 0 else Firings(es[..|es| - 1]) + (if es[|es| - 1].TimerFires? then 1 else 0)
  }

  /** Applications made, waiting or under way. */
  function Updates(t: TrayState): nat {
    |t.log| + t.queued + (if t.loading.Some? then 1 else 0)
  }

  lemma StepMerges(t: TrayState, e: Event)
    requires Enabled(t, e)
    ensures Updates(Step(t, e)) <= Updates(t) + (if e.TimerFires? then 1 else 0)
    ensures (if e.TimerFires? then 1 else 0) + (if Step(t, e).timer then 1 else 0)
         <= (if t.timer then 1 else 0) + (if e.UpdateState? && t.added then 1 else 0)
  {
  }

  /** Requests are merged: the status bar is updated at most once for each time the timer fires, and the
      timer fires at most once for each request, however many come before it does. */
  lemma {:induction false} UpdatesAreMerged(es: seq<Event>)
    requires Possible(es)
    ensures Updates(After(es)) <= Firings(es)
    ensures Firings(es) + (if After(es).timer then 1 else 0) <= RequestsInBar(es)
  {
    hide Step;
    if es == [] {
      assert Updates(START) == 0;
    } else {
      UpdatesAreMerged(es[..|es| - 1]);
      AddedIsInBar(es[..|es| - 1]);
      StepMerges(After(es[..|es| - 1]), es[|es| - 1]);
    }
  }

  lemma AddCanDisagree()
    ensures var es := [AddBegins, UpdateState(2), AddEnds(true)];
      && Possible(es) && Quiet(After(es))
      && After(es).shown == Some(Shown(0, 2))
  {
    var e0, e1, e2: Event := AddBegins, UpdateState(2), AddEnds(true);
    var es := [e0, e1, e2];
    assert es[..2] == [e0, e1] && [e0, e1][..1] == [e0] && [e0][..0] == [];
    assert Possible([]) && After([]) == START;
    assert Possible([e0]) && After([e0]) == START.(adding := Some(0));
    assert Possible([e0, e1]) && After([e0, e1]) == START.(adding := Some(0), state := 2);
  }

  // ---------- when icon and menu agree ----------

  /** The number of applications when the item was last added. */
  ghost function AppliedAtAdd(es: seq<Event>): nat
    requires Possible(es)
  {
    if es == [] then 0
    else if es[|es| - 1] == AddEnds(true) then |After(es[..|es| - 1]).log|
    else AppliedAtAdd(es[..|es| - 1])
  }

  /** The state last requested when the last add() began. */
  function RequestedAtAddBegin(es: seq<Event>): ConnState {
    if es == [] then 0
    else if es[|es| - 1].AddBegins? then LastRequested(es[..|es| - 1])
    else RequestedAtAddBegin(es[..|es| - 1])
  }

  /** While the icons of the last successful add() were loading, the requests left the state as it was. */
  predicate UnchangedDuringAdd(es: seq<Event>) {
    if es == [] then true
    else if es[|es| - 1] == AddEnds(true) then
      RequestedAtAddBegin(es[..|es| - 1]) == LastRequested(es[..|es| - 1])
    else UnchangedDuringAdd(es[..|es| - 1])
  }

  lemma {:induction false} AddingIsRequestedAtBegin(es: seq<Event>)
    requires Possible(es)
    ensures After(es).adding.Some? ==> After(es).adding.value == RequestedAtAddBegin(es)
  {
    if es != [] {
      AddingIsRequestedAtBegin(es[..|es| - 1]);
      StateIsLastRequested(es[..|es| - 1]);
    }
  }

  lemma {:induction false} LogOnlyGrows(es: seq<Event>)
    requires Possible(es)
    ensures AppliedAtAdd(es) <= |After(es).log|
  {
    if es != [] {
      LogOnlyGrows(es[..|es| - 1]);
    }
  }

  /** In any order of events with everything getting through, the item's icon and menu agree at every
      moment if and only if an update has been applied since the item was added or the state was not
      changed while the icons were loading. A request made in between sets no timer, so that nothing
      corrects it. */
  lemma {:induction false} IconAndMenuAgree(es: seq<Event>)
    requires Possible(es) && AllGotThrough(es)
    ensures var v := After(es).shown;
      v.Some? ==>
        (v.value.icon == v.value.menu <==> |After(es).log| > AppliedAtAdd(es) || UnchangedDuringAdd(es))
  {
    if es != [] {
      var front, e := es[..|es| - 1], es[|es| - 1];
      assert forall i :: 0 <= i < |front| ==> front[i] == es[i];
      IconAndMenuAgree(front);
      LogOnlyGrows(front);
      if e.EntryEnds? {
        assert es[|es| - 1].iconOk && es[|es| - 1].menuOk;
      }
      if e == AddEnds(true) {
        AddingIsRequestedAtBegin(front);
        StateIsLastRequested(front);
      }
    }
  }
}
