// Coordinates of injected events, the pointer's range, and wheel events in complete groups.
module InjectionSafety {
  import opened ByteOrder
  import opened Messages
  import opened ClientModel
  import opened Runs
  import opened Effects

  // ---------- what is safe ----------

  /** Moves and button events stay off the edges the system rejects. */
  ghost predicate Inside(e: Event, w: int, h: int) {
    match e
    case MoveEvent(x, y, _) => 1 <= x <= w - 1 && 1 <= y <= h - 1
    case ButtonEvent(_, _, x, y) => 1 <= x <= w - 1 && 1 <= y <= h - 1
    case _ => true
  }

  function NextPhase(p: Phase): Phase {
    match p
    case AxisBegin => AxisUpdate
    case _ => AxisEnd
  }

  /** `f` carries on the wheel gesture of `e`: same axis, value and point, next phase. */
  ghost predicate Continues(e: Event, f: Event) {
    && e.AxisEvent? && f.AxisEvent? && !e.phase.AxisEnd? && e.ok
    && f == e.(phase := NextPhase(e.phase), ok := f.ok)
  }

  /** Wheel events come as BEGIN, UPDATE, END with nothing in between, and a group is cut short only
      by an event the system did not accept. */
  ghost predicate Grouped(t: seq<Event>) {
    forall i :: 0 <= i < |t| ==> GroupedAt(t, i)
  }

  ghost predicate GroupedAt(t: seq<Event>, i: nat)
    requires i < |t|
  {
    t[i].AxisEvent? ==>
      && (!t[i].phase.AxisBegin? ==> i > 0 && Continues(t[i - 1], t[i]))
      && (!t[i].phase.AxisEnd? && t[i].ok ==> i + 1 < |t| && Continues(t[i], t[i + 1]))
  }

  ghost predicate Good(t: seq<Event>, w: int, h: int) {
    (forall i :: 0 <= i < |t| ==> Inside(t[i], w, h)) && Grouped(t)
  }

  lemma GoodConcat(s: seq<Event>, t: seq<Event>, w: int, h: int)
    requires Good(s, w, h) && Good(t, w, h)
    ensures Good(s + t, w, h)
  {
    hide Inside, Continues;
    var u := s + t;
    forall i | 0 <= i < |u|
      ensures GroupedAt(u, i)
    {
      if i < |s| {
        assert GroupedAt(s, i) && u[i] == s[i];
        assert i > 0 ==> u[i - 1] == s[i - 1];
        assert i + 1 < |s| ==> u[i + 1] == s[i + 1];
      } else {
        var j := i - |s|;
        assert GroupedAt(t, j) && u[i] == t[j];
        assert j > 0 ==> u[i - 1] == t[j - 1];
        assert j + 1 < |t| ==> u[i + 1] == t[j + 1];
      }
    }
  }

  // ---------- what each step appends ----------

  /** The trace has grown by `more`; the screen is the same. */
  ghost predicate Extends(c: Core, d: Core, more: seq<Event>) {
    && d.trace == c.trace + more && d.screen == c.screen
    && (c.screen.w >= 2 && c.screen.h >= 2 ==> Good(more, c.screen.w, c.screen.h))
  }

  lemma ExtendsTwice(c: Core, d: Core, e: Core, m: seq<Event>, n: seq<Event>)
    requires Extends(c, d, m) && Extends(d, e, n)
    ensures Extends(c, e, m + n)
  {
    hide Good;
    assert c.trace + m + n == c.trace + (m + n);
    if c.screen.w >= 2 && c.screen.h >= 2 {
      GoodConcat(m, n, c.screen.w, c.screen.h);
    }
  }

  lemma ExtendsNothing(c: Core, d: Core)
    requires d.trace == c.trace && d.screen == c.screen
    ensures Extends(c, d, [])
  {
    assert c.trace + [] == c.trace;
  }

  /** Clamping puts every coordinate in [1, size - 1] exactly for screens of at least two points. */
  lemma ClampIsSafeExactlyFromTwo(size: int)
    ensures (forall v :: 1 <= Clamp(v, size) <= size - 1) <==> size >= 2
  {
    if size < 2 {
      assert Clamp(0, size) == 1;
    }
  }

  /** And no safe coordinate is nearer to the one asked for. */
  lemma ClampIsNearest(v: int, size: int, p: int)
    requires 1 <= p <= size - 1
    ensures Distance(Clamp(v, size), v) <= Distance(p, v)
  {
  }

  lemma AxisEventsAreGrouped(vertical: bool, value: int, x: int, y: int, accepts: nat)
    ensures Grouped(AxisEvents(vertical, value, x, y, accepts))
  {
  }

  /** Inversion turns vertical scrolling round and leaves horizontal alone; a message with both deltas
      scrolls vertically only. */
  lemma ScrollDirections(c: Core, dx: int, dy: int, a: Ambient)
    ensures Wheeled(c, dx, dy, a) == Wheeled(c, dx, -dy, a.(invert := !a.invert))
    ensures Wheeled(c, dx, 0, a) == Wheeled(c, dx, 0, a.(invert := !a.invert))
    ensures dy != 0 ==> Wheeled(c, dx, dy, a) == Wheeled(c, 0, dy, a)
  {
    hide AxisEvents;
  }

  /** What a scroll is: vertical if there is a vertical delta, turned round on request, else horizontal; at
      the pointer; begun, and gone on with as long as the system accepts, for three events at most. */
  lemma WheelInjects(c: Core, dx: int16, dy: int16, a: Ambient)
    requires dx != 0 || dy != 0
    ensures var d := Handle(c, MouseWheel(dx, dy), a).core; var n := if a.accepts < 2 then a.accepts + 1 else 3;
      var x: int, y: int := dx, dy;
      && |d.trace| == |c.trace| + n && d.trace[..|c.trace|] == c.trace
      && forall i :: 0 <= i < n ==>
        d.trace[|c.trace| + i] == AxisEvent(
          [AxisBegin, AxisUpdate, AxisEnd][i], y != 0, if y == 0 then x else if a.invert then -y else y,
          c.pointerX, c.pointerY, i < a.accepts)
  {
    hide Handle, Told;
    var keys := HandleChanges(c, MouseWheel(dx, dy), a);
    var t := WheelEvents(c, dx, dy, a);
    assert t + [] == t;
  }

  /** Buttons 4 and 5, pressed or released, scroll up and down by one. */
  lemma WheelButtonsScroll(c: Core, a: Ambient)
    ensures Handle(c, MouseDown(4), a) == Handle(c, MouseUp(4), a) == Handle(c, MouseWheel(0, 1), a)
    ensures Handle(c, MouseDown(5), a) == Handle(c, MouseUp(5), a) == Handle(c, MouseWheel(0, -1), a)
  {
    hide Wheeled;
  }

  lemma {:induction false} ReleasesAreGood(bs: seq<Button>, c: Core)
    requires c.screen.w >= 2 && c.screen.h >= 2
    ensures Good(Releases(bs, Clamped(c)), c.screen.w, c.screen.h)
  {
    ReleasesAre(bs, Clamped(c));
  }

  lemma WheelEventsAreGood(c: Core, dx: int, dy: int, a: Ambient)
    ensures Good(WheelEvents(c, dx, dy, a), c.screen.w, c.screen.h)
  {
    hide Grouped;
    if dx == 0 && dy == 0 {
      NothingIsGrouped();
    } else {
      var v := if a.invert then -dy else dy;
      AxisEventsAreGrouped(v != 0, if v != 0 then v else dx, c.pointerX, c.pointerY, a.accepts);
    }
  }

  lemma NothingIsGrouped()
    ensures Grouped([])
  {
  }

  lemma PointerEventsAreGood(c: Core, m: Msg, a: Ambient)
    requires c.screen.w >= 2 && c.screen.h >= 2
    ensures Good(PointerEvents(c, m, a), c.screen.w, c.screen.h)
  {
    hide WheelEvents, Releases, HeldButtons, LowestHeld, Told;
    match m
    case Leave => ReleasesAreGood(HeldButtons(c.buttonsDown), c);
    case MouseDown(b) => WheelEventsAreGood(c, 0, if b == 4 then 1 else -1, a);
    case MouseUp(b) => WheelEventsAreGood(c, 0, if b == 4 then 1 else -1, a);
    case MouseWheel(dx, dy) => WheelEventsAreGood(c, dx, dy, a);
    case _ =>
  }

  lemma MessageExtends(c: Core, m: Msg, a: Ambient) returns (more: seq<Event>)
    ensures Extends(c, Handle(c, m, a).core, more)
  {
    hide Handle, Good, PointerEvents, ButtonsAfter, Told;
    var keys := HandleChanges(c, m, a);
    more := PointerEvents(c, m, a) + keys;
    if c.screen.w >= 2 && c.screen.h >= 2 {
      PointerEventsAreGood(c, m, a);
      KeysAreGood(keys, c.screen.w, c.screen.h);
      GoodConcat(PointerEvents(c, m, a), keys, c.screen.w, c.screen.h);
    }
  }

  lemma KeysAreGood(keys: seq<Event>, w: int, h: int)
    requires AllKeys(keys)
    ensures Good(keys, w, h)
  {
  }

  /** While the size of the screen is not set, whatever is injected is safe on it. */
  lemma {:induction false} StretchIsSafe(c: Core, xs: seq<Action>) returns (more: seq<Event>)
    requires KeepsScreen(xs)
    ensures Extends(c, Run(c, xs), more)
  {
    hide Extends, Handle;
    if xs == [] {
      more := [];
      ExtendsNothing(c, c);
    } else {
      var before := Run(c, xs[..|xs| - 1]);
      more := StretchIsSafe(c, xs[..|xs| - 1]);
      var last := [];
      match xs[|xs| - 1] {
        case Received(m, a) => last := MessageExtends(before, m, a);
        case _ => ExtendsNothing(before, Run(c, xs));
      }
      ExtendsTwice(c, before, Run(c, xs), more, last);
      more := more + last;
    }
  }

  // ---------- any screens ----------

  /** At least two points each way, and no more than `w` by `h`. */
  predicate Fits(screen: Screen, w: int, h: int) {
    2 <= screen.w <= w && 2 <= screen.h <= h
  }

  /** Every size set is at least two points each way and within `w` by `h`. */
  ghost predicate SizesFit(xs: seq<Action>, w: int, h: int) {
    forall i :: 0 <= i < |xs| && xs[i].Resized? ==> 2 <= xs[i].w <= w && 2 <= xs[i].h <= h
  }

  lemma GoodWidens(t: seq<Event>, screen: Screen, w: int, h: int)
    requires Good(t, screen.w, screen.h) && Fits(screen, w, h)
    ensures Good(t, w, h)
  {
    hide Grouped;
    forall i | 0 <= i < |t|
      ensures Inside(t[i], w, h)
    {
      assert Inside(t[i], screen.w, screen.h);
    }
  }

  lemma StepIsSafe(c: Core, x: Action, w: int, h: int)
    requires Fits(c.screen, w, h) && Good(c.trace, w, h)
    requires x.Resized? ==> 2 <= x.w <= w && 2 <= x.h <= h
    ensures Fits(Perform(c, x).screen, w, h) && Good(Perform(c, x).trace, w, h)
  {
    hide Good, Handle;
    if x.Received? {
      var more := MessageExtends(c, x.m, x.a);
      GoodWidens(more, c.screen, w, h);
      GoodConcat(c.trace, more, w, h);
    }
  }

  /** Over any run on screens of at least two points each way, also when the size is set in between: every
      move and button event is inside the largest of them and off its edges, and wheel events come in
      groups cut short only by a refusal. With one size throughout, that is the largest. */
  lemma {:induction false} InjectionIsSafe(c: Core, xs: seq<Action>, w: int, h: int)
    requires Fits(c.screen, w, h) && SizesFit(xs, w, h) && Good(c.trace, w, h)
    ensures Fits(Run(c, xs).screen, w, h) && Good(Run(c, xs).trace, w, h)
  {
    hide Good, Perform, Fits;
    if xs != [] {
      InjectionIsSafe(c, xs[..|xs| - 1], w, h);
      StepIsSafe(Run(c, xs[..|xs| - 1]), xs[|xs| - 1], w, h);
    }
  }
}
