// The invariants of runs, carried over to what a worker does with the octets it receives.
module WorkerInvariants {
  import opened ByteOrder
  import opened ClientModel
  import opened Effects
  import opened Connections
  import opened Runs
  import opened KeyInvariants
  import opened Modifiers
  import opened MouseInvariants
  import opened InjectionSafety
  import opened Wishes
  import opened Pointing

  /** Keys alternate, drags are consistent, buttons act where the last move went. No screen is too small
      for this. */
  ghost predicate Consistent(c: Core) {
    KeysAgree(c) && ButtonsAgree(c) && Tracks(c)
  }

  /** On a screen of at least two points each way: coordinates and wheel groups are safe, and the pointer is
      in its range. */
  ghost predicate Safe(c: Core) {
    && Fits(c.screen, c.screen.w, c.screen.h)
    && Good(c.trace, c.screen.w, c.screen.h)
    && PointerInRange(c, c.screen.w, c.screen.h)
  }

  lemma FreshClientIsSound()
    ensures Consistent(INITIAL) && Safe(INITIAL)
  {
    hide KeysAgree, ButtonsAgree, Tracks;
    FreshClientAgrees();
    FreshClientButtons();
    FreshClientTracks();
  }

  /** Any number of attempts, whatever octets arrive and however the connections end, keep keys, drags and
      places consistent. */
  lemma WorkerStaysConsistent(c: Core, ts: seq<Attempt>)
    requires Consistent(c)
    ensures Consistent(AfterAttempts(c, ts))
  {
    hide Run, KeysAgree, ButtonsAgree, Tracks, AfterAttempts, MessagesIn, SamplesIn, MessagesOf, SamplesOf;
    var xs := AttemptsAreActions(c, ts);
    KeysAlternate(c, xs);
    DragsAreConsistent(c, xs);
    ButtonsActOnOneScreen(c, xs);
  }

  /** And on a screen of at least two points each way what they inject is safe. */
  lemma WorkerStaysSafe(c: Core, ts: seq<Attempt>)
    requires Safe(c)
    ensures Safe(AfterAttempts(c, ts)) && AfterAttempts(c, ts).screen == c.screen
  {
    hide Run, Good, PointerInRange, AfterAttempts, MessagesIn, SamplesIn, MessagesOf, SamplesOf, ToldAll;
    var xs := AttemptsAreActions(c, ts);
    PointerFollowsMessages(c, xs);
    InjectionIsSafe(c, xs, c.screen.w, c.screen.h);
    PointerStaysInRange(c, xs, c.screen.w, c.screen.h);
  }

  /** Once any mask has been parsed from the octets received in any of the attempts, the six modifier
      keys are down exactly as the last such mask says. */
  lemma WorkerFollowsLastMask(c: Core, ts: seq<Attempt>)
    requires LatestMask(MessagesIn(c, ts)).Some?
    ensures Follows(AfterAttempts(c, ts), LatestMask(MessagesIn(c, ts)).value)
  {
    hide Run, Follows, AfterAttempts, MessagesOf, MessagesIn, SamplesOf, SamplesIn, LatestMask;
    var xs := AttemptsAreActions(c, ts);
    ModifiersFollowLatestMask(c, xs);
  }

  /** After any attempts, what is held and where the pointer is can be told from the messages parsed from
      the octets received: the last message about a key or button decides, and only moves and entries
      move the pointer. */
  lemma WorkerFollowsMessages(c: Core, ts: seq<Attempt>, k: uint32, id: int)
    requires !IsModifier(k) && 1 <= id <= 3
    ensures var d := AfterAttempts(c, ts); var ms := MessagesIn(c, ts);
      && (IsDown(d.keyStates, k) <==> Fulfilled(LastKeyWish(ms, k), IsDown(c.keyStates, k)))
      && (Holds(d.buttonsDown, id) <==> Fulfilled(LastButtonWish(ms, id), Holds(c.buttonsDown, id)))
      && Pointer(d) == ToldAll(Pointer(c), ms, c.screen)
      && d.session.seqNum == LastSession(ms, c.session.seqNum)
      && d.session.active == LastInside(ms, c.session.active)
  {
    hide Run, AfterAttempts, MessagesOf, MessagesIn, SamplesOf, SamplesIn;
    hide LastSession, LastInside, LastKeyWish, LastButtonWish, ToldAll, IsDown, Holds, Fulfilled;
    var xs := AttemptsAreActions(c, ts);
    KeysFollowMessages(c, xs, k);
    ButtonsFollowMessages(c, xs, id);
    SessionFollowsMessages(c, xs);
    PointerFollowsMessages(c, xs);
  }
}
