// Which keys and buttons are held, told from the messages alone: the last message about each decides.
module Wishes {
  import opened ByteOrder
  import opened Messages
  import opened ClientModel
  import opened Effects
  import opened Runs
  import opened Modifiers

  /** What a message asks of a key: to be down, to be up, or nothing. */
  function KeyWish(m: Msg, k: uint32): Option<bool> {
    match m
    case KeyDown(id, _, _) => if Unsigned32(id) == k then Some(true) else None
    case KeyRepeat(id, _, _, _, _) => if Unsigned32(id) == k then Some(true) else None
    case KeyDownLang(id, _, _, _) => if Unsigned32(id) == k then Some(true) else None
    case KeyUp(id, _, _) => if Unsigned32(id) == k then Some(false) else None
    case _ => None
  }

  /** What a message asks of a button; leaving the screen lets go of all. */
  function ButtonWish(m: Msg, id: int): Option<bool> {
    match m
    case MouseDown(b) => if b == id then Some(true) else None
    case MouseUp(b) => if b == id then Some(false) else None
    case Leave => Some(false)
    case _ => None
  }

  /** The wish if there is one, else what held before. */
  function Fulfilled(wish: Option<bool>, before: bool): bool {
    match wish
    case Some(w) => w
    case None => before
  }

  function LastKeyWish(ms: seq<Msg>, k: uint32): Option<bool> {
    if ms == [] then None
    else
      var wish := KeyWish(ms[|ms| - 1], k);
      if wish.Some? then wish else LastKeyWish(ms[..|ms| - 1], k)
  }

  function LastButtonWish(ms: seq<Msg>, id: int): Option<bool> {
    if ms == [] then None
    else
      var wish := ButtonWish(ms[|ms| - 1], id);
      if wish.Some? then wish else LastButtonWish(ms[..|ms| - 1], id)
  }

  // ---------- keys ----------

  lemma {:induction false} SyncKeepsOtherKeys(c: Core, mask: uint32, bits: seq<uint32>, k: uint32)
    requires forall i :: 0 <= i < |bits| ==> bits[i] in MODIFIER_BITS && bits[i] > 0
    requires !IsModifier(k)
    ensures IsDown(SyncBits(c, mask, bits).keyStates, k) <==> IsDown(c.keyStates, k)
    decreases |bits|
  {
    hide SyncKey, HasBit, IsDown;
    if bits != [] {
      var j, want := ModifierKeysym(bits[0]), HasBit(mask, bits[0]);
      assert IsModifier(j);
      SyncKeySets(c, j, want);
      SyncKeepsOtherKeys(SyncKey(c, j, want), mask, bits[1..], k);
    }
  }

  lemma KeyToFulfils(c: Core, id: int16, mask: int16, down: bool, k: uint32)
    requires !IsModifier(k)
    ensures IsDown(KeyTo(c, id, mask, down).keyStates, k)
      <==> if Unsigned32(id) == k then down else IsDown(c.keyStates, k)
  {
    hide SyncBits, SyncKey, Unsigned32;
    var c1 := SyncModifiers(c, Unsigned32(mask));
    SyncKeepsOtherKeys(c, Unsigned32(mask), MODIFIER_BITS, k);
    SyncKeySets(Touch(c1, Unsigned32(id)), Unsigned32(id), down);
  }

  lemma EnterKeepsOtherKeys(c: Core, x: int16, y: int16, seqNum: uint32, mask: int16, k: uint32)
    requires !IsModifier(k)
    ensures IsDown(Entered(c, x, y, seqNum, mask).keyStates, k) <==> IsDown(c.keyStates, k)
  {
    hide SyncBits, Clamp, LowestHeld, Unsigned32;
    var c1 := c.(session := c.session.(active := true, seqNum := seqNum));
    SyncKeepsOtherKeys(if x >= 0 && y >= 0 then PointerTo(c1, x, y) else c1, Unsigned32(mask), MODIFIER_BITS, k);
  }

  lemma MessageFulfilsKey(c: Core, m: Msg, a: Ambient, k: uint32)
    requires !IsModifier(k)
    ensures IsDown(Handle(c, m, a).core.keyStates, k) <==> Fulfilled(KeyWish(m, k), IsDown(c.keyStates, k))
  {
    hide Entered, Departed, PointerTo, PointerBy, ButtonTo, Wheeled, KeyTo, ReceiveChunk, InfoPayload;
    hide Unsigned32, IsDown;
    match m
    case Enter(x, y, seqNum, mask) => EnterKeepsOtherKeys(c, x, y, seqNum, mask, k);
    case KeyDown(id, mask, _) => KeyToFulfils(c, id, mask, true, k);
    case KeyUp(id, mask, _) => KeyToFulfils(c, id, mask, false, k);
    case KeyRepeat(id, mask, _, _, _) => KeyToFulfils(c, id, mask, true, k);
    case KeyDownLang(id, mask, _, _) => KeyToFulfils(c, id, mask, true, k);
    case _ => OtherMessagesKeepKeys(c, m, a);
  }

  /** Over any run a key that is not a modifier is down exactly as the last message about it asked,
      whatever other messages, masks, leaves and reconnections come in between. */
  lemma {:induction false} KeysFollowMessages(c: Core, xs: seq<Action>, k: uint32)
    requires !IsModifier(k)
    ensures IsDown(Run(c, xs).keyStates, k)
      <==> Fulfilled(LastKeyWish(MessagesOf(xs), k), IsDown(c.keyStates, k))
  {
    hide Handle, KeyWish, IsDown;
    if xs != [] {
      var front, x := xs[..|xs| - 1], xs[|xs| - 1];
      KeysFollowMessages(c, front, k);
      if x.Received? {
        MessageFulfilsKey(Run(c, front), x.m, x.a, k);
        assert MessagesOf(xs) == MessagesOf(front) + [x.m];
        assert MessagesOf(xs)[..|MessagesOf(front)|] == MessagesOf(front);
      } else {
        assert MessagesOf(xs) == MessagesOf(front);
      }
    }
  }

  // ---------- buttons ----------

  lemma MessageFulfilsButton(c: Core, m: Msg, a: Ambient, id: int)
    requires 1 <= id <= 3
    ensures Holds(Handle(c, m, a).core.buttonsDown, id)
      <==> Fulfilled(ButtonWish(m, id), Holds(c.buttonsDown, id))
  {
    hide Handle, PointerEvents, Told;
    var _ := HandleChanges(c, m, a);
  }

  /** Over any run a button is held exactly as the last message about it asked, a leave being one. */
  lemma {:induction false} ButtonsFollowMessages(c: Core, xs: seq<Action>, id: int)
    requires 1 <= id <= 3
    ensures Holds(Run(c, xs).buttonsDown, id)
      <==> Fulfilled(LastButtonWish(MessagesOf(xs), id), Holds(c.buttonsDown, id))
  {
    hide Handle, ButtonWish, Holds;
    if xs != [] {
      var front, x := xs[..|xs| - 1], xs[|xs| - 1];
      ButtonsFollowMessages(c, front, id);
      if x.Received? {
        MessageFulfilsButton(Run(c, front), x.m, x.a, id);
        assert MessagesOf(xs) == MessagesOf(front) + [x.m];
        assert MessagesOf(xs)[..|MessagesOf(front)|] == MessagesOf(front);
      } else {
        assert MessagesOf(xs) == MessagesOf(front);
      }
    }
  }

  // ---------- the session ----------

  /** The session number of the last CINN. */
  function LastSession(ms: seq<Msg>, before: uint32): uint32 {
    if ms == [] then before
    else if ms[|ms| - 1].Enter? then ms[|ms| - 1].seqNum
    else LastSession(ms[..|ms| - 1], before)
  }

  /** Whether the last CINN or COUT was a CINN. */
  function LastInside(ms: seq<Msg>, before: bool): bool {
    if ms == [] then before
    else if ms[|ms| - 1].Enter? then true
    else if ms[|ms| - 1].Leave? then false
    else LastInside(ms[..|ms| - 1], before)
  }

  lemma MessageTellsSession(c: Core, m: Msg, a: Ambient)
    ensures var s := Handle(c, m, a).core.session;
      && s.seqNum == (if m.Enter? then m.seqNum else c.session.seqNum)
      && s.active == (if m.Enter? then true else if m.Leave? then false else c.session.active)
  {
    hide Handle, PointerEvents, ButtonsAfter, Told;
    var _ := HandleChanges(c, m, a);
  }

  /** Over any run the session number, which uploads carry, is that of the last CINN, and the client takes
      itself to be active exactly since a CINN without a later COUT. */
  lemma {:induction false} SessionFollowsMessages(c: Core, xs: seq<Action>)
    ensures Run(c, xs).session.seqNum == LastSession(MessagesOf(xs), c.session.seqNum)
    ensures Run(c, xs).session.active == LastInside(MessagesOf(xs), c.session.active)
  {
    hide Handle;
    if xs != [] {
      var front, x := xs[..|xs| - 1], xs[|xs| - 1];
      SessionFollowsMessages(c, front);
      if x.Received? {
        MessageTellsSession(Run(c, front), x.m, x.a);
        assert MessagesOf(xs) == MessagesOf(front) + [x.m];
        assert MessagesOf(xs)[..|MessagesOf(front)|] == MessagesOf(front);
      } else {
        assert MessagesOf(xs) == MessagesOf(front);
      }
    }
  }
}
