// The modifier keys follow the masks the server sends.
module Modifiers {
  import opened ByteOrder
  import opened Messages
  import opened ClientModel
  import opened Effects
  import opened Runs

  /** The modifier mask a message carries. */
  function MaskOf(m: Msg): Option<uint32> {
    match m
    case Enter(_, _, _, mask) => Some(Unsigned32(mask))
    case KeyDown(_, mask, _) => Some(Unsigned32(mask))
    case KeyUp(_, mask, _) => Some(Unsigned32(mask))
    case KeyRepeat(_, mask, _, _, _) => Some(Unsigned32(mask))
    case KeyDownLang(_, mask, _, _) => Some(Unsigned32(mask))
    case _ => None
  }

  /** The last mask among messages. */
  function LatestMask(ms: seq<Msg>): Option<uint32> {
    if ms == [] then None
    else if MaskOf(ms[|ms| - 1]).Some? then MaskOf(ms[|ms| - 1])
    else LatestMask(ms[..|ms| - 1])
  }

  function Bit(b: bool): nat {
    if b then 1 else 0
  }

  /** One more bit below the others. */
  function Below(b: bool, x: nat): nat {
    Bit(b) + 2 * x
  }

  /** A number with these low bits, the first the lowest. */
  function BitsOf(shift: bool, control: bool, alt: bool, meta: bool, super: bool, altGr: bool): (r: nat)
    ensures r
      == Bit(shift) + 2 * Bit(control) + 4 * Bit(alt) + 8 * Bit(meta) + 16 * Bit(super) + 32 * Bit(altGr) < 64
  {
    Below(shift, Below(control, Below(alt, Below(meta, Below(super, Below(altGr, 0))))))
  }

  /** Which of the six modifier keys are down, as the low six bits of a mask say it. */
  function ModifierBits(states: map<uint32, bool>): nat {
    BitsOf(IsDown(states, 0xEFE1), IsDown(states, 0xEFE3), IsDown(states, 0xEFE9),
           IsDown(states, 0xEFE7), IsDown(states, 0xEFEB), IsDown(states, 0xEFEA))
  }

  /** The six modifier keys are down exactly as the low six bits of the mask say. */
  ghost predicate Follows(c: Core, mask: uint32) {
    ModifierBits(c.keyStates) == mask % 64
  }

  lemma BelowMatches(a: bool, b: bool, x: nat, y: nat)
    ensures Below(a, x) == Below(b, y) <==> a == b && x == y
  {
  }

  lemma BitsMatch(s: bool, k: bool, a: bool, m: bool, u: bool, g: bool,
                  s': bool, k': bool, a': bool, m': bool, u': bool, g': bool)
    ensures BitsOf(s, k, a, m, u, g) == BitsOf(s', k', a', m', u', g')
      <==> s == s' && k == k' && a == a' && m == m' && u == u' && g == g'
  {
    hide Below;
    var x5, y5 := Below(g, 0), Below(g', 0);
    var x4, y4 := Below(u, x5), Below(u', y5);
    var x3, y3 := Below(m, x4), Below(m', y4);
    var x2, y2 := Below(a, x3), Below(a', y3);
    BelowMatches(g, g', 0, 0);
    BelowMatches(u, u', x5, y5);
    BelowMatches(m, m', x4, y4);
    BelowMatches(a, a', x3, y3);
    BelowMatches(k, k', x2, y2);
    BelowMatches(s, s', Below(k, x2), Below(k', y2));
  }

  /** Key by key, for a mask with the given low bits, whatever the others are. */
  lemma FollowsMeans(
    c: Core, mask: uint32, shift: bool, control: bool, alt: bool, meta: bool, super: bool, altGr: bool, rest: nat)
    requires mask == BitsOf(shift, control, alt, meta, super, altGr) + 64 * rest
    ensures Follows(c, mask) <==>
      && IsDown(c.keyStates, 0xEFE1) == shift && IsDown(c.keyStates, 0xEFE3) == control
      && IsDown(c.keyStates, 0xEFE9) == alt && IsDown(c.keyStates, 0xEFE7) == meta
      && IsDown(c.keyStates, 0xEFEB) == super && IsDown(c.keyStates, 0xEFEA) == altGr
  {
    hide IsDown, BitsOf;
    var k := c.keyStates;
    BitsMatch(IsDown(k, 0xEFE1), IsDown(k, 0xEFE3), IsDown(k, 0xEFE9), IsDown(k, 0xEFE7), IsDown(k, 0xEFEB),
      IsDown(k, 0xEFEA), shift, control, alt, meta, super, altGr);
    LowIsRest(mask, BitsOf(shift, control, alt, meta, super, altGr), rest);
  }

  lemma LowIsRest(x: nat, low: nat, rest: nat)
    requires x == low + 64 * rest && low < 64
    ensures x % 64 == low
  {
  }

  predicate IsModifier(k: uint32) {
    k == 0xEFE1 || k == 0xEFE3 || k == 0xEFE9 || k == 0xEFE7 || k == 0xEFEB || k == 0xEFEA
  }

  lemma SyncKeySets(c: Core, k: uint32, want: bool)
    ensures IsDown(SyncKey(c, k, want).keyStates, k) == want
    ensures forall j: uint32 :: j != k ==>
      (IsDown(SyncKey(c, k, want).keyStates, j) <==> IsDown(c.keyStates, j))
  {
  }

  /** Synchronising brings all six into agreement, whatever they were before. */
  lemma SyncFollows(c: Core, mask: uint32)
    ensures Follows(SyncModifiers(c, mask), mask)
  {
    hide SyncKey, HasBit, IsDown, SyncBits, BitsOf;
    var c1 := SyncKey(c, 0xEFE1, HasBit(mask, 0x0001));
    var c2 := SyncKey(c1, 0xEFE3, HasBit(mask, 0x0002));
    var c3 := SyncKey(c2, 0xEFE9, HasBit(mask, 0x0004));
    var c4 := SyncKey(c3, 0xEFE7, HasBit(mask, 0x0008));
    var c5 := SyncKey(c4, 0xEFEB, HasBit(mask, 0x0010));
    var c6 := SyncKey(c5, 0xEFEA, HasBit(mask, 0x0020));
    SyncKeySets(c, 0xEFE1, HasBit(mask, 0x0001));
    SyncKeySets(c1, 0xEFE3, HasBit(mask, 0x0002));
    SyncKeySets(c2, 0xEFE9, HasBit(mask, 0x0004));
    SyncKeySets(c3, 0xEFE7, HasBit(mask, 0x0008));
    SyncKeySets(c4, 0xEFEB, HasBit(mask, 0x0010));
    SyncKeySets(c5, 0xEFEA, HasBit(mask, 0x0020));
    SyncIsSixSteps(c, mask);
    SixBits(mask);
  }

  function Half(x: nat): nat {
    x / 2
  }

  function Low(x: nat, m: nat): nat
    requires m > 0
  {
    x % m
  }

  lemma LowHalf(x: nat, m: nat)
    requires m > 0
    ensures Low(x, 2 * m) == Below(Low(x, 2) == 1, Low(Half(x), m))
  {
    var h, q, r := x / 2, x / 2 / m, x / 2 % m;
    assert h == m * q + r;
    assert x == 2 * m * q + (2 * r + x % 2);
    RemainderIsUnique(x, 2 * m, q, 2 * r + x % 2);
  }

  lemma LastBit(x: nat)
    ensures Low(x, 2) == Below(Low(x, 2) == 1, 0)
  {
  }

  lemma BitTests(mask: uint32)
    ensures var m1 := Half(mask); var m2 := Half(m1); var m3 := Half(m2); var m4 := Half(m3); var m5 := Half(m4);
      && HasBit(mask, 1) == (Low(mask, 2) == 1) && HasBit(mask, 2) == (Low(m1, 2) == 1)
      && HasBit(mask, 4) == (Low(m2, 2) == 1) && HasBit(mask, 8) == (Low(m3, 2) == 1)
      && HasBit(mask, 16) == (Low(m4, 2) == 1) && HasBit(mask, 32) == (Low(m5, 2) == 1)
  {
    assert mask / 1 == mask;
  }

  /** The six tests together read the low six bits. */
  lemma SixBits(mask: uint32)
    ensures Low(mask, 64)
      == BitsOf(HasBit(mask, 1), HasBit(mask, 2), HasBit(mask, 4), HasBit(mask, 8), HasBit(mask, 16), HasBit(mask, 32))
  {
    hide HasBit, Below, Low, Half;
    BitTests(mask);
    var m1 := Half(mask);
    var m2 := Half(m1);
    var m3 := Half(m2);
    var m4 := Half(m3);
    var m5 := Half(m4);
    LowHalf(mask, 32);
    LowHalf(m1, 16);
    LowHalf(m2, 8);
    LowHalf(m3, 4);
    LowHalf(m4, 2);
    LastBit(m5);
  }

  lemma SyncIsSixSteps(c: Core, mask: uint32)
    ensures SyncModifiers(c, mask)
         == SyncKey(SyncKey(SyncKey(SyncKey(SyncKey(SyncKey(c,
              0xEFE1, HasBit(mask, 0x0001)), 0xEFE3, HasBit(mask, 0x0002)), 0xEFE9, HasBit(mask, 0x0004)),
              0xEFE7, HasBit(mask, 0x0008)), 0xEFEB, HasBit(mask, 0x0010)), 0xEFEA, HasBit(mask, 0x0020))
  {
    hide SyncKey, HasBit;
    var bits := MODIFIER_BITS;
    assert bits[1..] == [0x0002, 0x0004, 0x0008, 0x0010, 0x0020];
    assert bits[1..][1..] == [0x0004, 0x0008, 0x0010, 0x0020];
    assert bits[1..][1..][1..] == [0x0008, 0x0010, 0x0020];
    assert bits[1..][1..][1..][1..] == [0x0010, 0x0020];
    assert bits[1..][1..][1..][1..][1..] == [0x0020];
    assert bits[1..][1..][1..][1..][1..][1..] == [];
  }

  /** A sign-extended 16-bit key is never one of the modifier keysyms. */
  lemma MessageKeysAreNotModifiers(id: int16)
    ensures !IsModifier(Unsigned32(id))
    ensures Unsigned32(id) == if id >= 0 then id else 0x1_0000_0000 + id
    ensures Unsigned32(id) < 0x8000 || Unsigned32(id) >= 0xFFFF_8000
  {
  }

  /** The sign extension of the mask does not reach the six modifier bits. */
  lemma MaskBitsSurviveSignExtension(mask: int16, bit: uint32)
    requires bit in MODIFIER_BITS
    ensures HasBit(Unsigned32(mask), bit) <==> HasBit(SixteenBits(mask), bit)
    ensures Unsigned32(mask) % 64 == SixteenBits(mask) % 64
  {
    var y := SixteenBits(mask);
    var x := Unsigned32(mask);
    assert x == y || x == y + 0xFFFF_0000;
    if x != y {
      var k: nat := match bit
        case 0x0001 => 0xFFFF_0000
        case 0x0002 => 0x7FFF_8000
        case 0x0004 => 0x3FFF_C000
        case 0x0008 => 0x1FFF_E000
        case 0x0010 => 0x0FFF_F000
        case _ => 0x07FF_F800;
      QuotientAfterAdding(x, y, bit, k);
      assert k % 2 == 0;
    }
  }

  lemma QuotientAfterAdding(x: nat, y: nat, b: nat, k: nat)
    requires b > 0 && x == y + b * k
    ensures x / b == y / b + k
  {
    RemainderIsUnique(x, b, y / b + k, y % b);
    assert b * (x / b - (y / b + k)) == 0;
    MultipleIsFar(b, x / b - (y / b + k));
  }

  /** The 16-bit pattern of a mask as it was sent. */
  function SixteenBits(mask: int16): uint32 {
    mask % 0x1_0000
  }

  lemma TouchKeepsDown(c: Core, k: uint32)
    ensures forall j: uint32 :: IsDown(Touch(c, k).keyStates, j) <==> IsDown(c.keyStates, j)
  {
  }

  lemma OtherKeyKeepsFollowing(c: Core, k: uint32, down: bool, mask: uint32)
    requires Follows(c, mask) && !IsModifier(k)
    ensures Follows(SyncKey(Touch(c, k), k, down), mask)
  {
    hide SyncKey, BitsOf, IsDown;
    SyncKeySets(Touch(c, k), k, down);
    TouchKeepsDown(c, k);
  }

  lemma KeyToFollows(c: Core, id: int16, mask: int16, down: bool)
    ensures Follows(KeyTo(c, id, mask, down), Unsigned32(mask))
  {
    hide SyncModifiers, Follows, SyncKey, Touch;
    SyncFollows(c, Unsigned32(mask));
    MessageKeysAreNotModifiers(id);
    OtherKeyKeepsFollowing(SyncModifiers(c, Unsigned32(mask)), Unsigned32(id), down, Unsigned32(mask));
  }

  lemma MaskIsFollowed(c: Core, m: Msg, a: Ambient)
    requires MaskOf(m).Some?
    ensures Follows(Handle(c, m, a).core, MaskOf(m).value)
  {
    hide Follows, Entered, KeyTo, Departed, PointerTo, ButtonTo, Wheeled, ReceiveChunk, InfoPayload;
    hide OnScreen, Unsigned32;
    match m
    case Enter(x, y, seqNum, mask) => EnterFollows(c, x, y, seqNum, mask);
    case KeyDown(id, mask, _) => KeyToFollows(c, id, mask, true);
    case KeyUp(id, mask, _) => KeyToFollows(c, id, mask, false);
    case KeyRepeat(id, mask, _, _, _) => KeyToFollows(c, id, mask, true);
    case KeyDownLang(id, mask, _, _) => KeyToFollows(c, id, mask, true);
  }

  lemma EnterFollows(c: Core, x: int16, y: int16, seqNum: uint32, mask: int16)
    ensures Follows(Entered(c, x, y, seqNum, mask), Unsigned32(mask))
  {
    hide SyncModifiers, Follows, PointerTo, Unsigned32;
    var c1 := c.(session := c.session.(active := true, seqNum := seqNum));
    SyncFollows(if x >= 0 && y >= 0 then PointerTo(c1, x, y) else c1, Unsigned32(mask));
  }

  /** A message without a mask leaves every key as it is. */
  lemma OtherMessagesKeepKeys(c: Core, m: Msg, a: Ambient)
    requires MaskOf(m).None?
    ensures Handle(c, m, a).core.keyStates == c.keyStates
  {
    hide Handle, PointerEvents, ButtonsAfter, Told;
    var _ := HandleChanges(c, m, a);
  }

  /** After any run in which some mask was parsed, from any state and across reconnections, the six
      modifier keys are down exactly as the latest mask says. */
  lemma {:induction false} ModifiersFollowLatestMask(c: Core, xs: seq<Action>)
    requires LatestMask(MessagesOf(xs)).Some?
    ensures Follows(Run(c, xs), LatestMask(MessagesOf(xs)).value)
  {
    hide Handle, MaskOf, HasBit;
    var front, x := xs[..|xs| - 1], xs[|xs| - 1];
    var before := Run(c, front);
    if x.Received? {
      assert MessagesOf(xs) == MessagesOf(front) + [x.m];
      assert MessagesOf(xs)[..|MessagesOf(front)|] == MessagesOf(front);
    } else {
      assert MessagesOf(xs) == MessagesOf(front);
    }
    if x.Received? && MaskOf(x.m).Some? {
      MaskIsFollowed(before, x.m, x.a);
    } else {
      ModifiersFollowLatestMask(c, front);
      if x.Received? {
        OtherMessagesKeepKeys(before, x.m, x.a);
      }
    }
  }
}
