// Octets, big-endian integers and the fixed-width integer casts the protocol code relies on.
module ByteOrder {

  type byte = b: int | 0 <= b < 0x100
  type Bytes = seq<byte>

  type int16 = x: int | -0x8000 <= x < 0x8000
  type uint8 = x: int | 0 <= x < 0x100
  type uint32 = x: int | 0 <= x < 0x1_0000_0000

  datatype Option<+T> = None | Some(value: T)

  function Min(a: nat, b: nat): nat {
    if a <= b then a else b
  }

  function Pow256(w: nat): (p: nat)
    ensures p > 0
  {
    if w == 0 then 1 else 0x100 * Pow256(w - 1)
  }

  /** The low `w` octets of `v`, most significant first. */
  function BigEndian(v: int, w: nat): (b: Bytes)
    ensures |b| == w
    decreases w
  {
    if w == 0 then [] else BigEndian(v / 0x100, w - 1) + [v % 0x100]
  }

  /** The unsigned number a big-endian octet string denotes. */
  function Number(b: Bytes): nat {
    if b == [] then 0 else 0x100 * Number(b[..|b| - 1]) + b[|b| - 1]
  }

  /** The low `w` octets of `v` as an unsigned number: the cast to a `w`-octet unsigned integer. */
  function Truncate(v: int, w: nat): nat {
    v % Pow256(w)
  }

  /** Reads a 16-bit pattern as a two's complement integer, as assigning to an int16_t does. */
  function Signed16(u: nat): int16
    requires u < 0x1_0000
  {
    if u < 0x8000 then u else u - 0x1_0000
  }

  /** The cast of a sign-extended 32-bit integer to uint32_t. */
  function Unsigned32(i: int): uint32 {
    i % 0x1_0000_0000
  }

  lemma {:induction false} Pow256Values()
    ensures Pow256(1) == 0x100 && Pow256(2) == 0x1_0000 && Pow256(4) == 0x1_0000_0000
  {
    assert Pow256(0) == 1;
    assert Pow256(1) == 0x100 * Pow256(0);
    assert Pow256(2) == 0x100 * Pow256(1);
    assert Pow256(3) == 0x100 * Pow256(2);
    assert Pow256(4) == 0x100 * Pow256(3);
  }

  lemma MultipleIsFar(m: nat, k: int)
    ensures k >= 1 ==> m * k >= m
    ensures k <= -1 ==> m * k <= -(m as int)
  {
    if k >= 1 {
      assert m * k == m + m * (k - 1);
    } else if k <= -1 {
      assert m * k == -(m as int) - m * (-k - 1);
    }
  }

  lemma RemainderIsUnique(x: int, m: nat, q: int, r: nat)
    requires x == m * q + r && r < m
    ensures x % m == r
  {
    var q' := x / m;
    assert x == m * q' + x % m;
    assert m * (q - q') == x % m - r;
    MultipleIsFar(m, q - q');
  }

  lemma TruncateStep(v: int, w: nat)
    ensures Truncate(v, 0) == 0
    ensures w > 0 ==> Truncate(v, w) == 0x100 * Truncate(v / 0x100, w - 1) + v % 0x100
  {
    if w == 0 {
      return;
    }
    var p := Pow256(w - 1);
    var k, q := (v / 0x100) / p, (v / 0x100) % p;
    assert v == 0x100 * (p * k + q) + v % 0x100;
    assert 0x100 * (p * k) == (0x100 * p) * k;
    RemainderIsUnique(v, Pow256(w), k, 0x100 * q + v % 0x100);
  }

  /** Decoding what was encoded gives the value reduced to the width. */
  lemma {:induction false} NumberOfBigEndian(v: int, w: nat)
    ensures Number(BigEndian(v, w)) == Truncate(v, w)
    decreases w
  {
    hide Truncate;
    TruncateStep(v, w);
    if w > 0 {
      NumberOfBigEndian(v / 0x100, w - 1);
      assert BigEndian(v, w)[..w - 1] == BigEndian(v / 0x100, w - 1);
    }
  }

  /** Encoding what was decoded gives the octets back. */
  lemma {:induction false} BigEndianOfNumber(b: Bytes)
    ensures BigEndian(Number(b), |b|) == b
    ensures Number(b) < Pow256(|b|) && Truncate(Number(b), |b|) == Number(b)
  {
    if b != [] {
      var front := b[..|b| - 1];
      BigEndianOfNumber(front);
      assert Number(b) / 0x100 == Number(front);
      assert Number(b) % 0x100 == b[|b| - 1];
      assert b == front + [b[|b| - 1]];
    }
    RemainderIsUnique(Number(b), Pow256(|b|), 0, Number(b));
  }

  /** The shift-and-mask form used when writing 16- and 32-bit integers. */
  lemma BigEndianShifts(v: int)
    ensures BigEndian(v, 1) == [v % 0x100]
    ensures BigEndian(v, 2) == [(v / 0x100) % 0x100, v % 0x100]
    ensures BigEndian(v, 4)
         == [(v / 0x100_0000) % 0x100, (v / 0x1_0000) % 0x100, (v / 0x100) % 0x100, v % 0x100]
  {
    var a, b, c := v / 0x100, v / 0x1_0000, v / 0x100_0000;
    assert BigEndian(v, 1) == BigEndian(a, 0) + [v % 0x100];
    assert BigEndian(v, 2) == BigEndian(a, 1) + [v % 0x100];
    assert BigEndian(a, 1) == BigEndian(b, 0) + [a % 0x100];
    assert BigEndian(v, 4) == BigEndian(a, 3) + [v % 0x100];
    assert BigEndian(a, 3) == BigEndian(b, 2) + [a % 0x100];
    assert BigEndian(b, 2) == BigEndian(c, 1) + [b % 0x100];
    assert BigEndian(c, 1) == BigEndian(c / 0x100, 0) + [c % 0x100];
  }

  /** The shift-and-or form used when reading 16- and 32-bit integers. */
  lemma {:induction false} NumberShifts(b: Bytes)
    ensures |b| == 1 ==> Number(b) == b[0]
    ensures |b| == 2 ==> Number(b) == 0x100 * (b[0] as int) + b[1]
    ensures |b| == 4 ==> Number(b) 
                         == 0x100_0000 * (b[0] as int) + 0x1_0000 * (b[1] as int) + 0x100 * (b[2] as int) + b[3]
  {
    if |b| == 1 {
      assert Number(b[..0]) == 0;
    } else if |b| == 2 {
      NumberShifts(b[..1]);
    } else if |b| == 4 {
      NumberShifts(b[..2]);
      assert b[..3][..2] == b[..2];
      assert Number(b[..3]) == 0x100 * Number(b[..2]) + b[2];
    }
  }

  /** A number that fits its width survives the cast. */
  lemma TruncateFits(n: nat, w: nat)
    requires n < Pow256(w)
    ensures Truncate(n, w) == n
  {
    RemainderIsUnique(n, Pow256(w), 0, n);
  }

  lemma TruncateShrinks(n: nat, w: nat)
    ensures Truncate(n, w) <= n
  {
    if n < Pow256(w) {
      TruncateFits(n, w);
    }
  }

  /** A 4-octet length prefix in front of anything reads back as the length. */
  lemma PrefixReads(n: nat, rest: Bytes)
    requires n < 0x1_0000_0000
    ensures var b := BigEndian(n, 4) + rest;
      Number(b[..4]) == n && b[4..] == rest
  {
    var b := BigEndian(n, 4) + rest;
    assert b[..4] == BigEndian(n, 4);
    NumberOfBigEndian(n, 4);
    Pow256Values();
    TruncateFits(n, 4);
  }
}
