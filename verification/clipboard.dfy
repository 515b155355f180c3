// The clipboard container, its text extraction, the announced size and the cutting into chunks.
module Clipboards {
  import opened ByteOrder
  import ProtoUtil

  const CHUNK: nat := 512 * 1024

  // ---------- the container ----------

  /** One format of the clipboard; format 0 is text. */
  datatype Entry = Entry(format: uint32, data: Bytes)

  function EncodeEntry(e: Entry): Bytes {
    BigEndian(e.format, 4) + BigEndian(|e.data|, 4) + e.data
  }

  function EncodeEntries(es: seq<Entry>): Bytes {
    if es == [] then [] else EncodeEntry(es[0]) + EncodeEntries(es[1..])
  }

  function Container(es: seq<Entry>): Bytes {
    BigEndian(|es|, 4) + EncodeEntries(es)
  }

  function TextContainer(text: Bytes): Bytes {
    Container([Entry(0, text)])
  }

  /** Walks at most `left` entries and returns the first text. */
  function Scan(b: Bytes, left: nat): Bytes
    decreases left
  {
    if left == 0 || |b| < 8 then []
    else
      var size := Number(b[4..8]);
      if 8 + size > |b| then []
      else if Number(b[..4]) == 0 then b[8..8 + size]
      else Scan(b[8 + size..], left - 1)
  }

  function Unmarshal(container: Bytes): Bytes {
    if |container| < 4 then [] else Scan(container[4..], Number(container[..4]))
  }

  function FirstText(es: seq<Entry>): Bytes {
    if es == [] then [] else if es[0].format == 0 then es[0].data else FirstText(es[1..])
  }

  ghost predicate Representable(es: seq<Entry>) {
    forall i :: 0 <= i < |es| ==> |es[i].data| < 0x1_0000_0000
  }

  lemma EntryReads(e: Entry, rest: Bytes)
    requires |e.data| < 0x1_0000_0000
    ensures var b := EncodeEntry(e) + rest;
      && |b| >= 8 + |e.data| && Number(b[..4]) == e.format && Number(b[4..8]) == |e.data|
      && b[8..8 + |e.data|] == e.data && b[8 + |e.data|..] == rest
  {
    hide BigEndian, Number;
    var b := EncodeEntry(e) + rest;
    var tail := BigEndian(|e.data|, 4) + (e.data + rest);
    assert b == BigEndian(e.format, 4) + tail;
    PrefixReads(e.format, tail);
    PrefixReads(|e.data|, e.data + rest);
    assert b[4..] == tail;
    assert b[4..8] == tail[..4];
    assert b[8..] == e.data + rest;
    assert b[8..8 + |e.data|] == b[8..][..|e.data|];
    assert b[8 + |e.data|..] == b[8..][|e.data|..];
  }

  lemma {:induction false} ScanFindsText(es: seq<Entry>, left: nat, junk: Bytes)
    requires Representable(es) && |es| <= left
    requires NoText(es) ==> left == |es|
    ensures Scan(EncodeEntries(es) + junk, left) == FirstText(es)
    decreases |es|
  {
    hide BigEndian, Number, EncodeEntry;
    if es != [] {
      var rest := EncodeEntries(es[1..]) + junk;
      assert EncodeEntries(es) + junk == EncodeEntry(es[0]) + rest;
      EntryReads(es[0], rest);
      if es[0].format != 0 {
        assert es == [es[0]] + es[1..];
        ScanFindsText(es[1..], left - 1, junk);
      }
    }
  }

  /** A container of any entries, whatever follows it, gives the data of its first text entry, or
      nothing if it has none. */
  lemma UnmarshalFindsFirstText(es: seq<Entry>, junk: Bytes)
    requires Representable(es) && |es| < 0x1_0000_0000
    ensures Unmarshal(Container(es) + junk) == FirstText(es)
  {
    hide BigEndian, Number, Scan, EncodeEntries, FirstText, Representable;
    var c := Container(es) + junk;
    assert c == BigEndian(|es|, 4) + (EncodeEntries(es) + junk);
    PrefixReads(|es|, EncodeEntries(es) + junk);
    ScanFindsText(es, |es|, junk);
  }

  lemma UnmarshalInvertsMarshal(text: Bytes)
    requires |text| < 0x1_0000_0000
    ensures Unmarshal(TextContainer(text)) == text
  {
    hide BigEndian, Number, Unmarshal;
    UnmarshalFindsFirstText([Entry(0, text)], []);
    assert TextContainer(text) + [] == TextContainer(text);
  }

  /** The container of a text is the text and twelve octets more. */
  lemma TextContainerLength(text: Bytes)
    ensures |TextContainer(text)| == |text| + 12
  {
    hide BigEndian;
    assert EncodeEntries([Entry(0, text)][1..]) == [];
  }

  /** One format, number 0, the length, the text. */
  lemma TextContainerIsLaidOut(text: Bytes)
    ensures TextContainer(text) == BigEndian(1, 4) + (BigEndian(0, 4) + (BigEndian(|text|, 4) + text))
  {
    hide BigEndian, EncodeEntry, EncodeEntries;
    OneEntry(Entry(0, text));
    EntryIsLaidOut(Entry(0, text));
  }

  lemma OneEntry(e: Entry)
    ensures EncodeEntries([e]) == EncodeEntry(e)
  {
    hide EncodeEntry;
    assert [e][1..] == [] && EncodeEntries([]) == [];
    assert EncodeEntry(e) + [] == EncodeEntry(e);
  }

  lemma EntryIsLaidOut(e: Entry)
    ensures EncodeEntry(e) == BigEndian(e.format, 4) + (BigEndian(|e.data|, 4) + e.data)
  {
    hide BigEndian;
    Regrouped(BigEndian(e.format, 4), BigEndian(|e.data|, 4), e.data);
  }

  lemma Regrouped(a: Bytes, b: Bytes, c: Bytes)
    ensures a + b + c == a + (b + c)
  {
  }

  ghost predicate NoText(es: seq<Entry>) {
    forall i :: 0 <= i < |es| ==> es[i].format != 0
  }

  function EntryAt(b: Bytes): Entry
    requires |b| >= 8 && 8 + Number(b[4..8]) <= |b|
  {
    WordAt(b);
    Entry(Number(b[..4]), b[8..8 + Number(b[4..8])])
  }

  lemma WordAt(b: Bytes)
    requires |b| >= 8
    ensures Number(b[..4]) < 0x1_0000_0000 && Number(b[4..8]) < 0x1_0000_0000
    ensures BigEndian(Number(b[..4]), 4) == b[..4] && BigEndian(Number(b[4..8]), 4) == b[4..8]
  {
    hide BigEndian, Number;
    BigEndianOfNumber(b[..4]);
    BigEndianOfNumber(b[4..8]);
    Pow256Values();
  }

  lemma EntryReencodes(b: Bytes)
    requires |b| >= 8 && 8 + Number(b[4..8]) <= |b|
    ensures |EntryAt(b).data| < 0x1_0000_0000
    ensures b == EncodeEntry(EntryAt(b)) + b[8 + Number(b[4..8])..]
  {
    hide BigEndian, Number;
    WordAt(b);
    var end := 8 + Number(b[4..8]);
    assert b == b[..4] + b[4..8] + b[8..end] + b[end..];
  }

  lemma RegroupAfter(a: Bytes, b: Bytes, c: Bytes, d: Bytes)
    ensures a + (b + c + d) == a + b + c + d
  {
  }

  /** Where a scanned text came from: entries that are not text, then a text entry, then anything. */
  lemma {:induction false} ScanSource(b: Bytes, left: nat) returns (es: seq<Entry>, junk: Bytes)
    requires Scan(b, left) != []
    ensures NoText(es) && Representable(es) && |es| < left
    ensures b == EncodeEntries(es) + EncodeEntry(Entry(0, Scan(b, left))) + junk
    decreases left
  {
    hide BigEndian, Number, EncodeEntry;
    EntryReencodes(b);
    var e, rest := EntryAt(b), b[8 + Number(b[4..8])..];
    if e.format == 0 {
      es, junk := [], rest;
      assert EncodeEntries(es) + EncodeEntry(e) == EncodeEntry(e);
    } else {
      var more;
      more, junk := ScanSource(rest, left - 1);
      es := [e] + more;
      assert es[1..] == more;
      RegroupAfter(EncodeEntry(e), EncodeEntries(more), EncodeEntry(Entry(0, Scan(b, left))), junk);
    }
  }

  lemma {:induction false} EntriesAppend(es: seq<Entry>, e: Entry)
    ensures EncodeEntries(es + [e]) == EncodeEntries(es) + EncodeEntry(e)
    ensures NoText(es) && e.format == 0 ==> FirstText(es + [e]) == e.data
  {
    hide EncodeEntry;
    if es == [] {
      assert [e][1..] == [] && EncodeEntry(e) + [] == EncodeEntry(e);
    } else {
      assert (es + [e])[1..] == es[1..] + [e];
      EntriesAppend(es[1..], e);
    }
  }

  /** Octets that begin like a container whose first text entry is complete give that entry's data,
      whatever comes after it and however many more entries are announced. */
  lemma UnmarshalReads(n: nat, es: seq<Entry>, text: Bytes, junk: Bytes)
    requires n < 0x1_0000_0000 && |es| < n && NoText(es) && Representable(es) && |text| < 0x1_0000_0000
    ensures Unmarshal(BigEndian(n, 4) + (EncodeEntries(es) + EncodeEntry(Entry(0, text)) + junk)) == text
  {
    hide BigEndian, Number, Scan, EncodeEntries, EncodeEntry, FirstText;
    var e := Entry(0, text);
    EntriesAppend(es, e);
    assert (es + [e])[|es|].format == 0;
    PrefixReads(n, EncodeEntries(es) + EncodeEntry(e) + junk);
    ScanFindsText(es + [e], n, junk);
  }

  /** And only such octets give any text. */
  lemma UnmarshalSource(c: Bytes) returns (n: nat, es: seq<Entry>, junk: Bytes)
    requires Unmarshal(c) != []
    ensures n < 0x1_0000_0000 && |es| < n && NoText(es) && Representable(es)
    ensures c == BigEndian(n, 4) + (EncodeEntries(es) + EncodeEntry(Entry(0, Unmarshal(c))) + junk)
  {
    hide BigEndian, Number, Pow256, Truncate, Scan;
    n := Number(c[..4]);
    BigEndianOfNumber(c[..4]);
    Pow256Values();
    es, junk := ScanSource(c[4..], n);
    assert c == c[..4] + c[4..];
  }

  // ---------- methods ----------

  method MarshalText(text: Bytes) returns (out: Bytes)
    ensures out == TextContainer(text)
  {
    hide BigEndian;
    out := ProtoUtil.PutU32([], 1);
    out := ProtoUtil.PutU32(out, 0);
    out := ProtoUtil.PutU32(out, |text|);
    out := out + text;
    assert EncodeEntries([Entry(0, text)][1..]) == [];
    assert out == BigEndian(1, 4) + (BigEndian(0, 4) + BigEndian(|text|, 4) + text + []);
  }

  /** The big-endian word at `off`, or 0 past the end. */
  method ReadBe32(c: Bytes, off: nat) returns (v: uint32)
    ensures off + 4 <= |c| ==> v == Number(c[off..off + 4])
  {
    if off + 4 > |c| {
      return 0;
    }
    NumberShifts(c[off..off + 4]);
    v := c[off] as int * 0x100_0000 + c[off + 1] as int * 0x1_0000 + c[off + 2] as int * 0x100 + c[off + 3] as int;
  }

  lemma ScanStep(c: Bytes, off: nat, left: nat)
    requires off <= |c|
    ensures left == 0 || off + 8 > |c| ==> Scan(c[off..], left) == []
    ensures left > 0 && off + 8 <= |c| ==>
      var format, size := Number(c[off..off + 4]), Number(c[off + 4..off + 8]);
      && (off + 8 + size > |c| ==> Scan(c[off..], left) == [])
      && (off + 8 + size <= |c| && format == 0 ==> Scan(c[off..], left) == c[off + 8..off + 8 + size])
      && (off + 8 + size <= |c| && format != 0 ==> Scan(c[off..], left) == Scan(c[off + 8 + size..], left - 1))
  {
    hide Number;
    var b := c[off..];
    if left > 0 && |b| >= 8 {
      assert b[..4] == c[off..off + 4] && b[4..8] == c[off + 4..off + 8];
      var size := Number(b[4..8]);
      if 8 + size <= |b| {
        assert b[8..8 + size] == c[off + 8..off + 8 + size];
        assert b[8 + size..] == c[off + 8 + size..];
      }
    }
  }

  /** The text of a container; terminates on any bytes and returns a slice of them. */
  method UnmarshalText(c: Bytes) returns (text: Bytes)
    ensures text == Unmarshal(c)
    ensures text == [] || exists i, j :: 0 <= i <= j <= |c| && text == c[i..j]
  {
    hide Number, Scan;
    if |c| < 4 {
      return [];
    }
    var numFormats := ReadBe32(c, 0);
    assert c[0..4] == c[..4];
    var off, i := 4, 0;
    while i < numFormats && off + 8 <= |c|
      invariant 4 <= off <= |c| && i <= numFormats
      invariant Unmarshal(c) == Scan(c[off..], numFormats - i)
      decreases numFormats - i
    {
      ScanStep(c, off, numFormats - i);
      var format := ReadBe32(c, off);
      var size := ReadBe32(c, off + 4);
      off := off + 8;
      if off + size > |c| {
        return [];
      }
      if format == 0 {
        return c[off..off + size];
      }
      off := off + size;
      i := i + 1;
    }
    ScanStep(c, off, numFormats - i);
    text := [];
  }

  // ---------- the announced size ----------

  const ULL_LIMIT: nat := 0x1_0000_0000_0000_0000

  function Decimal(n: nat): Bytes {
    if n < 10 then [48 + n] else Decimal(n / 10) + [48 + n % 10]
  }

  predicate IsDigitByte(b: byte) {
    48 <= b <= 57
  }

  predicate IsSpaceByte(b: byte) {
    b == 32 || 9 <= b <= 13
  }

  function DigitsRun(b: Bytes): (k: nat)
    ensures k <= |b|
  {
    if b != [] && IsDigitByte(b[0]) then 1 + DigitsRun(b[1..]) else 0
  }

  function DigitsValue(b: Bytes): nat {
    if b == [] then 0 else 10 * DigitsValue(b[..|b| - 1]) + (b[|b| - 1] as int - 48) % 10
  }

  function SkipSpace(b: Bytes): Bytes {
    if b != [] && IsSpaceByte(b[0]) then SkipSpace(b[1..]) else b
  }

  /** std::stoull: None where it throws. A leading minus negates modulo 2^64. */
  function Stoull(data: Bytes): Option<nat> {
    var b := SkipSpace(data);
    var negative := b != [] && b[0] == 45;
    var digits := if b != [] && (b[0] == 43 || b[0] == 45) then b[1..] else b;
    var k := DigitsRun(digits);
    var v := DigitsValue(digits[..k]);
    if k == 0 || v >= ULL_LIMIT then None
    else if negative then Some((ULL_LIMIT - v) % ULL_LIMIT)
    else Some(v)
  }

  lemma {:induction false} DecimalDigits(n: nat)
    ensures |Decimal(n)| >= 1 && DigitsValue(Decimal(n)) == n
    ensures forall i :: 0 <= i < |Decimal(n)| ==> IsDigitByte(Decimal(n)[i])
  {
    if n < 10 {
      assert DigitsValue([]) == 0;
    } else {
      DecimalDigits(n / 10);
      assert Decimal(n)[..|Decimal(n)| - 1] == Decimal(n / 10);
    }
  }

  lemma {:induction false} AllDigitsRun(b: Bytes)
    requires forall i :: 0 <= i < |b| ==> IsDigitByte(b[i])
    ensures DigitsRun(b) == |b|
  {
    if b != [] {
      AllDigitsRun(b[1..]);
    }
  }

  /** Parsing the printed size gives the size. */
  lemma StoullInvertsDecimal(n: nat)
    requires n < ULL_LIMIT
    ensures Stoull(Decimal(n)) == Some(n)
  {
    hide Decimal, DigitsValue;
    DecimalDigits(n);
    AllDigitsRun(Decimal(n));
    assert IsDigitByte(Decimal(n)[0]);
    assert Decimal(n)[..|Decimal(n)|] == Decimal(n);
  }

  lemma {:induction false} DecimalLength(n: nat, bound: nat)
    requires n < Power10(bound) && bound > 0
    ensures |Decimal(n)| <= bound
    decreases bound
  {
    if n >= 10 {
      DecimalLength(n / 10, bound - 1);
    }
  }

  function Power10(k: nat): (p: nat)
    ensures p > 0
  {
    if k == 0 then 1 else 10 * Power10(k - 1)
  }

  // ---------- chunks ----------

  function Chunks(payload: Bytes): seq<Bytes> {
    if payload == [] then []
    else [payload[..Min(CHUNK, |payload|)]] + Chunks(payload[Min(CHUNK, |payload|)..])
  }

  function Joined(parts: seq<Bytes>): Bytes {
    if parts == [] then [] else parts[0] + Joined(parts[1..])
  }

  /** Cutting loses and reorders nothing, and every piece is within the chunk size. */
  lemma {:induction false} ChunksJoin(payload: Bytes)
    ensures Joined(Chunks(payload)) == payload
    ensures forall i :: 0 <= i < |Chunks(payload)| ==> 0 < |Chunks(payload)[i]| <= CHUNK
  {
    if payload != [] {
      var n := Min(CHUNK, |payload|);
      ChunksJoin(payload[n..]);
      assert Chunks(payload)[1..] == Chunks(payload[n..]);
      assert payload == payload[..n] + payload[n..];
    }
  }

  /** Every chunk but the last has exactly 524,288 octets. */
  lemma {:induction false} ChunksAreFull(payload: Bytes)
    ensures forall i :: 0 <= i < |Chunks(payload)| - 1 ==> |Chunks(payload)[i]| == 524_288
    ensures forall i :: 0 <= i < |Chunks(payload)| ==> 0 < |Chunks(payload)[i]| <= 524_288
  {
    if payload != [] {
      var n := Min(CHUNK, |payload|);
      ChunksAreFull(payload[n..]);
      assert Chunks(payload)[1..] == Chunks(payload[n..]);
      assert Chunks(payload[n..]) != [] ==> n == CHUNK;
    }
  }

  // ---------- what stoull accepts ----------

  lemma {:induction false} SpaceIsSkipped(space: Bytes, b: Bytes)
    requires forall i :: 0 <= i < |space| ==> space[i] in {9, 10, 11, 12, 13, 32}
    requires b != [] ==> b[0] !in {9, 10, 11, 12, 13, 32}
    ensures SkipSpace(space + b) == b
  {
    if space == [] {
      assert space + b == b;
    } else {
      assert (space + b)[1..] == space[1..] + b;
      SpaceIsSkipped(space[1..], b);
    }
  }

  lemma {:induction false} RunStopsAtJunk(digits: Bytes, junk: Bytes)
    requires forall i :: 0 <= i < |digits| ==> IsDigitByte(digits[i])
    requires junk != [] ==> !IsDigitByte(junk[0])
    ensures DigitsRun(digits + junk) == |digits|
  {
    if digits == [] {
      assert digits + junk == junk;
    } else {
      assert (digits + junk)[1..] == digits[1..] + junk;
      RunStopsAtJunk(digits[1..], junk);
    }
  }

  lemma {:induction false} ZerosAddNothing(zeros: Bytes, digits: Bytes)
    requires forall i :: 0 <= i < |zeros| ==> zeros[i] == 48
    ensures DigitsValue(zeros + digits) == DigitsValue(digits)
    decreases |zeros| + |digits|
  {
    var all := zeros + digits;
    if digits != [] {
      assert all[..|all| - 1] == zeros + digits[..|digits| - 1];
      ZerosAddNothing(zeros, digits[..|digits| - 1]);
    } else if zeros != [] {
      assert all == zeros && all[..|all| - 1] == zeros[..|zeros| - 1] + digits;
      ZerosAddNothing(zeros[..|zeros| - 1], digits);
    } else {
      assert all == digits;
    }
  }

  /** White space, a sign or none, zeros, a number, then anything but a digit: the number is read unless it
      does not fit 64 bits, with a minus modulo 2^64. */
  lemma StoullReads(space: Bytes, sign: Bytes, zeros: Bytes, n: nat, junk: Bytes)
    requires forall i :: 0 <= i < |space| ==> space[i] in {9, 10, 11, 12, 13, 32}
    requires sign in {[], [43], [45]} && (forall i :: 0 <= i < |zeros| ==> zeros[i] == 48)
    requires junk != [] ==> !(48 <= junk[0] <= 57)
    ensures Stoull(space + (sign + (zeros + Decimal(n) + junk)))
      == if n >= 0x1_0000_0000_0000_0000 then None
         else if sign == [45] && n > 0 then Some(0x1_0000_0000_0000_0000 - n)
         else Some(n)
  {
    hide Decimal, DigitsValue, SkipSpace, DigitsRun;
    var digits := zeros + Decimal(n);
    DecimalDigits(n);
    assert forall i :: 0 <= i < |digits| ==> IsDigitByte(digits[i]);
    ZerosAddNothing(zeros, Decimal(n));
    RunStopsAtJunk(digits, junk);
    var b := sign + (digits + junk);
    assert b[0] == if sign == [] then digits[0] else sign[0];
    SpaceIsSkipped(space, b);
    assert sign != [] ==> b[1..] == digits + junk;
    assert sign == [] ==> b == digits + junk;
    assert (digits + junk)[..|digits|] == digits;
  }

  /** Without a digit after the white space and the sign it throws. */
  lemma StoullNeedsDigits(space: Bytes, sign: Bytes, junk: Bytes)
    requires forall i :: 0 <= i < |space| ==> space[i] in {9, 10, 11, 12, 13, 32}
    requires sign in {[], [43], [45]}
    requires junk != [] ==> !(48 <= junk[0] <= 57)
    requires junk != [] && sign == [] ==> junk[0] !in {9, 10, 11, 12, 13, 32, 43, 45}
    ensures Stoull(space + (sign + junk)) == None
  {
    hide DigitsValue, SkipSpace;
    var b := sign + junk;
    assert sign != [] ==> b[0] == sign[0] && b[1..] == junk;
    assert sign == [] ==> b == junk;
    SpaceIsSkipped(space, b);
  }
}
