// The message format language: its items, and what writing and reading an item list means.
module Formats {
  import opened ByteOrder

  datatype Item =
    | Literal(b: byte)
    | Int(width: nat)
    | Ints(width: nat)
    | Fixed(length: nat)
    | Text
    | Raw
    | Percent
    | Unsupported

  /** One argument: a number, a vector of 32-bit numbers, or an octet string. */
  datatype Value = Num(n: int) | Nums(ns: seq<uint32>) | Str(s: Bytes)

  const MAX_COUNT: nat := 1048576
  const MAX_TEXT: nat := 1024 * 1024
  const MAX_RAW: nat := 4 * 1024 * 1024

  // ---------- the format string ----------

  predicate IsDigit(c: char) {
    '0' <= c <= '9'
  }

  function DigitRun(fmt: string): (k: nat)
    ensures k <= |fmt|
    ensures forall j :: 0 <= j < k ==> IsDigit(fmt[j])
    ensures k < |fmt| ==> !IsDigit(fmt[k])
  {
    if fmt != "" && IsDigit(fmt[0]) then 1 + DigitRun(fmt[1..]) else 0
  }

  /** The decimal number in a 32-bit unsigned variable. */
  function Decimal32(digits: string): uint32
    requires forall j :: 0 <= j < |digits| ==> IsDigit(digits[j])
  {
    if digits == "" then 0
    else Unsigned32(10 * Decimal32(digits[..|digits| - 1]) + (digits[|digits| - 1] as int - '0' as int))
  }

  function Directive(c: char, width: nat): Item {
    match c
    case 'i' => Int(width)
    case 'I' => Ints(width)
    case 's' => if width > 0 then Fixed(width) else Text
    case 'S' => Raw
    case '%' => Percent
    case _ => Unsupported
  }

  function Ascii(c: char): byte {
    c as int % 0x100
  }

  /** Every '%' is followed by a conversion letter; otherwise the scan runs past the terminator. */
  predicate WellFormed(fmt: string) {
    if fmt == "" then true
    else if fmt[0] != '%' then WellFormed(fmt[1..])
    else
      var k := DigitRun(fmt[1..]);
      1 + k < |fmt| && WellFormed(fmt[k + 2..])
  }

  function Parse(fmt: string): seq<Item>
    requires WellFormed(fmt)
  {
    if fmt == "" then []
    else if fmt[0] != '%' then [Literal(Ascii(fmt[0]))] + Parse(fmt[1..])
    else
      var k := DigitRun(fmt[1..]);
      [Directive(fmt[1 + k], Decimal32(fmt[1..][..k]))] + Parse(fmt[k + 2..])
  }

  /** The format is well formed and stands for these items. */
  ghost predicate ParsesTo(fmt: string, items: seq<Item>) {
    WellFormed(fmt) && Parse(fmt) == items
  }

  lemma ParsesMeans(fmt: string, items: seq<Item>)
    requires ParsesTo(fmt, items)
    ensures WellFormed(fmt) && Parse(fmt) == items
  {
  }

  lemma EmptyParses()
    ensures ParsesTo("", [])
  {
  }

  lemma SizedParses(d: char, c: char, rest: string, items: seq<Item>, fmt: string, all: seq<Item>)
    requires IsDigit(d) && !IsDigit(c) && ParsesTo(rest, items)
    requires fmt == ['%', d, c] + rest && all == [Directive(c, d as int - '0' as int)] + items
    ensures ParsesTo(fmt, all)
  {
    hide Directive;
    var t := fmt[1..];
    assert t[1..] == [c] + rest && DigitRun(t[1..]) == 0 && DigitRun(t) == 1;
    assert fmt[3..] == rest;
    assert t[..1] == [d] && [d][..0] == "";
    assert Decimal32([d]) == d as int - '0' as int;
  }

  lemma PlainParses(c: char, rest: string, items: seq<Item>, fmt: string, all: seq<Item>)
    requires !IsDigit(c) && ParsesTo(rest, items)
    requires fmt == ['%', c] + rest && all == [Directive(c, 0)] + items
    ensures ParsesTo(fmt, all)
  {
    hide Directive;
    assert fmt[1..] == [c] + rest && DigitRun(fmt[1..]) == 0;
    assert fmt[2..] == rest && fmt[1..][..0] == "";
  }

  function Letters(text: string): seq<Item> {
    if text == "" then [] else [Literal(Ascii(text[0]))] + Letters(text[1..])
  }

  lemma {:induction false} LettersParse(text: string, rest: string, items: seq<Item>)
    requires (forall i :: 0 <= i < |text| ==> text[i] != '%') && ParsesTo(rest, items)
    ensures ParsesTo(text + rest, Letters(text) + items)
  {
    if text == "" {
      assert text + rest == rest && Letters(text) + items == items;
    } else {
      LettersParse(text[1..], rest, items);
      assert (text + rest)[1..] == text[1..] + rest;
      assert Letters(text) + items == [Literal(Ascii(text[0]))] + (Letters(text[1..]) + items);
    }
  }

  // ---------- writing ----------

  predicate TakesArgument(it: Item) {
    it.Int? || it.Ints? || it.Fixed? || it.Text? || it.Raw?
  }

  /** The argument has the type the item pulls from the argument list. */
  predicate Accepts(it: Item, v: Value) {
    match it
    case Int(_) => v.Num?
    case Ints(_) => v.Nums?
    case Raw => v.Str? && |v.s| < 0x1_0000_0000
    case _ => v.Str?
  }

  predicate Matches(items: seq<Item>, vals: seq<Value>) {
    if items == [] then vals == []
    else if TakesArgument(items[0]) then
      vals != [] && Accepts(items[0], vals[0]) && Matches(items[1..], vals[1..])
    else Matches(items[1..], vals)
  }

  /** Octets per integer; an unsupported width writes none. */
  function Size(width: nat): nat {
    if width == 1 || width == 2 || width == 4 then width else 0
  }

  function EncodeNums(ns: seq<uint32>, width: nat): Bytes {
    if ns == [] then [] else BigEndian(ns[0], Size(width)) + EncodeNums(ns[1..], width)
  }

  function Pad(s: Bytes, n: nat): (r: Bytes)
    ensures |r| == n
  {
    if |s| >= n then s[..n] else s + seq(n - |s|, _ => 0)
  }

  function EncodeItem(it: Item, v: Value): Bytes
    requires TakesArgument(it) && Accepts(it, v)
  {
    match it
    case Int(w) => BigEndian(v.n, Size(w))
    case Ints(w) => BigEndian(|v.ns|, 4) + EncodeNums(v.ns, w)
    case Fixed(n) => Pad(v.s, n)
    case _ => BigEndian(|v.s|, 4) + v.s
  }

  function EncodeMark(it: Item): Bytes {
    match it
    case Literal(b) => [b]
    case Percent => [Ascii('%')]
    case _ => []
  }

  function Encode(items: seq<Item>, vals: seq<Value>): Bytes
    requires Matches(items, vals)
    decreases |items|
  {
    if items == [] then []
    else if TakesArgument(items[0]) then
      EncodeItem(items[0], vals[0]) + Encode(items[1..], vals[1..])
    else EncodeMark(items[0]) + Encode(items[1..], vals)
  }

  // ---------- reading ----------

  datatype Decoded = Decoded(vals: seq<Value>, rest: Bytes)

  function DecodeNums(count: nat, width: nat, b: Bytes): Option<(seq<uint32>, Bytes)> {
    if count == 0 then Some(([], b))
    else if Size(width) == 0 || |b| < width then None
    else
      var n := Unsigned32(Number(b[..width]));
      match DecodeNums(count - 1, width, b[width..])
      case None => None
      case Some((ns, rest)) => Some(([n] + ns, rest))
  }

  function DecodePrefixed(b: Bytes, limit: nat): Option<(Value, Bytes)> {
    if |b| < 4 then None
    else
      var n := Number(b[..4]);
      if n > limit || |b| < 4 + n then None else Some((Str(b[4..4 + n]), b[4 + n..]))
  }

  function DecodeItem(it: Item, b: Bytes): Option<(Value, Bytes)>
    requires TakesArgument(it)
  {
    match it
    case Int(w) =>
      if Size(w) == 0 || |b| < w then None else Some((Num(Number(b[..w])), b[w..]))
    case Ints(w) =>
      if |b| < 4 || Number(b[..4]) > MAX_COUNT then None
      else (match DecodeNums(Number(b[..4]), w, b[4..])
            case None => None
            case Some((ns, rest)) => Some((Nums(ns), rest)))
    case Fixed(n) => if |b| < n then None else Some((Str(b[..n]), b[n..]))
    case Text => DecodePrefixed(b, MAX_TEXT)
    case _ => DecodePrefixed(b, MAX_RAW)
  }

  function DecodeMark(it: Item, b: Bytes): Option<Bytes> {
    match it
    case Literal(c) => if b != [] && b[0] == c then Some(b[1..]) else None
    case Percent => Some(b)
    case _ => None
  }

  function Decode(items: seq<Item>, b: Bytes): Option<Decoded>
    decreases |items|
  {
    if items == [] then Some(Decoded([], b))
    else if TakesArgument(items[0]) then
      match DecodeItem(items[0], b)
      case None => None
      case Some((v, rest)) =>
        (match Decode(items[1..], rest)
         case None => None
         case Some(d) => Some(Decoded([v] + d.vals, d.rest)))
    else
      match DecodeMark(items[0], b)
      case None => None
      case Some(rest) => Decode(items[1..], rest)
  }
}
