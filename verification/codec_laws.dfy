// The two format interpreters are inverse to each other, in both directions.
module CodecLaws {
  import opened ByteOrder
  import opened Formats

  // ---------- which writes can be read back ----------

  /** The item can be read at all and the argument is within the reader's limits. */
  predicate Readable(it: Item, v: Value)
    requires Accepts(it, v)
  {
    match it
    case Int(w) => Size(w) > 0
    case Ints(w) => |v.ns| <= MAX_COUNT && (Size(w) > 0 || v.ns == [])
    case Text => |v.s| <= MAX_TEXT
    case Raw => |v.s| <= MAX_RAW
    case _ => true
  }

  /** No '%%', no unknown letter, and every argument readable. */
  predicate Safe(items: seq<Item>, vals: seq<Value>)
    requires Matches(items, vals)
    decreases |items|
  {
    if items == [] then true
    else if TakesArgument(items[0]) then
      Readable(items[0], vals[0]) && Safe(items[1..], vals[1..])
    else items[0].Literal? && Safe(items[1..], vals)
  }

  function Percents(items: seq<Item>): nat {
    if items == [] then 0 else (if items[0].Percent? then 1 else 0) + Percents(items[1..])
  }

  // ---------- what comes back ----------

  function ReduceNums(ns: seq<uint32>, width: nat): seq<uint32> {
    if ns == [] then [] else [Truncate(ns[0], Size(width)) as uint32] + ReduceNums(ns[1..], width)
  }

  /** Integers are reduced to their width, fixed-width strings are cut or padded. */
  function Reduce(it: Item, v: Value): (r: Value)
    requires Accepts(it, v)
    ensures Accepts(it, r)
  {
    match it
    case Int(w) => Num(Truncate(v.n, Size(w)))
    case Ints(w) => Nums(ReduceNums(v.ns, w))
    case Fixed(n) => Str(Pad(v.s, n))
    case _ => v
  }

  function ReduceAll(items: seq<Item>, vals: seq<Value>): (r: seq<Value>)
    requires Matches(items, vals)
    ensures Matches(items, r)
    decreases |items|
  {
    if items == [] then []
    else if TakesArgument(items[0]) then [Reduce(items[0], vals[0])] + ReduceAll(items[1..], vals[1..])
    else ReduceAll(items[1..], vals)
  }

  // ---------- item by item ----------

  lemma {:induction false} NumsRoundTrip(ns: seq<uint32>, width: nat, rest: Bytes)
    requires Size(width) > 0
    ensures DecodeNums(|ns|, width, EncodeNums(ns, width) + rest) == Some((ReduceNums(ns, width), rest))
  {
    hide BigEndian, Number, Pow256, Truncate;
    var b := EncodeNums(ns, width) + rest;
    if ns == [] {
      assert b == rest;
    } else {
      var tail := EncodeNums(ns[1..], width) + rest;
      assert b == BigEndian(ns[0], width) + tail;
      assert b[..width] == BigEndian(ns[0], width) && b[width..] == tail;
      NumberOfBigEndian(ns[0], width);
      TruncateShrinks(ns[0], width);
      NumsRoundTrip(ns[1..], width, rest);
    }
  }

  lemma IntReencode(b: Bytes, width: nat)
    requires Size(width) > 0 && width <= |b|
    ensures BigEndian(Number(b[..width]), width) + b[width..] == b
    ensures Truncate(Number(b[..width]), width) == Number(b[..width]) < 0x1_0000_0000
  {
    hide BigEndian, Number, Pow256, Truncate;
    BigEndianOfNumber(b[..width]);
    Pow256Values();
    assert b == b[..width] + b[width..];
  }

  lemma {:induction false} NumsReencode(count: nat, width: nat, b: Bytes)
    requires DecodeNums(count, width, b).Some?
    ensures var r := DecodeNums(count, width, b).value;
      |r.0| == count && (Size(width) > 0 || r.0 == [])
      && EncodeNums(r.0, width) + r.1 == b && ReduceNums(r.0, width) == r.0
  {
    hide BigEndian, Number, Pow256, Truncate, EncodeNums, ReduceNums;
    if count == 0 {
      NoNums(width, b);
    } else {
      IntReencode(b, width);
      NumsReencode(count - 1, width, b[width..]);
      var r := DecodeNums(count - 1, width, b[width..]).value;
      NumsReencodeStep(Number(b[..width]), r.0, r.1, width, b);
    }
  }

  lemma NoNums(width: nat, b: Bytes)
    ensures EncodeNums([], width) + b == b && ReduceNums([], width) == []
  {
  }

  lemma NumsReencodeStep(n: uint32, ns: seq<uint32>, rest: Bytes, width: nat, b: Bytes)
    requires Size(width) > 0 && width <= |b|
    requires BigEndian(n, width) + b[width..] == b && Truncate(n, width) == n
    requires EncodeNums(ns, width) + rest == b[width..] && ReduceNums(ns, width) == ns
    ensures EncodeNums([n] + ns, width) + rest == b && ReduceNums([n] + ns, width) == [n] + ns
  {
    hide BigEndian, Number, Pow256, Truncate;
    assert ([n] + ns)[1..] == ns;
    assert EncodeNums([n] + ns, width) + rest == BigEndian(n, width) + (EncodeNums(ns, width) + rest);
  }

  lemma {:induction false} ReducedNumsLength(ns: seq<uint32>, width: nat)
    ensures |ReduceNums(ns, width)| == |ns|
    ensures |EncodeNums(ns, width)| == |ns| * Size(width)
  {
    hide BigEndian, Number, Pow256, Truncate;
    if ns != [] {
      ReducedNumsLength(ns[1..], width);
    }
  }

  lemma PrefixedRoundTrip(s: Bytes, rest: Bytes, limit: nat)
    requires |s| <= limit < 0x1_0000_0000
    ensures DecodePrefixed(BigEndian(|s|, 4) + s + rest, limit) == Some((Str(s), rest))
  {
    hide BigEndian, Number, Pow256, Truncate;
    var b := BigEndian(|s|, 4) + (s + rest);
    assert b == BigEndian(|s|, 4) + s + rest;
    PrefixReads(|s|, s + rest);
    assert b[4..4 + |s|] == b[4..][..|s|] == s;
    assert b[4 + |s|..] == b[4..][|s|..] == rest;
  }

  lemma CountRoundTrip(ns: seq<uint32>, width: nat, rest: Bytes)
    requires |ns| <= MAX_COUNT && (Size(width) > 0 || ns == [])
    ensures DecodeItem(Ints(width), EncodeItem(Ints(width), Nums(ns)) + rest)
         == Some((Nums(ReduceNums(ns, width)), rest))
  {
    hide BigEndian, Number, Pow256, Truncate;
    var tail := EncodeNums(ns, width) + rest;
    assert EncodeItem(Ints(width), Nums(ns)) + rest == BigEndian(|ns|, 4) + tail;
    PrefixReads(|ns|, tail);
    if ns != [] {
      NumsRoundTrip(ns, width, rest);
    } else {
      assert tail == rest;
    }
  }

  lemma IntRoundTrip(n: int, width: nat, rest: Bytes)
    requires Size(width) > 0
    ensures DecodeItem(Int(width), EncodeItem(Int(width), Num(n)) + rest)
         == Some((Num(Truncate(n, width)), rest))
  {
    hide BigEndian, Number, Pow256, Truncate;
    var b := BigEndian(n, width) + rest;
    NumberOfBigEndian(n, width);
    assert b[..width] == BigEndian(n, width) && b[width..] == rest;
  }

  lemma ItemRoundTrip(it: Item, v: Value, rest: Bytes)
    requires TakesArgument(it) && Accepts(it, v) && Readable(it, v)
    ensures DecodeItem(it, EncodeItem(it, v) + rest) == Some((Reduce(it, v), rest))
  {
    hide BigEndian, Number, Pow256, Truncate;
    match it
    case Int(w) => IntRoundTrip(v.n, w, rest);
    case Ints(w) => CountRoundTrip(v.ns, w, rest);
    case Fixed(n) =>
      var b := Pad(v.s, n) + rest;
      assert b[..n] == Pad(v.s, n) && b[n..] == rest;
    case Text => PrefixedRoundTrip(v.s, rest, MAX_TEXT);
    case Raw => PrefixedRoundTrip(v.s, rest, MAX_RAW);
  }

  lemma PrefixedReencode(b: Bytes, limit: nat)
    requires DecodePrefixed(b, limit).Some?
    ensures var (v, rest) := DecodePrefixed(b, limit).value;
      v.Str? && |v.s| <= limit && BigEndian(|v.s|, 4) + v.s + rest == b
  {
    hide BigEndian, Number, Pow256, Truncate;
    BigEndianOfNumber(b[..4]);
    var n := Number(b[..4]);
    assert b == b[..4] + b[4..4 + n] + b[4 + n..];
  }

  lemma CountReencode(b: Bytes, width: nat)
    requires DecodeItem(Ints(width), b).Some?
    ensures var (v, rest) := DecodeItem(Ints(width), b).value;
      && v.Nums? && Readable(Ints(width), v) && Reduce(Ints(width), v) == v
      && EncodeItem(Ints(width), v) + rest == b
  {
    hide BigEndian, Number, Pow256, Truncate, EncodeNums, DecodeNums, ReduceNums;
    BigEndianOfNumber(b[..4]);
    NumsReencode(Number(b[..4]), width, b[4..]);
    assert b == b[..4] + b[4..];
  }

  lemma ItemReencode(it: Item, b: Bytes)
    requires TakesArgument(it) && DecodeItem(it, b).Some?
    ensures var (v, rest) := DecodeItem(it, b).value;
      Accepts(it, v) && Readable(it, v) && Reduce(it, v) == v && EncodeItem(it, v) + rest == b
  {
    hide BigEndian, Number, Pow256, Truncate;
    match it
    case Int(w) => IntReencode(b, w);
    case Ints(w) => CountReencode(b, w);
    case Fixed(n) => assert b == b[..n] + b[n..];
    case Text => PrefixedReencode(b, MAX_TEXT);
    case Raw => PrefixedReencode(b, MAX_RAW);
  }

  lemma ReduceKeepsSize(it: Item, v: Value)
    requires TakesArgument(it) && Accepts(it, v)
    ensures |EncodeItem(it, Reduce(it, v))| == |EncodeItem(it, v)|
    ensures Readable(it, Reduce(it, v)) <==> Readable(it, v)
  {
    hide BigEndian, Number, Pow256, Truncate;
    if it.Ints? {
      ReducedNumsLength(v.ns, it.width);
      ReducedNumsLength(ReduceNums(v.ns, it.width), it.width);
    }
  }

  // ---------- whole formats ----------

  /** Reading back what was written, with anything after it left untouched. */
  lemma {:induction false} RoundTrip(items: seq<Item>, vals: seq<Value>, rest: Bytes)
    requires Matches(items, vals) && Safe(items, vals)
    ensures Decode(items, Encode(items, vals) + rest) == Some(Decoded(ReduceAll(items, vals), rest))
    decreases |items|
  {
    hide BigEndian, Number, Pow256, Truncate;
    var b := Encode(items, vals) + rest;
    if items == [] {
      assert b == rest;
    } else if TakesArgument(items[0]) {
      var tail := Encode(items[1..], vals[1..]) + rest;
      assert b == EncodeItem(items[0], vals[0]) + tail;
      ItemRoundTrip(items[0], vals[0], tail);
      RoundTrip(items[1..], vals[1..], rest);
    } else {
      var tail := Encode(items[1..], vals) + rest;
      assert b == EncodeMark(items[0]) + tail;
      assert b[1..] == tail;
      RoundTrip(items[1..], vals, rest);
    }
  }

  /** The results re-encode to as many octets as were consumed plus one for each '%%'; without '%%'
      they re-encode to exactly the octets consumed. */
  ghost predicate Reencodes(items: seq<Item>, b: Bytes, d: Decoded) {
    && Matches(items, d.vals)
    && ReduceAll(items, d.vals) == d.vals
    && |Encode(items, d.vals)| + |d.rest| == |b| + Percents(items)
    && (Percents(items) == 0 ==> Safe(items, d.vals) && Encode(items, d.vals) + d.rest == b)
  }

  lemma ReencodeArgument(items: seq<Item>, b: Bytes, v: Value, rest: Bytes, d: Decoded)
    requires items != [] && TakesArgument(items[0])
    requires Accepts(items[0], v) && Readable(items[0], v) && Reduce(items[0], v) == v
    requires EncodeItem(items[0], v) + rest == b
    requires Reencodes(items[1..], rest, d)
    ensures Reencodes(items, b, Decoded([v] + d.vals, d.rest))
  {
    hide EncodeItem, Readable, Reduce, Accepts;
    var head, tail := EncodeItem(items[0], v), Encode(items[1..], d.vals);
    assert ([v] + d.vals)[1..] == d.vals;
    assert Encode(items, [v] + d.vals) == head + tail;
    assert head + (tail + d.rest) == head + tail + d.rest;
  }

  lemma ReencodeMark(items: seq<Item>, b: Bytes, rest: Bytes, d: Decoded)
    requires items != [] && !TakesArgument(items[0])
    requires DecodeMark(items[0], b) == Some(rest)
    requires Reencodes(items[1..], rest, d)
    ensures Reencodes(items, b, d)
  {
    var head, tail := EncodeMark(items[0]), Encode(items[1..], d.vals);
    assert head + (tail + d.rest) == head + tail + d.rest;
  }

  /** Whenever reading succeeds, encoding the results gives back what was consumed. */
  lemma {:induction false} Reencode(items: seq<Item>, b: Bytes)
    requires Decode(items, b).Some?
    ensures Reencodes(items, b, Decode(items, b).value)
    decreases |items|
  {
    hide DecodeItem, DecodeMark;
    if items == [] {
      assert Encode([], []) + b == b;
    } else if TakesArgument(items[0]) {
      var (v, rest) := DecodeItem(items[0], b).value;
      ItemReencode(items[0], b);
      Reencode(items[1..], rest);
      ReencodeArgument(items, b, v, rest, Decode(items[1..], rest).value);
    } else {
      var rest := DecodeMark(items[0], b).value;
      Reencode(items[1..], rest);
      ReencodeMark(items, b, rest, Decode(items[1..], rest).value);
    }
  }

  lemma {:induction false} ReduceAllKeepsSize(items: seq<Item>, vals: seq<Value>)
    requires Matches(items, vals)
    ensures |Encode(items, ReduceAll(items, vals))| == |Encode(items, vals)|
    ensures Safe(items, ReduceAll(items, vals)) <==> Safe(items, vals)
    decreases |items|
  {
    hide BigEndian, Number, Pow256, Truncate;
    if items != [] {
      if TakesArgument(items[0]) {
        ReduceKeepsSize(items[0], vals[0]);
        ReduceAllKeepsSize(items[1..], vals[1..]);
        assert ReduceAll(items, vals)[1..] == ReduceAll(items[1..], vals[1..]);
      } else {
        ReduceAllKeepsSize(items[1..], vals);
      }
    }
  }

  /** The reader gives back what the writer was given, leaving exactly what follows, if and only if the
      format has no '%%', no unknown letter and no argument beyond the reader's limits. */
  lemma ReadsBackExactlyWhenSafe(items: seq<Item>, vals: seq<Value>, rest: Bytes)
    requires Matches(items, vals)
    ensures Decode(items, Encode(items, vals) + rest) == Some(Decoded(ReduceAll(items, vals), rest))
       <==> Safe(items, vals)
  {
    hide BigEndian, Number, Pow256, Truncate;
    if Safe(items, vals) {
      RoundTrip(items, vals, rest);
    } else if Decode(items, Encode(items, vals) + rest) == Some(Decoded(ReduceAll(items, vals), rest)) {
      Reencode(items, Encode(items, vals) + rest);
      ReduceAllKeepsSize(items, vals);
      assert false;
    }
  }

  /** A concrete failure: '%%' is written as one octet that the reader does not consume. */
  lemma PercentIsNotReadBack(rest: Bytes)
    ensures WellFormed("%%") && Parse("%%") == [Percent] && Matches([Percent], [])
    ensures Decode([Percent], Encode([Percent], []) + rest) == Some(Decoded([], [Ascii('%')] + rest))
  {
    hide BigEndian, Number, Pow256, Truncate;
    assert "%%"[1..] == "%" && DigitRun("%") == 0 && "%%"[2..] == "";
    assert Encode([Percent], []) + rest == [Ascii('%')] + rest;
  }

  lemma ItemIgnoresWhatFollows(it: Item, b: Bytes, more: Bytes)
    requires TakesArgument(it) && DecodeItem(it, b).Some?
    ensures var (v, rest) := DecodeItem(it, b).value;
      DecodeItem(it, b + more) == Some((v, rest + more))
  {
    hide EncodeItem, DecodeItem, Readable, Reduce;
    var (v, rest) := DecodeItem(it, b).value;
    ItemReencode(it, b);
    ItemRoundTrip(it, v, rest + more);
    assert EncodeItem(it, v) + (rest + more) == b + more;
  }

  /** Bytes that follow a readable message do not change how it is read. */
  lemma {:induction false} DecodeIgnoresWhatFollows(items: seq<Item>, b: Bytes, more: Bytes)
    requires Decode(items, b).Some?
    ensures var d := Decode(items, b).value;
      Decode(items, b + more) == Some(Decoded(d.vals, d.rest + more))
    decreases |items|
  {
    hide DecodeItem;
    if items != [] {
      if TakesArgument(items[0]) {
        ItemIgnoresWhatFollows(items[0], b, more);
        DecodeIgnoresWhatFollows(items[1..], DecodeItem(items[0], b).value.1, more);
      } else {
        DecodeIgnoresWhatFollows(items[1..], DecodeMark(items[0], b).value, more);
        assert items[0].Literal? ==> (b + more)[1..] == b[1..] + more;
      }
    }
  }

  /** Distinct in-range argument lists are never written as the same bytes. */
  lemma EncodeIsInjective(items: seq<Item>, u: seq<Value>, v: seq<Value>)
    requires Matches(items, u) && Matches(items, v) && Safe(items, u) && Safe(items, v)
    ensures Encode(items, u) == Encode(items, v) <==> ReduceAll(items, u) == ReduceAll(items, v)
  {
    hide BigEndian, Number, Pow256, Truncate;
    RoundTrip(items, u, []);
    RoundTrip(items, v, []);
    assert Encode(items, u) + [] == Encode(items, u) && Encode(items, v) + [] == Encode(items, v);
    EncodeOfReduced(items, u);
    EncodeOfReduced(items, v);
  }

  /** Normalising first changes nothing that is written. */
  lemma EncodeOfReduced(items: seq<Item>, vals: seq<Value>)
    requires Matches(items, vals) && Safe(items, vals)
    ensures Encode(items, ReduceAll(items, vals)) == Encode(items, vals)
  {
    hide BigEndian, Number, Pow256, Truncate;
    RoundTrip(items, vals, []);
    assert Encode(items, vals) + [] == Encode(items, vals);
    PercentFree(items, vals);
    Reencode(items, Encode(items, vals));
    assert Encode(items, ReduceAll(items, vals)) + [] == Encode(items, ReduceAll(items, vals));
  }

  lemma {:induction false} PercentFree(items: seq<Item>, vals: seq<Value>)
    requires Matches(items, vals) && Safe(items, vals)
    ensures Percents(items) == 0
    decreases |items|
  {
    hide BigEndian, Number, Pow256, Truncate;
    if items != [] {
      PercentFree(items[1..], if TakesArgument(items[0]) then vals[1..] else vals);
    }
  }

  // ---------- the constants, in numbers ----------

  /** A fixed-width string is cut, or filled up with zeros at the end. */
  lemma PadIs(s: Bytes, n: nat, i: nat)
    requires i < n
    ensures Pad(s, n)[i] == if i < |s| then s[i] else 0
  {
  }

  /** A counted string is read exactly up to 1 MiB, raw octets up to 4 MiB, given that all are there. */
  lemma StringLimitsAreExact(s: Bytes, rest: Bytes)
    requires |s| < 0x1_0000_0000
    ensures DecodeItem(Text, BigEndian(|s|, 4) + s + rest).Some? <==> |s| <= 1_048_576
    ensures DecodeItem(Raw, BigEndian(|s|, 4) + s + rest).Some? <==> |s| <= 4_194_304
  {
    hide DecodePrefixed;
    PrefixedLimit(s, rest, MAX_TEXT);
    PrefixedLimit(s, rest, MAX_RAW);
  }

  lemma PrefixedLimit(s: Bytes, rest: Bytes, limit: nat)
    requires |s| < 0x1_0000_0000
    ensures DecodePrefixed(BigEndian(|s|, 4) + s + rest, limit).Some? <==> |s| <= limit
  {
    hide BigEndian, Number;
    var b := BigEndian(|s|, 4) + (s + rest);
    assert BigEndian(|s|, 4) + s + rest == b;
    PrefixReads(|s|, s + rest);
    assert |b| == 4 + |s| + |rest|;
  }

  /** A vector is read exactly up to 1,048,576 numbers. */
  lemma CountLimitIsExact(ns: seq<uint32>, rest: Bytes)
    requires |ns| < 0x1_0000_0000
    ensures DecodeItem(Ints(4), EncodeItem(Ints(4), Nums(ns)) + rest).Some? <==> |ns| <= 1_048_576
  {
    hide BigEndian, Number, EncodeNums;
    if |ns| <= MAX_COUNT {
      CountRoundTrip(ns, 4, rest);
    } else {
      var tail := EncodeNums(ns, 4) + rest;
      PrefixReads(|ns|, tail);
      assert EncodeItem(Ints(4), Nums(ns)) + rest == BigEndian(|ns|, 4) + tail;
    }
  }

  /** A number printed in decimal. */
  function Printed(n: nat): string {
    if n < 10 then [('0' as int + n) as char] else Printed(n / 10) + [('0' as int + n % 10) as char]
  }

  /** A width in the format string is read in decimal, modulo 2^32. */
  lemma {:induction false} WidthsAreDecimal(n: nat)
    ensures forall j :: 0 <= j < |Printed(n)| ==> IsDigit(Printed(n)[j])
    ensures Decimal32(Printed(n)) == n % 0x1_0000_0000
  {
    if n < 10 {
      assert Printed(n)[..0] == "";
    } else {
      var front := Printed(n / 10);
      WidthsAreDecimal(n / 10);
      assert Printed(n)[..|front|] == front;
      WidthStep(n);
    }
  }

  lemma WidthStep(n: nat)
    ensures (10 * (n / 10 % 0x1_0000_0000) + n % 10) % 0x1_0000_0000 == n % 0x1_0000_0000
  {
    var m := 0x1_0000_0000;
    var q, r := n / 10 / m, n / 10 % m;
    var s, t := (10 * r + n % 10) / m, (10 * r + n % 10) % m;
    assert n == m * (10 * q + s) + t;
    RemainderIsUnique(n, m, 10 * q + s, t);
  }

  // ---------- directives ----------

  lemma {:induction false} RunEndsAt(digits: string, rest: string)
    requires forall j :: 0 <= j < |digits| ==> IsDigit(digits[j])
    requires rest != "" && !IsDigit(rest[0])
    ensures DigitRun(digits + rest) == |digits|
  {
    if digits == "" {
      assert digits + rest == rest;
    } else {
      assert (digits + rest)[1..] == digits[1..] + rest;
      RunEndsAt(digits[1..], rest);
    }
  }

  /** What a directive with a width of its own stands for: integers and vectors of that many octets, strings
      of that length or, with width 0, counted ones, raw octets, a per cent sign, else nothing known. */
  lemma DirectiveMeans(n: nat, c: char, rest: string)
    requires !IsDigit(c) && WellFormed(rest)
    ensures var fmt := ['%'] + (Printed(n) + ([c] + rest)); var w := n % 0x1_0000_0000;
      && WellFormed(fmt)
      && Parse(fmt) == [
           if c == 'i' then Int(w) else if c == 'I' then Ints(w)
           else if c == 's' then (if w == 0 then Text else Fixed(w))
           else if c == 'S' then Raw else if c == '%' then Percent else Unsupported] + Parse(rest)
  {
    hide Decimal32, Printed;
    var tail := Printed(n) + ([c] + rest);
    var fmt := ['%'] + tail;
    WidthsAreDecimal(n);
    RunEndsAt(Printed(n), [c] + rest);
    assert fmt[1..] == tail && tail[..|Printed(n)|] == Printed(n) && tail[|Printed(n)|] == c;
    assert fmt[|Printed(n)| + 2..] == rest;
  }
}
