// writef and readf: the two interpreters that walk a format string.
module ProtoUtil {
  import opened ByteOrder
  import opened Sockets
  import opened Formats

  // ---------- the width scan shared by both ----------

  lemma {:induction false} DigitRunIs(fmt: string, k: nat)
    requires k <= |fmt| && (forall j :: 0 <= j < k ==> IsDigit(fmt[j]))
    requires k == |fmt| || !IsDigit(fmt[k])
    ensures DigitRun(fmt) == k
  {
    if k > 0 {
      DigitRunIs(fmt[1..], k - 1);
    }
  }

  method ScanWidth(fmt: string, start: nat) returns (p: nat, len: uint32)
    requires start <= |fmt|
    ensures p == start + DigitRun(fmt[start..])
    ensures len == Decimal32(fmt[start..][..DigitRun(fmt[start..])])
  {
    ghost var s := fmt[start..];
    p, len := start, 0;
    while p < |fmt| && '0' <= fmt[p] <= '9'
      invariant start <= p <= |fmt|
      invariant forall j :: 0 <= j < p - start ==> IsDigit(s[j])
      invariant len == Decimal32(s[..p - start])
    {
      assert s[..p + 1 - start][..p - start] == s[..p - start];
      len := (len * 10 + (fmt[p] as int - '0' as int)) % 0x1_0000_0000;
      p := p + 1;
    }
    DigitRunIs(s, p - start);
  }

  // ---------- writing ----------

  method PutU16(out: Bytes, v: int) returns (r: Bytes)
    ensures r == out + BigEndian(v, 2)
  {
    BigEndianShifts(v);
    r := out + [(v / 0x100) % 0x100];
    r := r + [v % 0x100];
  }

  method PutU32(out: Bytes, v: int) returns (r: Bytes)
    ensures r == out + BigEndian(v, 4)
  {
    BigEndianShifts(v);
    r := out + [(v / 0x100_0000) % 0x100];
    r := r + [(v / 0x1_0000) % 0x100];
    r := r + [(v / 0x100) % 0x100];
    r := r + [v % 0x100];
  }

  method PutSized(out: Bytes, v: int, len: nat) returns (r: Bytes)
    ensures r == out + BigEndian(v, Size(len))
  {
    match len
    case 1 =>
      BigEndianShifts(v);
      r := out + [v % 0x100];
    case 2 => r := PutU16(out, v);
    case 4 => r := PutU32(out, v);
    case _ => r := out;
  }

  method PutVector(out: Bytes, ns: seq<uint32>, len: nat) returns (r: Bytes)
    ensures r == out + EncodeItem(Ints(len), Nums(ns))
  {
    hide BigEndian, EncodeNums;
    r := PutU32(out, |ns|);
    var i := 0;
    ghost var goal := out + EncodeItem(Ints(len), Nums(ns));
    assert ns[0..] == ns;
    assert r + EncodeNums(ns, len) == goal;
    while i < |ns|
      invariant i <= |ns|
      invariant r + EncodeNums(ns[i..], len) == goal
    {
      NumWritten(r, ns, i, len);
      r := PutSized(r, ns[i], len);
      i := i + 1;
    }
    NoNumWritten(r, ns[i..], len);
  }

  lemma NumWritten(r: Bytes, ns: seq<uint32>, i: nat, len: nat)
    requires i < |ns|
    ensures r + EncodeNums(ns[i..], len) == r + BigEndian(ns[i], Size(len)) + EncodeNums(ns[i + 1..], len)
  {
    hide BigEndian, Size;
    assert ns[i..][1..] == ns[i + 1..];
  }

  lemma NoNumWritten(r: Bytes, ns: seq<uint32>, len: nat)
    requires ns == []
    ensures r + EncodeNums(ns, len) == r
  {
  }

  method PutFixed(out: Bytes, s: Bytes, len: nat) returns (r: Bytes)
    ensures r == out + Pad(s, len)
  {
    r := out;
    var i := 0;
    while i < len
      invariant i <= len
      invariant r == out + Pad(s, len)[..i]
    {
      r := r + [if i < |s| then s[i] else 0];
      i := i + 1;
    }
  }

  method WriteArgument(out: Bytes, c: char, len: uint32, arg: Value) returns (r: Bytes)
    requires TakesArgument(Directive(c, len)) && Accepts(Directive(c, len), arg)
    ensures r == out + EncodeItem(Directive(c, len), arg)
  {
    hide BigEndian, Pad;
    match c
    case 'i' => r := PutSized(out, arg.n, len);
    case 'I' => r := PutVector(out, arg.ns, len);
    case _ =>
      if c == 's' && len > 0 {
        r := PutFixed(out, arg.s, len);
      } else {
        r := PutU32(out, |arg.s|);
        r := r + arg.s;
      }
  }

  // ---------- one step of the format ----------

  lemma DirectiveStep(s: string)
    requires s != "" && s[0] == '%' && WellFormed(s)
    ensures var k := DigitRun(s[1..]);
      && 1 + k < |s| && WellFormed(s[k + 2..])
      && Parse(s) == [Directive(s[1 + k], Decimal32(s[1..][..k]))] + Parse(s[k + 2..])
  {
    hide DigitRun, Decimal32, Directive;
  }

  lemma LiteralStep(s: string)
    requires s != "" && s[0] != '%' && WellFormed(s)
    ensures WellFormed(s[1..]) && Parse(s) == [Literal(Ascii(s[0]))] + Parse(s[1..])
  {
  }

  lemma ArgumentWritten(r: Bytes, it: Item, items: seq<Item>, vals: seq<Value>)
    requires Matches([it] + items, vals) && TakesArgument(it)
    ensures vals != [] && Accepts(it, vals[0]) && Matches(items, vals[1..])
    ensures r + Encode([it] + items, vals) == r + EncodeItem(it, vals[0]) + Encode(items, vals[1..])
  {
    hide EncodeItem, Accepts;
    assert ([it] + items)[1..] == items;
  }

  lemma MarkWritten(r: Bytes, it: Item, items: seq<Item>, vals: seq<Value>)
    requires Matches([it] + items, vals) && !TakesArgument(it)
    ensures Matches(items, vals)
    ensures r + Encode([it] + items, vals) == r + EncodeMark(it) + Encode(items, vals)
  {
    hide EncodeItem, Accepts;
    assert ([it] + items)[1..] == items;
  }

  /** Appends the encoding of the arguments under the format. */
  method Writef(out: Bytes, fmt: string, args: seq<Value>) returns (r: Bytes)
    requires WellFormed(fmt) && Matches(Parse(fmt), args)
    ensures r == out + Encode(Parse(fmt), args)
  {
    hide EncodeItem, Accepts, Encode, Matches, Parse, WellFormed, DigitRun, Decimal32;
    ghost var goal := out + Encode(Parse(fmt), args);
    r := out;
    var p, a := 0, 0;
    assert fmt[0..] == fmt && args[0..] == args;
    while p < |fmt|
      invariant p <= |fmt| && a <= |args|
      invariant WellFormed(fmt[p..]) && Matches(Parse(fmt[p..]), args[a..])
      invariant r + Encode(Parse(fmt[p..]), args[a..]) == goal
      decreases |fmt| - p
    {
      ghost var here := fmt[p..];
      if fmt[p] == '%' {
        DirectiveStep(here);
        assert here[1..] == fmt[p + 1..];
        ghost var start := p;
        var len;
        p, len := ScanWidth(fmt, p + 1);
        var c := fmt[p];
        assert here[p + 1 - start..] == fmt[p + 1..];
        ghost var items := Parse(fmt[p + 1..]);
        if c == 'i' || c == 'I' || c == 's' || c == 'S' {
          ArgumentWritten(r, Directive(c, len), items, args[a..]);
          assert args[a..][1..] == args[a + 1..];
          r := WriteArgument(r, c, len, args[a]);
          a := a + 1;
        } else {
          MarkWritten(r, Directive(c, len), items, args[a..]);
          if c == '%' {
            r := r + [Ascii('%')];
          } else {
            assert r + [] == r;
          }
        }
      } else {
        LiteralStep(here);
        assert here[1..] == fmt[p + 1..];
        MarkWritten(r, Literal(Ascii(fmt[p])), Parse(fmt[p + 1..]), args[a..]);
        r := r + [Ascii(fmt[p])];
      }
      p := p + 1;
    }
    assert fmt[p..] == "";
    NothingToWrite(args[a..]);
    assert r + [] == r;
  }

  lemma NothingToWrite(vals: seq<Value>)
    requires Matches(Parse(""), vals)
    ensures Encode(Parse(""), vals) == []
  {
  }

  // ---------- reading ----------

  /** `after` is `before` with everything up to `rest` consumed. */
  ghost predicate Consumed(before: Input, after: Input, rest: Bytes) {
    && |rest| <= |before.All()|
    && after == before.Drop(|before.All()| - |rest|)
    && after.All() == rest
  }

  lemma DropTwice(i: Input, a: nat, b: nat)
    requires a + b <= |i.buf| + |i.net|
    ensures i.Drop(a).Drop(b) == i.Drop(a + b)
  {
  }

  lemma ConsumedTwice(a: Input, b: Input, c: Input, mid: Bytes, rest: Bytes)
    requires Consumed(a, b, mid) && Consumed(b, c, rest)
    ensures Consumed(a, c, rest)
  {
    DropTwice(a, |a.All()| - |mid|, |mid| - |rest|);
  }

  lemma ConsumedAll(a: Input, b: Input, rest: Bytes)
    requires Consumed(a, b, rest)
    ensures rest == b.All()
    ensures Consumed(a, b, b.All())
  {
  }

  lemma ExactConsumes(i: Input, n: nat)
    requires n <= |i.All()|
    ensures i.Exact(n).ok && i.Exact(n).data == i.All()[..n]
    ensures Consumed(i, i.Exact(n).left, i.All()[n..])
  {
  }

  method ReadWord(stream: SocketStream, len: nat) returns (ok: bool, v: uint32)
    requires stream.Valid()
    modifies stream`m_bufferPos, stream`net, stream`interrupts
    ensures stream.Valid()
    ensures match DecodeItem(Int(len), old(stream.Pending()).All())
            case None => !ok
            case Some((value, rest)) =>
              ok && value == Num(v) && Consumed(old(stream.Pending()), stream.Pending(), rest)
  {
    hide Input.All, Input.Exact, Number, Consumed;
    ghost var before := stream.Pending();
    assert |before.All()| == |before.buf| + |before.net| by { AllLength(before); }
    if len != 1 && len != 2 && len != 4 {
      return false, 0;
    }
    var b;
    ok, b := stream.ReadExact(len);
    ExactOutcome(before, len);
    if !ok {
      return false, 0;
    }
    ExactConsumes(before, len);
    NumberShifts(b);
    match len
    case 1 => v := b[0];
    case 2 => v := b[0] as int * 0x100 + b[1];
    case _ => v := b[0] as int * 0x100_0000 + b[1] as int * 0x1_0000 + b[2] as int * 0x100 + b[3];
  }

  lemma AllLength(i: Input)
    ensures |i.All()| == |i.buf| + |i.net|
  {
  }

  lemma ExactOutcome(i: Input, n: nat)
    ensures i.Exact(n).ok <==> n <= |i.All()|
    ensures i.Exact(n).ok ==> |i.Exact(n).data| == n
  {
  }

  ghost function Extend(ns: seq<uint32>, r: Option<(seq<uint32>, Bytes)>): Option<(seq<uint32>, Bytes)> {
    match r
    case None => None
    case Some((more, rest)) => Some((ns + more, rest))
  }

  lemma NumsStep(count: nat, len: nat, b: Bytes)
    requires count > 0
    ensures match DecodeItem(Int(len), b)
            case None => DecodeNums(count, len, b).None?
            case Some((v, rest)) =>
              0 <= v.n < 0x1_0000_0000 ==>
              DecodeNums(count, len, b) == Extend([v.n], DecodeNums(count - 1, len, rest))
  {
    hide Number;
  }

  lemma ExtendNone(ns: seq<uint32>)
    ensures Extend(ns, None).None?
  {
  }

  lemma ExtendNothing(r: Option<(seq<uint32>, Bytes)>)
    ensures Extend([], r) == r
  {
    if r.Some? {
      assert [] + r.value.0 == r.value.0;
    }
  }

  lemma ExtendTwice(ns: seq<uint32>, v: uint32, r: Option<(seq<uint32>, Bytes)>)
    ensures Extend(ns, Extend([v], r)) == Extend(ns + [v], r)
  {
    if r.Some? {
      assert ns + ([v] + r.value.0) == ns + [v] + r.value.0;
    }
  }

  method ReadVector(stream: SocketStream, len: nat) returns (ok: bool, ns: seq<uint32>)
    requires stream.Valid()
    modifies stream`m_bufferPos, stream`net, stream`interrupts
    ensures stream.Valid()
    ensures match DecodeItem(Ints(len), old(stream.Pending()).All())
            case None => !ok
            case Some((value, rest)) =>
              ok && value == Nums(ns) && Consumed(old(stream.Pending()), stream.Pending(), rest)
  {
    hide Input.All, Input.Exact, Number, DecodeNums, Consumed, Extend;
    ghost var before := stream.Pending();
    ns := [];
    var count;
    ok, count := ReadWord(stream, 4);
    if !ok {
      return;
    }
    if count > 1048576 {
      return false, [];
    }
    ghost var start := stream.Pending().All();
    ConsumedAll(before, stream.Pending(), DecodeItem(Int(4), before.All()).value.1);
    var i := 0;
    ghost var goal := DecodeNums(count, len, start);
    ExtendNothing(goal);
    while i < count && ok
      invariant stream.Valid() && i <= count
      invariant !ok ==> goal.None?
      invariant ok ==> Consumed(before, stream.Pending(), stream.Pending().All())
      invariant ok ==> goal == Extend(ns, DecodeNums(count - i, len, stream.Pending().All()))
      decreases count - i
    {
      ghost var here := stream.Pending();
      ExtendNone(ns);
      NumsStep(count - i, len, here.All());
      var v;
      ok, v := ReadWord(stream, len);
      if ok {
        ConsumedAll(here, stream.Pending(), DecodeItem(Int(len), here.All()).value.1);
        ConsumedTwice(before, here, stream.Pending(), here.All(), stream.Pending().All());
        ExtendTwice(ns, v, DecodeNums(count - i - 1, len, stream.Pending().All()));
        ns := ns + [v];
      }
      i := i + 1;
    }
    if ok {
      NumsDone(ns, len, stream.Pending().All());
    }
  }

  lemma NumsDone(ns: seq<uint32>, len: nat, b: Bytes)
    ensures Extend(ns, DecodeNums(0, len, b)) == Some((ns, b))
  {
    assert ns + [] == ns;
  }

  method ReadPrefixed(stream: SocketStream, limit: nat) returns (ok: bool, s: Bytes)
    requires stream.Valid()
    modifies stream`m_bufferPos, stream`net, stream`interrupts
    ensures stream.Valid()
    ensures match DecodePrefixed(old(stream.Pending()).All(), limit)
            case None => !ok
            case Some((value, rest)) =>
              ok && value == Str(s) && Consumed(old(stream.Pending()), stream.Pending(), rest)
  {
    hide Input.All, Input.Exact, Number;
    ghost var before := stream.Pending();
    s := [];
    var n;
    ok, n := ReadWord(stream, 4);
    if !ok {
      return;
    }
    if n > limit {
      return false, [];
    }
    ghost var here := stream.Pending();
    ok, s := stream.ReadExact(n);
    ExactOutcome(here, n);
    if ok {
      ExactConsumes(here, n);
      ConsumedTwice(before, here, stream.Pending(), here.All(), here.All()[n..]);
    }
  }

  method ReadFixed(stream: SocketStream, len: nat) returns (ok: bool, s: Bytes)
    requires stream.Valid()
    modifies stream`m_bufferPos, stream`net, stream`interrupts
    ensures stream.Valid()
    ensures match DecodeItem(Fixed(len), old(stream.Pending()).All())
            case None => !ok
            case Some((value, rest)) =>
              ok && value == Str(s) && Consumed(old(stream.Pending()), stream.Pending(), rest)
  {
    hide Input.All, Input.Exact;
    ghost var before := stream.Pending();
    ExactOutcome(before, len);
    ok, s := stream.ReadExact(len);
    if ok {
      ExactConsumes(before, len);
    }
  }

  method ReadArgument(stream: SocketStream, c: char, len: uint32) returns (ok: bool, v: Value)
    requires stream.Valid() && TakesArgument(Directive(c, len))
    modifies stream`m_bufferPos, stream`net, stream`interrupts
    ensures stream.Valid()
    ensures match DecodeItem(Directive(c, len), old(stream.Pending()).All())
            case None => !ok
            case Some((value, rest)) =>
              ok && value == v && Consumed(old(stream.Pending()), stream.Pending(), rest)
  {
    hide Input.All, DecodePrefixed, DecodeNums, Number, Consumed;
    match c
    case 'i' =>
      var n;
      ok, n := ReadWord(stream, len);
      v := Num(n);
    case 'I' =>
      var ns;
      ok, ns := ReadVector(stream, len);
      v := Nums(ns);
    case _ =>
      var s;
      if c == 's' && len > 0 {
        ok, s := ReadFixed(stream, len);
      } else {
        ok, s := ReadPrefixed(stream, if c == 's' then 1024 * 1024 else 4 * 1024 * 1024);
      }
      v := Str(s);
  }

  ghost function Prepend(vals: seq<Value>, d: Option<Decoded>): Option<Decoded> {
    match d
    case None => None
    case Some(Decoded(more, rest)) => Some(Decoded(vals + more, rest))
  }

  lemma PrependTwice(vals: seq<Value>, more: seq<Value>, d: Option<Decoded>)
    ensures Prepend(vals, Prepend(more, d)) == Prepend(vals + more, d)
  {
    if d.Some? {
      assert vals + (more + d.value.vals) == vals + more + d.value.vals;
    }
  }

  method ReadLiteral(stream: SocketStream, c: char) returns (ok: bool)
    requires stream.Valid()
    modifies stream`m_bufferPos, stream`net, stream`interrupts
    ensures stream.Valid()
    ensures match DecodeMark(Literal(Ascii(c)), old(stream.Pending()).All())
            case None => !ok
            case Some(rest) => ok && Consumed(old(stream.Pending()), stream.Pending(), rest)
  {
    hide Input.All, Input.Exact, Consumed;
    ghost var before := stream.Pending();
    ExactOutcome(before, 1);
    var b;
    ok, b := stream.ReadExact(1);
    if ok {
      ExactConsumes(before, 1);
      ok := b[0] == Ascii(c);
    }
  }

  lemma DirectiveKinds(c: char, len: nat)
    ensures TakesArgument(Directive(c, len)) <==> c == 'i' || c == 'I' || c == 's' || c == 'S'
    ensures Directive(c, len).Percent? <==> c == '%'
    ensures !TakesArgument(Directive(c, len)) && c != '%' ==> Directive(c, len).Unsupported?
    ensures !TakesArgument(Literal(Ascii(c)))
  {
  }

  lemma MarkKinds(it: Item, b: Bytes)
    ensures it.Percent? ==> DecodeMark(it, b) == Some(b)
    ensures it.Unsupported? ==> DecodeMark(it, b).None?
  {
  }

  lemma ArgumentRead(it: Item, items: seq<Item>, b: Bytes)
    requires TakesArgument(it)
    ensures DecodeItem(it, b).None? ==> Decode([it] + items, b).None?
    ensures DecodeItem(it, b).Some? ==>
      var item := DecodeItem(it, b).value;
      Decode([it] + items, b) == Prepend([item.0], Decode(items, item.1))
  {
    hide DecodeItem;
    assert ([it] + items)[1..] == items;
  }

  lemma MarkRead(it: Item, items: seq<Item>, b: Bytes)
    requires !TakesArgument(it)
    ensures DecodeMark(it, b).None? ==> Decode([it] + items, b).None?
    ensures DecodeMark(it, b).Some? ==>
      Decode([it] + items, b) == Prepend([], Decode(items, DecodeMark(it, b).value))
  {
    hide DecodeMark;
    assert ([it] + items)[1..] == items;
    if DecodeMark(it, b).Some? {
      PrependNothing(Decode(items, DecodeMark(it, b).value));
    }
  }

  /** `vals` and the advance to `next` are the first part of decoding the format from `p` on. */
  ghost predicate StepRead(fmt: string, p: nat, before: Input, vals: seq<Value>, next: nat, after: Input)
    requires p <= |fmt| && WellFormed(fmt[p..])
  {
    && p < next <= |fmt| && WellFormed(fmt[next..])
    && Consumed(before, after, after.All())
    && Decode(Parse(fmt[p..]), before.All()) == Prepend(vals, Decode(Parse(fmt[next..]), after.All()))
  }

  method ReadDirective(stream: SocketStream, fmt: string, p: nat)
    returns (ok: bool, vals: seq<Value>, next: nat)
    requires stream.Valid() && p < |fmt| && fmt[p] == '%' && WellFormed(fmt[p..])
    modifies stream`m_bufferPos, stream`net, stream`interrupts
    ensures stream.Valid()
    ensures ok ==> StepRead(fmt, p, old(stream.Pending()), vals, next, stream.Pending())
    ensures !ok ==> Decode(Parse(fmt[p..]), old(stream.Pending()).All()).None?
  {
    hide Input.All, DecodeItem, Decode, Parse, WellFormed, DigitRun, Decimal32, Prepend, Consumed;
    hide Directive, TakesArgument, DecodeMark;
    ghost var here, before := fmt[p..], stream.Pending();
    DirectiveStep(here);
    assert here[1..] == fmt[p + 1..];
    var len;
    next, len := ScanWidth(fmt, p + 1);
    var c := fmt[next];
    assert here[next + 1 - p..] == fmt[next + 1..];
    next := next + 1;
    vals := [];
    DirectiveKinds(c, len);
    ghost var it, items := Directive(c, len), Parse(fmt[next..]);
    if c == 'i' || c == 'I' || c == 's' || c == 'S' {
      ArgumentRead(it, items, before.All());
      var v;
      ok, v := ReadArgument(stream, c, len);
      if ok {
        vals := [v];
        ConsumedAll(before, stream.Pending(), DecodeItem(it, before.All()).value.1);
      }
    } else {
      MarkRead(it, items, before.All());
      MarkKinds(it, before.All());
      NothingConsumed(before);
      ok := c == '%';
    }
  }

  method ReadLiteralAt(stream: SocketStream, fmt: string, p: nat) returns (ok: bool)
    requires stream.Valid() && p < |fmt| && fmt[p] != '%' && WellFormed(fmt[p..])
    modifies stream`m_bufferPos, stream`net, stream`interrupts
    ensures stream.Valid()
    ensures ok ==> StepRead(fmt, p, old(stream.Pending()), [], p + 1, stream.Pending())
    ensures !ok ==> Decode(Parse(fmt[p..]), old(stream.Pending()).All()).None?
  {
    hide Input.All, Decode, Parse, WellFormed, Prepend, Consumed, DecodeMark;
    ghost var here, before := fmt[p..], stream.Pending();
    LiteralStep(here);
    assert here[1..] == fmt[p + 1..];
    ghost var it := Literal(Ascii(fmt[p]));
    MarkRead(it, Parse(fmt[p + 1..]), before.All());
    ok := ReadLiteral(stream, fmt[p]);
    if ok {
      ConsumedAll(before, stream.Pending(), DecodeMark(it, before.All()).value);
    }
  }

  /** Reads the arguments of the format; succeeds exactly when the unread bytes decode. */
  method Readf(stream: SocketStream, fmt: string) returns (ok: bool, vals: seq<Value>)
    requires stream.Valid() && WellFormed(fmt)
    modifies stream`m_bufferPos, stream`net, stream`interrupts
    ensures stream.Valid()
    ensures match Decode(Parse(fmt), old(stream.Pending()).All())
            case None => !ok
            case Some(d) => ok && vals == d.vals && Consumed(old(stream.Pending()), stream.Pending(), d.rest)
  {
    hide Input.All, Decode, Parse, WellFormed, Prepend, Consumed;
    ghost var before := stream.Pending();
    ghost var goal := Decode(Parse(fmt), before.All());
    ok, vals := true, [];
    var p := 0;
    assert fmt[0..] == fmt;
    PrependNothing(goal);
    NothingConsumed(before);
    while p < |fmt| && ok
      invariant stream.Valid() && p <= |fmt|
      invariant ok ==> WellFormed(fmt[p..])
      invariant !ok ==> goal.None?
      invariant ok ==> Consumed(before, stream.Pending(), stream.Pending().All())
      invariant ok ==> goal == Prepend(vals, Decode(Parse(fmt[p..]), stream.Pending().All()))
      decreases |fmt| - p, ok
    {
      ghost var here := stream.Pending();
      PrependNone(vals);
      var more, next := [], p + 1;
      if fmt[p] == '%' {
        ok, more, next := ReadDirective(stream, fmt, p);
      } else {
        ok := ReadLiteralAt(stream, fmt, p);
      }
      if ok {
        ConsumedTwice(before, here, stream.Pending(), here.All(), stream.Pending().All());
        PrependTwice(vals, more, Decode(Parse(fmt[next..]), stream.Pending().All()));
        vals, p := vals + more, next;
      }
    }
    if ok {
      assert fmt[p..] == "";
      NothingToRead(vals, stream.Pending().All());
    }
  }

  lemma NothingToRead(vals: seq<Value>, b: Bytes)
    ensures Prepend(vals, Decode(Parse(""), b)) == Some(Decoded(vals, b))
  {
    assert vals + [] == vals;
  }

  lemma PrependNone(vals: seq<Value>)
    ensures Prepend(vals, None).None?
  {
  }

  lemma NothingConsumed(i: Input)
    ensures Consumed(i, i, i.All())
  {
  }

  lemma PrependNothing(d: Option<Decoded>)
    ensures Prepend([], d) == d
  {
    if d.Some? {
      assert [] + d.value.vals == d.value.vals;
    }
  }
}
