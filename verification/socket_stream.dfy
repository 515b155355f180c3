// The buffered TCP stream: exact reads, whole writes and length-prefixed frames, with a socket
// that moves an arbitrary positive number of octets per call and may be interrupted.
module Sockets {
  import opened ByteOrder

  const MAX_FRAME: nat := 4 * 1024 * 1024

  /** Everything still to be read: the unconsumed push-back buffer, then the socket. */
  datatype Input = Input(buf: Bytes, net: Bytes) {
    function All(): Bytes {
      buf + net
    }

    function Drop(n: nat): (r: Input)
      requires n <= |buf| + |net|
      ensures r.All() == All()[n..]
    {
      if n <= |buf| then Input(buf[n..], net) else Input([], net[n - |buf|..])
    }

    /** pushToBuffer: the new octets are read before anything still on the socket. */
    function Push(data: Bytes): Input {
      Input(buf + data, net)
    }

    /** A read of `n` octets; a read that cannot be met drains the input. */
    function Exact(n: nat): Read {
      if n <= |buf| + |net| then Read(true, All()[..n], Drop(n)) else Read(false, [], DRAINED)
    }

    /** One frame: a 4-octet length, then that many octets. */
    function Frame(): Read {
      var head := Exact(4);
      if !head.ok then head
      else if Number(head.data) > MAX_FRAME then Read(false, [], head.left)
      else head.left.Exact(Number(head.data))
    }
  }

  const DRAINED := Input([], [])

  datatype Read = Read(ok: bool, data: Bytes, left: Input)

  /** What the peer has received, and how many more octets it takes before the connection breaks. */
  datatype Output = Output(sent: Bytes, room: nat) {
    predicate Fits(data: Bytes) {
      |data| <= room
    }

    function Put(data: Bytes): Output {
      var n := Min(|data|, room);
      Output(sent + data[..n], room - n)
    }

    predicate FrameFits(payload: Bytes) {
      |payload| <= MAX_FRAME && Fits(Framed(payload))
    }

    function PutFrame(payload: Bytes): Output {
      if |payload| > MAX_FRAME then this else Put(Framed(payload))
    }
  }

  lemma ExactCases(i: Input, n: nat)
    ensures n <= |i.buf| ==> i.Exact(n) == Read(true, i.buf[..n], Input(i.buf[n..], i.net))
    ensures |i.buf| <= n <= |i.buf| + |i.net| ==>
      var k := n - |i.buf|;
      i.Exact(n) == Read(true, i.buf + i.net[..k], Input([], i.net[k..]))
    ensures n > |i.buf| + |i.net| ==> i.Exact(n) == Read(false, [], DRAINED)
  {
    if n <= |i.buf| {
      assert i.All()[..n] == i.buf[..n];
    }
    if |i.buf| <= n <= |i.buf| + |i.net| {
      assert i.All()[..n] == i.buf + i.net[..n - |i.buf|];
    }
  }

  /** A successful read splits the input: what was read, then what is left. */
  lemma ExactSplits(i: Input, n: nat)
    requires i.Exact(n).ok
    ensures i.All() == i.Exact(n).data + i.Exact(n).left.All()
    ensures |i.Exact(n).data| == n
    ensures |i.Exact(n).left.buf| + |i.Exact(n).left.net| + n == |i.buf| + |i.net|
  {
    assert i.All() == i.All()[..n] + i.All()[n..];
  }

  function Framed(payload: Bytes): Bytes {
    BigEndian(|payload|, 4) + payload
  }

  lemma PutTwice(o: Output, a: Bytes, b: Bytes)
    ensures o.Fits(a + b) <==> o.Fits(a) && o.Put(a).Fits(b)
    ensures o.Put(a).Put(b) == o.Put(a + b)
  {
    var n := Min(|a + b|, o.room);
    if |a| <= o.room {
      assert a[..|a|] == a;
      assert (a + b)[..n] == a + b[..n - |a|];
    } else {
      assert (a + b)[..n] == a[..n];
    }
  }

  lemma TakeMore(s: Bytes, n: nat, chunk: Bytes, rest: Bytes)
    requires n <= |s| && s[n..] == chunk + rest
    ensures n + |chunk| <= |s|
    ensures s[..n] + chunk == s[..n + |chunk|] && s[n + |chunk|..] == rest
  {
    var m := n + |chunk|;
    assert s[..n] + s[n..] == s;
    assert s == s[..n] + chunk + rest;
  }

  datatype Received = Chunk(data: Bytes) | EndOfStream | Interrupted

  /** The far side of one connection attempt. */
  datatype Link = Refused | Accepted(net: Bytes, room: nat)

  class SocketStream {
    var m_open: bool
    var m_buffer: Bytes
    var m_bufferPos: nat

    // The operating system's side of the connection.
    var net: Bytes
    var sent: Bytes
    var room: nat
    var interrupts: nat

    ghost predicate Valid()
      reads this
    {
      && m_bufferPos <= |m_buffer|
      && (!m_open ==> net == [] && room == 0)
    }

    ghost function Pending(): Input
      reads this
      requires Valid()
    {
      Input(m_buffer[m_bufferPos..], net)
    }

    ghost function Out(): Output
      reads this
    {
      Output(sent, room)
    }

    constructor (interrupts: nat)
      ensures Valid() && Pending() == DRAINED && Out() == Output([], 0) && !m_open
    {
      m_open, m_buffer, m_bufferPos := false, [], 0;
      net, sent, room := [], [], 0;
      this.interrupts := interrupts;
    }

    method Connect(link: Link) returns (ok: bool)
      requires Valid() && !m_open
      modifies this
      ensures Valid()
      ensures ok == link.Accepted? == m_open
      ensures Pending() == Input(old(Pending()).buf, if ok then link.net else [])
      ensures Out() == if ok then Output([], link.room) else old(Out())
    {
      match link
      case Refused => ok := false;
      case Accepted(incoming, capacity) =>
        m_open, net, sent, room := true, incoming, [], capacity;
        ok := true;
    }

    /** recv: some of the next octets, the end of the stream, or an interruption. */
    method Recv(max: nat) returns (r: Received)
      requires max > 0
      modifies this`net, this`interrupts
      ensures r.Chunk? ==> 0 < |r.data| <= max && old(net) == r.data + net
      ensures !r.Chunk? ==> net == old(net)
      ensures r.EndOfStream? ==> net == []
      ensures if r.Interrupted? then interrupts < old(interrupts) else interrupts == old(interrupts)
    {
      var signal: bool := *;
      if signal && interrupts > 0 {
        interrupts := interrupts - 1;
        r := Interrupted;
      } else if net == [] {
        r := EndOfStream;
      } else {
        var k: nat :| 1 <= k <= max && k <= |net|;
        r := Chunk(net[..k]);
        net := net[k..];
      }
    }

    /** send: takes some of the octets offered (0 is an error), or is interrupted (None). */
    method Send(data: Bytes) returns (r: Option<nat>)
      requires data != []
      modifies this`sent, this`room, this`interrupts
      ensures r.Some? ==> r.value <= |data| && r.value <= old(room)
      ensures r.Some? ==> sent == old(sent) + data[..r.value] && room == old(room) - r.value
      ensures r.Some? && r.value == 0 ==> room == 0
      ensures r.None? ==> sent == old(sent) && room == old(room)
      ensures if r.None? then interrupts < old(interrupts) else interrupts == old(interrupts)
    {
      var signal: bool := *;
      if signal && interrupts > 0 {
        interrupts := interrupts - 1;
        r := None;
      } else if room == 0 {
        r := Some(0);
      } else {
        var k: nat :| 1 <= k <= |data| && k <= room;
        sent, room := sent + data[..k], room - k;
        r := Some(k);
      }
    }

    /** Exactly the next `n` unread octets, however the socket splits them. */
    method ReadExact(n: nat) returns (ok: bool, data: Bytes)
      requires Valid()
      modifies this`m_bufferPos, this`net, this`interrupts
      ensures Valid()
      ensures Read(ok, data, Pending()) == old(Pending()).Exact(n)
    {
      hide Input.Exact, Input.All, Input.Drop;
      ghost var before := Pending();
      ExactCases(before, n);
      data := [];
      while |data| < n && m_bufferPos < |m_buffer|
        invariant Valid() && |data| <= n && |data| <= |before.buf|
        invariant m_bufferPos == old(m_bufferPos) + |data| && net == before.net
        invariant data == before.buf[..|data|]
      {
        data := data + [m_buffer[m_bufferPos]];
        m_bufferPos := m_bufferPos + 1;
      }
      if |data| == n {
        return true, data;
      }
      ghost var taken: nat := 0;
      while |data| < n
        invariant Valid() && |data| <= n && m_bufferPos == |m_buffer|
        invariant taken <= |before.net| && net == before.net[taken..]
        invariant data == before.buf + before.net[..taken]
        decreases n - |data|, interrupts
      {
        var r := Recv(n - |data|);
        match r
        case Chunk(chunk) =>
          TakeMore(before.net, taken, chunk, net);
          assert before.buf + before.net[..taken] + chunk == before.buf + (before.net[..taken] + chunk);
          data := data + chunk;
          taken := taken + |chunk|;
        case EndOfStream =>
          return false, [];
        case Interrupted =>
      }
      ok := true;
    }

    /** All of `data`, or as much of it as the peer takes. */
    method WriteAll(data: Bytes) returns (ok: bool)
      requires Valid()
      modifies this`sent, this`room, this`interrupts
      ensures Valid()
      ensures ok <==> old(Out()).Fits(data)
      ensures Out() == old(Out()).Put(data)
    {
      var done: nat := 0;
      while done < |data|
        invariant Valid() && done <= |data|
        invariant done <= old(room) && sent == old(sent) + data[..done] && room == old(room) - done
        decreases |data| - done, interrupts
      {
        var r := Send(data[done..]);
        match r
        case Some(k) =>
          if k == 0 {
            return false;
          }
          assert data[..done] + data[done..][..k] == data[..done + k];
          done := done + k;
        case None =>
      }
      assert data[..done] == data;
      ok := true;
    }

    method ReadFrame() returns (ok: bool, frame: Bytes)
      requires Valid()
      modifies this`m_bufferPos, this`net, this`interrupts
      ensures Valid()
      ensures Read(ok, frame, Pending()) == old(Pending()).Frame()
    {
      var head;
      ok, head := ReadExact(4);
      if !ok {
        return false, [];
      }
      NumberShifts(head);
      var len := head[0] as int * 0x100_0000 + head[1] as int * 0x1_0000 + head[2] as int * 0x100 + head[3] as int;
      if len > 4 * 1024 * 1024 {
        return false, [];
      }
      if len == 0 {
        assert Pending().Drop(0) == Pending();
        return true, [];
      }
      ok, frame := ReadExact(len);
    }

    method WriteFrame(payload: Bytes) returns (ok: bool)
      requires Valid()
      modifies this`sent, this`room, this`interrupts
      ensures Valid()
      ensures ok <==> old(Out()).FrameFits(payload)
      ensures Out() == old(Out()).PutFrame(payload)
    {
      var n := |payload|;
      if n > 4 * 1024 * 1024 {
        return false;
      }
      BigEndianShifts(n);
      var head := [(n / 0x100_0000) % 0x100, (n / 0x1_0000) % 0x100, (n / 0x100) % 0x100, n % 0x100];
      PutTwice(Out(), head, payload);
      ok := WriteAll(head);
      if !ok {
        assert Out().room == 0;
        assert Out().Put(payload) == Out();
        return;
      }
      if n == 0 {
        assert Out().Put(payload) == Out();
        return;
      }
      ok := WriteAll(payload);
    }

    method PushToBuffer(data: Bytes)
      requires Valid()
      modifies this`m_buffer
      ensures Valid()
      ensures Pending() == old(Pending()).Push(data)
    {
      m_buffer := m_buffer + data;
    }

    method Close()
      requires Valid()
      modifies this`m_open, this`m_buffer, this`m_bufferPos, this`net, this`room
      ensures Valid() && !m_open
      ensures Pending() == DRAINED && Out() == Output(old(sent), 0)
    {
      if m_open {
        m_open, net, room := false, [], 0;
      }
      m_buffer, m_bufferPos := [], 0;
    }
  }
}
