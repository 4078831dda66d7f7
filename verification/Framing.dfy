/**
 Messages on the wire (command.go, connection.go): a 4-byte big-endian length, a message code and a
 payload, read back through a receive buffer that is reused and only ever grows.
 */
module Framing {
  import opened Common

  newtype byte = x: int | 0 <= x < 0x100

  const TWO_32: nat := 0x1_0000_0000
  const INIT_BUFFER: nat := 2048

  function BigEndian(n: nat): (r: seq<byte>)
    requires n < TWO_32
    ensures |r| == 4
  {
    [(n / 0x100_0000) as byte, (n / 0x1_0000 % 0x100) as byte, (n / 0x100 % 0x100) as byte, (n % 0x100) as byte]
  }

  function FromBigEndian(bs: seq<byte>): (n: nat)
    requires |bs| == 4
    ensures n < TWO_32
  {
    bs[0] as int * 0x100_0000 + bs[1] as int * 0x1_0000 + bs[2] as int * 0x100 + bs[3] as int
  }

  lemma BigEndianRoundTrip(n: nat)
    requires n < TWO_32
    ensures FromBigEndian(BigEndian(n)) == n
  {
    var m2 := n / 0x100;
    var m1 := m2 / 0x100;
    assert n / 0x1_0000 == m1 && n / 0x100_0000 == m1 / 0x100;
    assert n == m2 * 0x100 + n % 0x100 && m2 == m1 * 0x100 + m2 % 0x100 && m1 == (m1 / 0x100) * 0x100 + m1 % 0x100;
  }

  predicate Lexicographic(a: seq<byte>, b: seq<byte>)
    requires |a| == |b|
  {
    a != [] && (a[0] < b[0] || (a[0] == b[0] && Lexicographic(a[1..], b[1..])))
  }

  /** The first byte is the most significant: byte strings compare as the numbers they stand for. */
  lemma BigEndianOrder(a: seq<byte>, b: seq<byte>)
    requires |a| == |b| == 4
    ensures FromBigEndian(a) < FromBigEndian(b) <==> Lexicographic(a, b)
  {
    assert a[1..][1..][1..] == [a[3]] && b[1..][1..][1..] == [b[3]];
    assert Lexicographic([a[3]], [b[3]]) <==> a[3] < b[3];
    assert a[1..][1..][0] == a[2] && b[1..][1..][0] == b[2] && a[1..][0] == a[1] && b[1..][0] == b[1];
    assert Lexicographic(a[1..][1..], b[1..][1..]) <==> a[2] < b[2] || (a[2] == b[2] && a[3] < b[3]);
  }

  /** The message as sent; the length is converted to uint32, so it is taken modulo 2^32. */
  function Frame(code: byte, data: seq<byte>): seq<byte> {
    BigEndian((|data| + 1) % TWO_32) + [code] + data
  }

  method BuildRiakMessage(code: byte, data: seq<byte>) returns (msg: seq<byte>)
    ensures msg == Frame(code, data)
    ensures |msg| == 5 + |data| && FromBigEndian(msg[..4]) == (|data| + 1) % 0x1_0000_0000
    ensures |data| + 1 < TWO_32 ==>
              |msg| == 5 + |data| && FromBigEndian(msg[..4]) == |data| + 1 && msg[4..] == [code] + data
  {
    BigEndianRoundTrip((|data| + 1) % TWO_32);
    var buf := BigEndian((|data| + 1) % TWO_32);
    ghost var size := buf;
    buf := buf + [code];
    buf := buf + data;
    msg := buf;
    assert msg[..4] == size && msg[4..] == [code] + data;
  }

  // ------------------------------------------------------------------------------------------
  // Reading one message
  // ------------------------------------------------------------------------------------------

  function Max(a: nat, b: nat): nat {
    if a < b then b else a
  }

  /** What a read leaves: the message, if there is one, the bytes still to come, the size of the buffer. */
  datatype ReadOutcome = ReadOutcome(frame: Option<seq<byte>>, rest: seq<byte>, capacity: nat)

  /** A read attempt that ends in a network error after taking some bytes off the stream. */
  datatype Fault = Fault(consumed: nat, temporary: bool)

  function HeaderLength(input: seq<byte>): nat
    requires 4 <= |input|
  {
    FromBigEndian(input[..4])
  }

  /** An attempt without network error; a stream that ends early is a final error. */
  function CleanRead(input: seq<byte>, capacity: nat): ReadOutcome {
    if |input| < 4 then ReadOutcome(None, [], capacity)
    else
      var len := HeaderLength(input);
      if |input| < 4 + len then ReadOutcome(None, [], Max(capacity, len))
      else ReadOutcome(Some(input[4..4 + len]), input[4 + len..], Max(capacity, len))
  }

  function Taken(input: seq<byte>, f: Fault): nat {
    if f.consumed < |input| then f.consumed else |input|
  }

  function CapacityAfter(input: seq<byte>, capacity: nat, f: Fault): nat {
    if 4 <= Taken(input, f) then Max(capacity, HeaderLength(input)) else capacity
  }

  /** A read during which the first attempts meet `faults`: every retry starts over at a length prefix. */
  function ReadSpec(input: seq<byte>, capacity: nat, faults: seq<Fault>, retries: nat): ReadOutcome
    decreases |faults|
  {
    if faults == [] then CleanRead(input, capacity)
    else
      var f := faults[0];
      var rest, capacity1 := input[Taken(input, f)..], CapacityAfter(input, capacity, f);
      if 0 < retries && f.temporary then ReadSpec(rest, capacity1, faults[1..], retries - 1)
      else ReadOutcome(None, rest, capacity1)
  }

  /** How connecting went. */
  datatype ConnectOutcome = NoDial | HandshakeFailed | Up

  class Connection {
    const sizeBuf: array<byte>
    const tempNetErrorRetries: nat
    var dataBuf: array<byte>  // the backing array; the slice in use is dataBuf[..dataLen]
    var dataLen: nat
    var open: bool
    var active: bool
    var input: seq<byte>      // what the peer has sent and nobody has read

    ghost predicate Valid()
      reads this, sizeBuf, dataBuf
    {
      sizeBuf.Length == 4 && dataLen <= dataBuf.Length && sizeBuf != dataBuf
    }

    predicate Available()
      reads this
    {
      open && active
    }

    function Response(): seq<byte>
      requires dataLen <= dataBuf.Length
      reads this, dataBuf
    {
      dataBuf[..dataLen]
    }

    constructor (retries: nat)
      ensures Valid() && fresh(sizeBuf) && fresh(dataBuf) && dataBuf.Length == 2048
      ensures !open && active && input == [] && tempNetErrorRetries == retries
    {
      sizeBuf := new byte[4];
      dataBuf := new byte[INIT_BUFFER];
      dataLen := INIT_BUFFER;
      tempNetErrorRetries := retries;
      open, active, input := false, true, [];
    }

    /** connect: only a dialed connection whose security handshake succeeds becomes available. */
    method Connect(outcome: ConnectOutcome)
      modifies this`open, this`active
      ensures outcome.Up? ==> Available()
      ensures !outcome.Up? ==> !open && active == (old(active) && !outcome.HandshakeFailed?)
    {
      match outcome {
        case NoDial =>
          open := false;
        case HandshakeFailed =>
          open, active := false, false;
        case Up =>
          open, active := true, true;
      }
    }

    /** io.ReadFull: all of buf[..n], or an error after taking what is left. */
    method ReadFull(buf: array<byte>, n: nat) returns (ok: bool)
      requires n <= buf.Length
      modifies this`input, buf
      ensures ok == (n <= |old(input)|)
      ensures ok ==> buf[..n] == old(input)[..n] && input == old(input)[n..]
      ensures !ok ==> input == []
    {
      if |input| < n {
        input := [];
        return false;
      }
      for i := 0 to n
        invariant input == old(input)
        invariant buf[..i] == input[..i]
      {
        buf[i] := input[i];
      }
      input := input[n..];
      ok := true;
    }

    /** c.dataBuf = make(...) or c.dataBuf[0:len]: contents left from earlier messages are allowed. */
    method FitBuffer(len: nat)
      requires Valid()
      modifies this`dataBuf, this`dataLen
      ensures Valid() && dataLen == len && dataBuf.Length == Max(old(dataBuf).Length, len)
      ensures dataBuf == old(dataBuf) || fresh(dataBuf)
    {
      if len > dataBuf.Length {
        dataBuf := new byte[len];
      }
      dataLen := len;
    }

    method CleanAttempt() returns (ok: bool)
      requires Valid()
      modifies this`input, this`dataBuf, this`dataLen, sizeBuf, dataBuf
      ensures Valid() && (dataBuf == old(dataBuf) || fresh(dataBuf))
      ensures var o := CleanRead(old(input), old(dataBuf.Length));
              && ok == o.frame.Some? && input == o.rest && dataBuf.Length == o.capacity
              && (ok ==> Response() == o.frame.value)
    {
      ok := ReadFull(sizeBuf, 4);
      if ok {
        var messageLength := FromBigEndian(sizeBuf[..]);
        assert sizeBuf[..] == sizeBuf[..4];
        FitBuffer(messageLength);
        ok := ReadFull(dataBuf, messageLength);
        assert ok ==> old(input)[4..][..messageLength] == old(input)[4..4 + messageLength];
      }
    }

    /** The j bytes a failing attempt takes: the header may be among them, and then the buffer grows. */
    method FaultyAttempt(f: Fault)
      requires Valid()
      modifies this`input, this`dataBuf, this`dataLen
      ensures Valid() && (dataBuf == old(dataBuf) || fresh(dataBuf))
      ensures input == old(input)[Taken(old(input), f)..]
      ensures dataBuf.Length == CapacityAfter(old(input), old(dataBuf.Length), f)
    {
      if 4 <= Taken(input, f) {
        FitBuffer(HeaderLength(input));
      }
      input := input[Taken(input, f)..];
    }

    /** read: one message, or an error that makes the connection inactive. */
    method Read(faults: seq<Fault>) returns (ok: bool)
      requires Valid()
      modifies this, sizeBuf, dataBuf
      ensures Valid() && (dataBuf == old(dataBuf) || fresh(dataBuf)) && open == old(open)
      ensures !old(Available()) ==> !ok && input == old(input) && dataBuf == old(dataBuf) && active == old(active)
      ensures old(Available()) ==>
                var o := ReadSpec(old(input), old(dataBuf.Length), faults, tempNetErrorRetries);
                && ok == o.frame.Some? && input == o.rest && dataBuf.Length == o.capacity && active == ok
                && (ok ==> Response() == o.frame.value)
    {
      if !Available() {
        return false;
      }
      var try := 0;
      while try < |faults|
        invariant try <= |faults| && try <= tempNetErrorRetries
        invariant Valid() && (dataBuf == old(dataBuf) || fresh(dataBuf)) && open == old(open) && active
        invariant ReadSpec(old(input), old(dataBuf.Length), faults, tempNetErrorRetries) ==
                  ReadSpec(input, dataBuf.Length, faults[try..], tempNetErrorRetries - try)
      {
        var f := faults[try];
        assert faults[try..][0] == f && faults[try..][1..] == faults[try + 1..];
        FaultyAttempt(f);
        if try < tempNetErrorRetries && f.temporary {
          try := try + 1;
        } else {
          active := false;
          return false;
        }
      }
      ok := CleanAttempt();
      if !ok {
        active := false;
      }
    }
  }

  // ------------------------------------------------------------------------------------------
  // Reading back what was sent
  // ------------------------------------------------------------------------------------------

  datatype Message = Message(code: byte, data: seq<byte>)

  function Body(m: Message): seq<byte> {
    [m.code] + m.data
  }

  /** The bytes of several messages, one after the other. */
  function Wire(ms: seq<Message>): seq<byte> {
    if ms == [] then [] else Frame(ms[0].code, ms[0].data) + Wire(ms[1..])
  }

  predicate Sendable(ms: seq<Message>) {
    forall i :: 0 <= i < |ms| ==> |ms[i].data| + 1 < TWO_32
  }

  /** `n` reads without faults, as long as they succeed: the messages, the rest of the stream, the buffer size. */
  function ReadMany(input: seq<byte>, capacity: nat, n: nat): (seq<seq<byte>>, seq<byte>, nat) {
    if n == 0 then ([], input, capacity)
    else
      var o := CleanRead(input, capacity);
      if o.frame.None? then ([], o.rest, o.capacity)
      else
        var (frames, rest, capacity1) := ReadMany(o.rest, o.capacity, n - 1);
        ([o.frame.value] + frames, rest, capacity1)
  }

  function AllBytes(ms: seq<Message>): (r: seq<seq<byte>>)
    ensures |r| == |ms| && forall i :: 0 <= i < |ms| ==> r[i] == Body(ms[i])
  {
    if ms == [] then [] else [Body(ms[0])] + AllBytes(ms[1..])
  }

  function Largest(ms: seq<Message>): nat {
    if ms == [] then 0 else Max(|ms[0].data| + 1, Largest(ms[1..]))
  }

  lemma FrameReads(m: Message, tail: seq<byte>, capacity: nat)
    requires |m.data| + 1 < TWO_32
    ensures CleanRead(Frame(m.code, m.data) + tail, capacity) ==
            ReadOutcome(Some(Body(m)), tail, Max(capacity, |m.data| + 1))
  {
    var n := |m.data| + 1;
    var input := Frame(m.code, m.data) + tail;
    BigEndianRoundTrip(n);
    assert input[..4] == BigEndian(n);
    assert input[4..4 + n] == Body(m) && input[4 + n..] == tail;
  }

  /** A frame that the stream breaks off in cannot be read. */
  lemma CutFrameRead(m: Message, k: nat, capacity: nat)
    requires |m.data| + 1 < TWO_32 && k < |m.data| + 5
    ensures |Frame(m.code, m.data)| == |m.data| + 5
    ensures var o := CleanRead(Frame(m.code, m.data)[..k], capacity);
            o.frame == None && o.rest == []
  {
    hide FromBigEndian, BigEndian;
    var n := |m.data| + 1;
    BigEndianRoundTrip(n);
    var input := Frame(m.code, m.data)[..k];
    if 4 <= k {
      assert input[..4] == BigEndian(n);
    }
  }

  /**
   Any messages, sent one after the other, come back in order and unchanged; the stream is left just
   behind them, and the buffer has grown to the largest of them.
   */
  lemma {:induction false} MessagesReadBack(ms: seq<Message>, tail: seq<byte>, capacity: nat)
    requires Sendable(ms)
    ensures ReadMany(Wire(ms) + tail, capacity, |ms|) == (AllBytes(ms), tail, Max(capacity, Largest(ms)))
    decreases |ms|
  {
    if ms == [] {
      assert Wire(ms) + tail == tail;
    } else {
      var rest := Wire(ms[1..]) + tail;
      assert Wire(ms) + tail == Frame(ms[0].code, ms[0].data) + rest;
      FrameReads(ms[0], rest, capacity);
      MessagesReadBack(ms[1..], tail, Max(capacity, |ms[0].data| + 1));
      hide CleanRead, Frame, Body;
    }
  }

  /** `n` reads from `input` are those that gave `frames`, followed by `left` reads from `input1`. */
  ghost predicate ReadsOn(input: seq<byte>, capacity: nat, n: nat,
                          frames: seq<seq<byte>>, input1: seq<byte>, capacity1: nat, left: nat) {
    var more := ReadMany(input1, capacity1, left);
    ReadMany(input, capacity, n) == (frames + more.0, more.1, more.2)
  }

  lemma ReadsOnStep(input: seq<byte>, capacity: nat, n: nat,
                    frames: seq<seq<byte>>, input1: seq<byte>, capacity1: nat, left: nat)
    requires 0 < left && ReadsOn(input, capacity, n, frames, input1, capacity1, left)
    ensures var o := CleanRead(input1, capacity1);
            if o.frame.None? then ReadMany(input, capacity, n) == (frames, o.rest, o.capacity)
            else ReadsOn(input, capacity, n, frames + [o.frame.value], o.rest, o.capacity, left - 1)
  {
    hide CleanRead;
    var o := CleanRead(input1, capacity1);
    if o.frame.Some? {
      var more := ReadMany(o.rest, o.capacity, left - 1).0;
      assert frames + ([o.frame.value] + more) == frames + [o.frame.value] + more;
    } else {
      assert frames + [] == frames;
    }
  }

  /** Up to `n` reads on a live connection, into its reused buffer, as far as they succeed. */
  method ReadMessages(conn: Connection, n: nat) returns (frames: seq<seq<byte>>)
    requires conn.Valid() && conn.Available()
    modifies conn, conn.sizeBuf, conn.dataBuf
    ensures conn.Valid() && (conn.dataBuf == old(conn.dataBuf) || fresh(conn.dataBuf))
    ensures (frames, conn.input, conn.dataBuf.Length) == ReadMany(old(conn.input), old(conn.dataBuf.Length), n)
    ensures conn.Available() <==> |frames| == n
  {
    hide CleanRead, ReadsOn, ReadMany;
    frames := [];
    ghost var input, capacity := conn.input, conn.dataBuf.Length;
    var left: nat := n;
    ReadsOnStart(input, capacity, n);
    while left > 0
      invariant left + |frames| == n && conn.Valid() && conn.Available()
      invariant conn.dataBuf == old(conn.dataBuf) || fresh(conn.dataBuf)
      invariant ReadsOn(input, capacity, n, frames, conn.input, conn.dataBuf.Length, left)
    {
      ReadsOnStep(input, capacity, n, frames, conn.input, conn.dataBuf.Length, left);
      var ok := conn.Read([]);
      if !ok {
        return;
      }
      frames := frames + [conn.Response()];
      left := left - 1;
    }
    ReadsOnEnd(input, capacity, n, frames, conn.input, conn.dataBuf.Length);
  }

  lemma ReadsOnStart(input: seq<byte>, capacity: nat, n: nat)
    ensures ReadsOn(input, capacity, n, [], input, capacity, n)
  {
    var more := ReadMany(input, capacity, n).0;
    assert [] + more == more;
  }

  lemma ReadsOnEnd(input: seq<byte>, capacity: nat, n: nat,
                   frames: seq<seq<byte>>, input1: seq<byte>, capacity1: nat)
    requires ReadsOn(input, capacity, n, frames, input1, capacity1, 0)
    ensures ReadMany(input, capacity, n) == (frames, input1, capacity1)
  {
    assert frames + [] == frames;
  }

  /** Messages sent to a live connection are what it reads, whatever its buffer held. */
  method ReceiveMessages(conn: Connection, n: nat, ghost ms: seq<Message>, ghost tail: seq<byte>)
    returns (frames: seq<seq<byte>>)
    requires conn.Valid() && conn.Available()
    requires |ms| == n && Sendable(ms) && conn.input == Wire(ms) + tail
    modifies conn, conn.sizeBuf, conn.dataBuf
    ensures conn.Valid() && conn.Available()
    ensures frames == AllBytes(ms) && conn.input == tail
    ensures conn.dataBuf.Length == Max(old(conn.dataBuf.Length), Largest(ms))
  {
    hide Wire, ReadMany, Largest;
    MessagesReadBack(ms, tail, conn.dataBuf.Length);
    frames := ReadMessages(conn, n);
  }

  // ------------------------------------------------------------------------------------------
  // Retries
  // ------------------------------------------------------------------------------------------

  function TotalTaken(input: seq<byte>, faults: seq<Fault>): (n: nat)
    ensures n <= |input|
    decreases |faults|
  {
    if faults == [] then 0
    else var t := Taken(input, faults[0]); t + TotalTaken(input[t..], faults[1..])
  }

  /** A read that survives temporary errors returns what a clean read would find after the bytes they swallowed. */
  lemma {:induction false} RetryReadsBehindTheLoss(input: seq<byte>, capacity: nat, faults: seq<Fault>, retries: nat)
    requires Survivable(faults, retries)
    ensures var t := TotalTaken(input, faults);
            var o := ReadSpec(input, capacity, faults, retries);
            && o.frame == CleanRead(input[t..], capacity).frame && o.rest == CleanRead(input[t..], capacity).rest
            && (t == 0 ==> o == CleanRead(input, capacity))
    decreases |faults|
  {
    if faults == [] {
      assert input[0..] == input;
    } else {
      var k := Taken(input, faults[0]);
      RetryReadsBehindTheLoss(input[k..], CapacityAfter(input, capacity, faults[0]), faults[1..], retries - 1);
      assert input[k..][TotalTaken(input[k..], faults[1..])..] == input[TotalTaken(input, faults)..];
      assert k == 0 ==> input[k..] == input;
    }
  }

  predicate Survivable(faults: seq<Fault>, retries: nat) {
    |faults| <= retries && forall i :: 0 <= i < |faults| ==> faults[i].temporary
  }

  /** Too many errors, or a permanent one, and there is no message. */
  lemma {:induction false} NoFrameOtherwise(input: seq<byte>, capacity: nat, faults: seq<Fault>, retries: nat)
    requires !Survivable(faults, retries)
    ensures ReadSpec(input, capacity, faults, retries).frame == None
    decreases |faults|
  {
    var f := faults[0];
    if 0 < retries && f.temporary {
      assert faults == [f] + faults[1..];
      NoFrameOtherwise(input[Taken(input, f)..], CapacityAfter(input, capacity, f), faults[1..], retries - 1);
    }
  }

  /** A message read makes the stream shorter by its prefix and its length. */
  lemma CleanReadLength(input: seq<byte>, capacity: nat)
    ensures var o := CleanRead(input, capacity);
            o.frame.Some? ==> |input| == 4 + |o.frame.value| + |o.rest|
  {
  }

  /**
   Where a message is there to be read, a read that meets network errors has the outcome of one that
   meets none iff all errors are temporary, there are no more of them than retries, and none of them has
   cost a byte.
   */
  lemma RetryIsHarmlessIff(input: seq<byte>, capacity: nat, faults: seq<Fault>, retries: nat)
    requires CleanRead(input, capacity).frame.Some?
    ensures ReadSpec(input, capacity, faults, retries) == CleanRead(input, capacity) <==>
            Survivable(faults, retries) && TotalTaken(input, faults) == 0
  {
    hide CleanRead, ReadSpec;
    if !Survivable(faults, retries) {
      NoFrameOtherwise(input, capacity, faults, retries);
    } else {
      RetryReadsBehindTheLoss(input, capacity, faults, retries);
      CleanReadLength(input, capacity);
      CleanReadLength(input[TotalTaken(input, faults)..], capacity);
    }
  }

  /** Attempts that fail after the length prefix leave the buffer grown to that length, and none shrinks it. */
  lemma {:induction false} BufferAfterRetries(input: seq<byte>, capacity: nat, faults: seq<Fault>, retries: nat)
    ensures var o := ReadSpec(input, capacity, faults, retries);
            && capacity <= o.capacity
            && (faults != [] && 4 <= faults[0].consumed && 4 <= |input| ==> FromBigEndian(input[..4]) <= o.capacity)
    decreases |faults|
  {
    hide FromBigEndian;
    if faults != [] && 0 < retries && faults[0].temporary {
      var f := faults[0];
      BufferAfterRetries(input[Taken(input, f)..], CapacityAfter(input, capacity, f), faults[1..], retries - 1);
    }
  }

  /** Losing bytes is not harmless: after an error behind the length prefix, a retry takes the payload for a length. */
  lemma RetryCanLoseAlignment()
    ensures var input := Frame(9, [1, 7]) + Frame(0, []);
            && CleanRead(input, INIT_BUFFER).frame == Some([9, 1, 7])
            && ReadSpec(input, INIT_BUFFER, [Fault(4, true)], 1).frame != Some([9, 1, 7])
  {
    var input := Frame(9, [1, 7]) + Frame(0, []);
    assert input == [0, 0, 0, 3, 9, 1, 7, 0, 0, 0, 1, 0];
    assert input[..4] == [0, 0, 0, 3] && input[4..7] == [9, 1, 7];
    var rest := input[4..];
    assert rest[..4] == [9, 1, 7, 0];
    assert ReadSpec(input, INIT_BUFFER, [Fault(4, true)], 1) == ReadSpec(rest, INIT_BUFFER, [], 0);
  }
}
