/** Framing of peer messages over a byte stream that arrives in arbitrary pieces. */
module ReadBuf {
  import opened Lengths
  import opened FlatStorage

  // ---- frames: section "peer messages" of BEP 3 ----

  /** A keep-alive, or a message id with its payload. */
  datatype Message = KeepAlive | Message(id: byte, payload: seq<byte>)

  datatype Parse = Parsed(msg: Message, size: nat) | NotEnough(need: nat) | Invalid

  /** Ids of BEP 3, and 20 for extended messages (BEP 10). */
  predicate Known(id: byte) { id <= 8 || id == 20 }

  function BE32(s: seq<byte>): nat
    requires |s| >= 4
  {
    s[0] as int * 0x100_0000 + s[1] as int * 0x1_0000 + s[2] as int * 0x100 + s[3] as int
  }

  /** Four bytes of length, then that many bytes of which the first is the id. */
  function Deserialize(s: seq<byte>): (r: Parse)
    ensures r.Parsed? ==> 4 <= r.size <= |s|
    ensures r.NotEnough? ==> r.need > 0
  {
    if |s| < 4 then NotEnough(4 - |s|)
    else
      var n := BE32(s);
      if n == 0 then Parsed(KeepAlive, 4)
      else if |s| < 5 then NotEnough(1)
      else if !Known(s[4]) then Invalid
      else if |s| < 4 + n then NotEnough(4 + n - |s|)
      else Parsed(Message(s[4], s[5..4 + n]), 4 + n)
  }

  /** A frame, byte by byte: four bytes of length, most significant first, then the id, which is one of
      the ten known ones, and the payload. */
  lemma FrameLayout(a: byte, b: byte, c: byte, d: byte, id: byte, payload: seq<byte>)
    requires |payload| + 1 == a as int * 16777216 + b as int * 65536 + c as int * 256 + d as int
    ensures id in {0, 1, 2, 3, 4, 5, 6, 7, 8, 20} ==>
              Deserialize([a, b, c, d, id] + payload) == Parsed(Message(id, payload), |payload| + 5)
    ensures id !in {0, 1, 2, 3, 4, 5, 6, 7, 8, 20} ==> Deserialize([a, b, c, d, id] + payload) == Invalid
    ensures Deserialize([0, 0, 0, 0]) == Parsed(KeepAlive, 4)
  {
    var s := [a, b, c, d, id] + payload;
    assert BE32(s) == |payload| + 1;
    assert s[5..] == payload && s[5..4 + (|payload| + 1)] == payload;
  }

  /** Until the last byte is there, what is missing is asked for: the rest of the length, the id, or the
      rest of the message. */
  lemma FrameTooShort(s: seq<byte>, n: nat)
    requires n < |s| && Deserialize(s).Parsed? && Deserialize(s).size == |s|
    ensures Deserialize(s[..n]) == NotEnough(if n < 4 then 4 - n else if n == 4 then 1 else |s| - n)
  {
    if n >= 4 { assert BE32(s[..n]) == BE32(s); }
  }

  /** More bytes never change an answer already given. */
  lemma MoreBytesSameAnswer(s: seq<byte>, t: seq<byte>)
    requires !Deserialize(s).NotEnough?
    ensures Deserialize(s + t) == Deserialize(s)
    ensures Deserialize(s).Parsed? ==> (s + t)[Deserialize(s).size..] == s[Deserialize(s).size..] + t
  {
    assert BE32(s + t) == BE32(s);
    if Deserialize(s).Parsed? && BE32(s) > 0 {
      assert (s + t)[5..4 + BE32(s)] == s[5..4 + BE32(s)];
    }
  }

  // ---- the connection and the buffer ----

  /** A connection with `pending` still to be delivered before the peer closes it. */
  class Conn {
    var pending: seq<byte>

    /** Any non-empty front of what is pending, at most `max` bytes; nothing once it is closed. */
    method Read(max: nat) returns (block: seq<byte>)
      requires max > 0
      modifies this
      ensures |block| <= max && old(pending) == block + pending
      ensures block == [] <==> old(pending) == []
    {
      if pending == [] {
        return [];
      }
      var most := Min(max, |pending|);
      var n: nat :| 0 < n <= most;
      block := pending[..n];
      pending := pending[n..];
    }
  }

  const PIECE_MESSAGE_DEFAULT_LEN: nat := CHUNK_SIZE + 13

  datatype ReadResult = Got(msg: Message) | Malformed | Disconnected

  class ReadBuf {
    var buf: seq<byte>
    var filled: nat      // bytes read from the connection
    var processed: nat   // bytes deserialized

    ghost predicate Valid()
      reads this
    {
      processed <= filled <= |buf|
    }

    ghost function Unread(): seq<byte>
      requires Valid()
      reads this
    {
      buf[processed..filled]
    }

    constructor ()
      ensures Valid() && Unread() == [] && filled == 0 && |buf| == PIECE_MESSAGE_DEFAULT_LEN * 2
    {
      buf := seq(PIECE_MESSAGE_DEFAULT_LEN * 2, _ => 0);
      filled, processed := 0, 0;
    }

    /** Moves the unread bytes to the front and makes room for `need` more. */
    method PrepareForRead(need: nat)
      requires Valid()
      modifies this
      ensures Valid() && Unread() == old(Unread())
      ensures processed == 0 && |buf| >= filled + need
    {
      if processed > 0 {
        if filled > processed {
          buf := buf[processed..filled] + buf[filled - processed..];
        }
        filled := filled - processed;
        processed := 0;
      }
      if |buf| < filled + need {
        var capacity: nat :| capacity >= |buf| + need;
        buf := buf + seq(capacity - |buf|, _ => 0);
      }
    }

    /** The result is a function of the unread bytes followed by everything still pending,
        however the connection splits it; and exactly the message's bytes are consumed. */
    method ReadMessage(conn: Conn) returns (r: ReadResult)
      requires Valid()
      modifies this, conn
      ensures Valid()
      ensures var stream := old(Unread()) + old(conn.pending);
              match Deserialize(stream)
              case Parsed(msg, size) => r == Got(msg) && Unread() + conn.pending == stream[size..]
              case Invalid => r == Malformed && Unread() + conn.pending == stream
              case NotEnough(_) => r == Disconnected && Unread() == stream && conn.pending == []
    {
      ghost var stream := Unread() + conn.pending;
      while true
        invariant Valid() && Unread() + conn.pending == stream
        decreases |conn.pending|
      {
        var view := buf[processed..filled];
        match Deserialize(view) {
          case Parsed(msg, size) =>
            MoreBytesSameAnswer(view, conn.pending);
            processed := processed + size;
            assert Unread() == view[size..];
            return Got(msg);
          case Invalid =>
            MoreBytesSameAnswer(view, conn.pending);
            return Malformed;
          case NotEnough(need) =>
            var more := ReadMore(conn, need);
            if !more {
              assert stream == view;
              return Disconnected;
            }
        }
      }
    }

    /** One read into the free room, of which there is some; false once the connection is closed. */
    method ReadMore(conn: Conn, need: nat) returns (more: bool)
      requires Valid() && need > 0
      modifies this, conn
      ensures Valid() && Unread() + conn.pending == old(Unread() + conn.pending)
      ensures more ==> |conn.pending| < |old(conn.pending)|
      ensures !more ==> conn.pending == old(conn.pending) == [] && Unread() == old(Unread())
    {
      PrepareForRead(need);
      ghost var unread := Unread();
      var block := conn.Read(|buf| - filled);
      if block == [] {
        return false;
      }
      assert buf[..filled] == unread;
      buf := buf[..filled] + block + buf[filled + |block|..];
      filled := filled + |block|;
      assert Unread() == unread + block;
      return true;
    }

    /** The reader task: messages until the connection ends or a frame is malformed. */
    method ReadMessages(conn: Conn) returns (msgs: seq<Message>, last: ReadResult)
      requires Valid()
      modifies this, conn
      ensures Valid()
      ensures (msgs, last) == Decode(old(Unread()) + old(conn.pending))
    {
      msgs := [];
      ghost var stream := Unread() + conn.pending;
      while true
        invariant Valid()
        invariant Decode(stream).0 == msgs + Decode(Unread() + conn.pending).0
        invariant Decode(stream).1 == Decode(Unread() + conn.pending).1
        decreases |Unread() + conn.pending|
      {
        ghost var rest := Unread() + conn.pending;
        var r := ReadMessage(conn);
        if !r.Got? {
          assert Decode(rest).0 == [] && Decode(stream).0 == msgs;
          return msgs, r;
        }
        assert Decode(rest).0 == [r.msg] + Decode(Unread() + conn.pending).0;
        msgs := msgs + [r.msg];
      }
    }

    /** The handshake must arrive whole in the first read: that read's `got` bytes decide. */
    method ReadHandshake(conn: Conn) returns (ok: bool, ghost got: nat)
      requires Valid() && filled == 0 && |buf| > 0
      modifies this, conn
      ensures Valid() && got <= |old(conn.pending)| && (got == 0 <==> old(conn.pending) == [])
      ensures conn.pending == old(conn.pending)[got..]
      ensures ok <==> got >= HANDSHAKE_LEN && IsHandshake(old(conn.pending))
      ensures ok ==> Unread() + conn.pending == old(conn.pending)[HANDSHAKE_LEN..]
    {
      ghost var stream := conn.pending;
      var block := conn.Read(|buf|);
      got := |block|;
      assert stream[..got] == block && stream[got..] == conn.pending;
      buf := block + buf[|block|..];
      filled := |block|;
      if filled == 0 || !IsHandshake(buf[..filled]) {
        return false, got;
      }
      assert forall k :: 0 <= k < HANDSHAKE_LEN ==> buf[..filled][k] == stream[k];
      processed := HANDSHAKE_LEN;
      return true, got;
    }
  }

  const HANDSHAKE_LEN: nat := 68

  const PROTOCOL: string := "BitTorrent protocol"

  /** Starts with the protocol name, prefixed by its length, and is long enough. */
  predicate IsHandshake(s: seq<byte>) {
    |s| >= HANDSHAKE_LEN && s[0] == 19 && forall k :: 0 <= k < |PROTOCOL| ==> s[1 + k] as int == PROTOCOL[k] as int
  }

  /** A handshake is the byte 19, the nineteen characters of the protocol's name and forty-eight bytes
      more, whatever follows. */
  lemma HandshakeLayout(name: seq<byte>, rest: seq<byte>)
    requires |name| == 19 && |rest| >= 48
    ensures IsHandshake([19] + name + rest) <==> forall k :: 0 <= k < 19 ==> name[k] as int == "BitTorrent protocol"[k] as int
    ensures !IsHandshake([19] + name + rest[..47])
  {
    var s := [19] + name + rest;
    assert forall k :: 0 <= k < 19 ==> s[1 + k] == name[k];
    if !IsHandshake(s) {
      var k :| 0 <= k < |PROTOCOL| && s[1 + k] as int != PROTOCOL[k] as int;
      assert name[k] == s[1 + k];
    }
  }

  // ---- a whole stream ----

  /** All messages of a stream, and how it ends. */
  function Decode(s: seq<byte>): (r: (seq<Message>, ReadResult))
    ensures !r.1.Got?
    decreases |s|
  {
    match Deserialize(s)
    case Parsed(msg, size) => var rest := Decode(s[size..]); ([msg] + rest.0, rest.1)
    case Invalid => ([], Malformed)
    case NotEnough(_) => ([], Disconnected)
  }

  function Encode32(n: nat): (s: seq<byte>)
    requires n < 0x1_0000_0000
    ensures |s| == 4 && BE32(s) == n
  {
    var n1 := n / 0x100;
    var n2 := n1 / 0x100;
    var n3 := n2 / 0x100;
    [n3 as byte, (n2 % 0x100) as byte, (n1 % 0x100) as byte, (n % 0x100) as byte]
  }

  predicate Sendable(m: Message) { m.Message? ==> Known(m.id) && |m.payload| + 1 < 0x1_0000_0000 }

  function Serialize(m: Message): seq<byte>
    requires Sendable(m)
  {
    match m
    case KeepAlive => Encode32(0)
    case Message(id, payload) => Encode32(|payload| + 1) + [id] + payload
  }

  function SerializeAll(ms: seq<Message>): seq<byte>
    requires forall k :: 0 <= k < |ms| ==> Sendable(ms[k])
  {
    if ms == [] then [] else Serialize(ms[0]) + SerializeAll(ms[1..])
  }

  lemma FrameRoundTrip(m: Message, rest: seq<byte>)
    requires Sendable(m)
    ensures Deserialize(Serialize(m) + rest) == Parsed(m, |Serialize(m)|)
  {
    var s := Serialize(m) + rest;
    match m {
      case KeepAlive =>
        assert BE32(s) == BE32(Encode32(0));
      case Message(id, payload) =>
        var head := Encode32(|payload| + 1);
        assert s[..4] == head && s[4] == id;
        assert BE32(s) == BE32(head);
        assert s[5..4 + |payload| + 1] == payload;
    }
  }

  lemma DecodeFrame(m: Message, rest: seq<byte>)
    requires Sendable(m)
    ensures Decode(Serialize(m) + rest) == ([m] + Decode(rest).0, Decode(rest).1)
  {
    FrameRoundTrip(m, rest);
    assert (Serialize(m) + rest)[|Serialize(m)|..] == rest;
  }

  /** What was sent is what is received: with `ReadMessages`, for every way of splitting. */
  lemma {:induction false} StreamRoundTrip(ms: seq<Message>)
    requires forall k :: 0 <= k < |ms| ==> Sendable(ms[k])
    ensures Decode(SerializeAll(ms)) == (ms, Disconnected)
  {
    if ms != [] {
      DecodeFrame(ms[0], SerializeAll(ms[1..]));
      StreamRoundTrip(ms[1..]);
      assert ms == [ms[0]] + ms[1..];
    }
  }
}
