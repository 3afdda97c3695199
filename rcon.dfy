/** The Source RCON protocol of minecraft/server/rconite.py: the message
    codec, the length-prefixed framing over a stream socket, and the request
    id bookkeeping of the client. */
module Rcon {
  import opened Common

  type Byte = b: int | 0 <= b < 256
  type Bytes = seq<Byte>
  type Pos = n: nat | n >= 1 witness 1

  const SERVERDATA_AUTH: int := 3
  const SERVERDATA_EXECCOMMAND: int := 2
  const SERVERDATA_RESPONSE_VALUE: int := 0
  const SERVERDATA_AUTH_RESPONSE: int := 2

  datatype Message = Message(requestId: int, messageType: int, s1: Bytes, s2: Bytes)

  /** ValueError("data must not contain zero bytes"), struct.error from
      packing an out-of-range integer, ValueError("incomplete message") and
      ValueError("trailing garbage in message"). */
  datatype CodecError = ZeroByte | StructError | Incomplete | TrailingGarbage

  datatype RconError =
    | Codec(codec: CodecError)
    | Eof(got: nat, wanted: int)
    | AuthenticationError
    | UnexpectedMessage(s1: Bytes)

  // ---------------------------------------------------------------------
  // Little-endian signed 32-bit integers (struct format '<i')

  predicate IsInt32(v: int) { -0x8000_0000 <= v < 0x8000_0000 }

  /** The unsigned 32-bit pattern of a signed value. */
  function ToUnsigned(v: int): (u: nat)
    requires IsInt32(v)
    ensures u < 0x1_0000_0000
  {
    if v < 0 then v + 0x1_0000_0000 else v
  }

  function PackInt32(v: int): (r: Bytes)
    requires IsInt32(v)
    ensures |r| == 4
  {
    var u0: int := ToUnsigned(v);
    var u1 := u0 / 256;
    var u2 := u1 / 256;
    [u0 % 256, u1 % 256, u2 % 256, u2 / 256]
  }

  function UnpackInt32(b: Bytes): (v: int)
    requires |b| == 4
    ensures IsInt32(v)
  {
    var u := b[0] as int + 256 * (b[1] as int + 256 * (b[2] as int + 256 * (b[3] as int)));
    if u >= 0x8000_0000 then u - 0x1_0000_0000 else u
  }

  lemma DivMod256(lo: int, hi: int)
    requires 0 <= lo < 256
    ensures (lo + 256 * hi) % 256 == lo && (lo + 256 * hi) / 256 == hi
  {
  }

  lemma UnpackPack(v: int)
    requires IsInt32(v)
    ensures UnpackInt32(PackInt32(v)) == v
  {
    var u0: int := ToUnsigned(v);
    var u1 := u0 / 256;
    var u2 := u1 / 256;
    assert u0 == u0 % 256 + 256 * u1;
    assert u1 == u1 % 256 + 256 * u2;
    assert u2 == u2 % 256 + 256 * (u2 / 256);
  }

  lemma PackUnpack(b: Bytes)
    requires |b| == 4
    ensures PackInt32(UnpackInt32(b)) == b
  {
    var u2 := b[2] as int + 256 * (b[3] as int);
    var u1 := b[1] as int + 256 * u2;
    var u0 := b[0] as int + 256 * u1;
    assert ToUnsigned(UnpackInt32(b)) == u0;
    DivMod256(b[0], u1);
    DivMod256(b[1], u2);
    DivMod256(b[2], b[3]);
  }

  // ---------------------------------------------------------------------
  // The message codec (rconite.py:53-122)

  /** How many zero bytes `s` holds. */
  function Zeros(s: Bytes): nat { multiset(s)[0] }

  /** `s.partition(b'\0')` when the separator occurs: what precedes the first
      zero byte and what follows it. */
  function Partition(s: Bytes): (r: Option<(Bytes, Bytes)>)
    ensures r.None? <==> 0 !in s
    ensures r.Some? ==> 0 !in r.value.0 && s == r.value.0 + [0] + r.value.1
  {
    if 0 in s then
      var k := Find(s, 0);
      assert s == s[..k] + [0] + s[k + 1..];
      Some((s[..k], s[k + 1..]))
    else None
  }

  lemma PartitionOf(h: Bytes, t: Bytes)
    requires 0 !in h
    ensures Partition(h + [0] + t) == Some((h, t))
  {
    var s := h + [0] + t;
    assert s[|h|] == 0 && s[..|h|] == h && s[|h| + 1..] == t;
    var k := Find(s, 0);
    assert forall i :: 0 <= i < |h| ==> s[i] == h[i];
    assert k <= |h| ==> s[..k] == h[..k];
  }

  lemma PartitionZeros(s: Bytes)
    requires 0 in s
    ensures Zeros(s) == 1 + Zeros(Partition(s).value.1)
  {
    var (h, t) := Partition(s).value;
    assert multiset(s) == multiset(h) + multiset([0 as Byte]) + multiset(t);
    assert multiset(h)[0] == 0;
  }

  /** `encode(request_id, message_type, s1, s2)`: the two integers, then s1
      and s2 each followed by a zero byte. */
  function Encode(m: Message): (r: Result<Bytes, CodecError>)
    ensures r == Err(ZeroByte) <==> 0 in m.s1 || 0 in m.s2
    ensures r == Err(StructError) <==>
      0 !in m.s1 && 0 !in m.s2 && !(IsInt32(m.requestId) && IsInt32(m.messageType))
    ensures r.Ok? ==> |r.value| == 8 + |m.s1| + |m.s2| + 2
    ensures r.Ok? ==>
      (r.value[..4] == PackInt32(m.requestId)
       && r.value[4..8] == PackInt32(m.messageType)
       && r.value[8..] == m.s1 + [0] + m.s2 + [0])
  {
    if 0 in m.s1 || 0 in m.s2 then Err(ZeroByte)
    else if !(IsInt32(m.requestId) && IsInt32(m.messageType)) then Err(StructError)
    else
      var r := PackInt32(m.requestId) + PackInt32(m.messageType) + (m.s1 + [0] + m.s2 + [0]);
      assert r[..4] == PackInt32(m.requestId);
      assert r[4..8] == PackInt32(m.messageType);
      Ok(r)
  }

  /** `decode(message)`: an accepted message is the two integers, then s1
      and s2 each ended by its only zero byte. */
  function Decode(b: Bytes): (r: Result<Message, CodecError>)
    ensures r.Ok? ==>
      (|b| >= 8 && 0 !in r.value.s1 && 0 !in r.value.s2
       && b[8..] == r.value.s1 + [0] + r.value.s2 + [0]
       && r.value.requestId == UnpackInt32(b[..4]) && r.value.messageType == UnpackInt32(b[4..8]))
  {
    if |b| < 8 then Err(Incomplete)
    else match Partition(b[8..])
      case None => Err(Incomplete)
      case Some((s1, rest)) =>
        match Partition(rest)
        case None => Err(Incomplete)
        case Some((s2, tail)) =>
          if tail != [] then Err(TrailingGarbage)
          else Ok(Message(UnpackInt32(b[..4]), UnpackInt32(b[4..8]), s1, s2))
  }

  /** A message whose strings hold no zero byte survives the round trip
      through the codec (rconite.py:104-107). */
  lemma DecodeEncode(m: Message)
    requires Encode(m).Ok?
    ensures Decode(Encode(m).value) == Ok(m)
  {
    var b := Encode(m).value;
    PartitionOf(m.s1, m.s2 + [0]);
    assert b[8..] == m.s1 + [0] + (m.s2 + [0]);
    PartitionOf(m.s2, []);
    assert m.s2 + [0] == m.s2 + [0] + [];
    UnpackPack(m.requestId);
    UnpackPack(m.messageType);
  }

  /** Every well-formed message is the encoding of what it decodes to
      (rconite.py:68-71): decode and encode are inverse both ways. */
  lemma EncodeDecode(b: Bytes)
    requires Decode(b).Ok?
    ensures Encode(Decode(b).value) == Ok(b)
  {
    DecodedParts(b);
  }

  /** An accepted message is the packed integers it decodes to, then its
      two strings, each ended by a zero byte. */
  lemma DecodedParts(b: Bytes)
    requires Decode(b).Ok?
    ensures var m := Decode(b).value;
      0 !in m.s1 && 0 !in m.s2 && IsInt32(m.requestId) && IsInt32(m.messageType) &&
      b == PackInt32(m.requestId) + PackInt32(m.messageType) + (m.s1 + [0] + m.s2 + [0])
  {
    var m := Decode(b).value;
    PackUnpack(b[..4]);
    PackUnpack(b[4..8]);
    Reassemble(b, PackInt32(m.requestId), PackInt32(m.messageType));
  }

  lemma Reassemble(b: Bytes, head: Bytes, next: Bytes)
    requires |b| >= 8 && b[..4] == head && b[4..8] == next
    ensures b == head + next + b[8..]
  {
    assert b == b[..4] + b[4..8] + b[8..];
  }

  /** What decode rejects, and why: too short or fewer than two terminators
      is an incomplete message, bytes after the second terminator are
      trailing garbage (rconite.py:110-122). */
  lemma DecodeOutcome(b: Bytes)
    ensures Decode(b) == Err(Incomplete) <==> |b| < 8 || Zeros(b[8..]) < 2
    ensures Decode(b).Ok? <==> |b| >= 8 && Zeros(b[8..]) == 2 && b[|b| - 1] == 0
    ensures Decode(b) == Err(TrailingGarbage) <==>
      |b| >= 8 && Zeros(b[8..]) >= 2 && !(Zeros(b[8..]) == 2 && b[|b| - 1] == 0)
  {
    if |b| >= 8 {
      var body := b[8..];
      if 0 in body {
        assert b[|b| - 1] == body[|body| - 1];
        PartitionZeros(body);
        var (s1, rest) := Partition(body).value;
        if 0 in rest {
          PartitionZeros(rest);
          var (s2, tail) := Partition(rest).value;
          if tail == [] {
            assert body[|body| - 1] == rest[|rest| - 1] == 0;
          } else {
            assert body[|body| - 1] == tail[|tail| - 1];
            if Zeros(tail) == 0 {
              assert tail[|tail| - 1] in multiset(tail);
            }
          }
        } else {
          assert multiset(rest)[0] == 0;
        }
      } else {
        assert multiset(body)[0] == 0;
      }
    }
  }

  // ---------------------------------------------------------------------
  // The transport (rconite.py:124-173)

  /** A connected stream socket. `wire` holds every byte sent so far,
      `inbox` the bytes the peer has sent that are not read yet. One send or
      recv moves at most `chunk` bytes; callers rely only on the contracts,
      which allow any positive amount. */
  class Socket {
    var wire: Bytes
    var inbox: Bytes
    const chunk: Pos

    constructor (incoming: Bytes, chunk: Pos)
      ensures wire == [] && inbox == incoming
    {
      wire := [];
      inbox := incoming;
      this.chunk := chunk;
    }

    /** `socket.send(data)`: writes a non-empty prefix of `data` and says how long. */
    method Send(data: Bytes) returns (n: nat)
      requires data != []
      modifies this
      ensures 1 <= n <= |data|
      ensures wire == old(wire) + data[..n] && inbox == old(inbox)
    {
      n := if |data| < chunk then |data| else chunk;
      wire := wire + data[..n];
    }

    /** `socket.recv(max)`: up to `max` bytes, empty only at end of stream. */
    method Recv(max: Pos) returns (data: Bytes)
      modifies this
      ensures |data| <= max && |data| <= |old(inbox)| && data == old(inbox)[..|data|]
      ensures inbox == old(inbox)[|data|..] && wire == old(wire)
      ensures data == [] <==> old(inbox) == []
    {
      var n := if |inbox| < max then |inbox| else max;
      n := if n < chunk then n else chunk;
      data := inbox[..n];
      inbox := inbox[n..];
    }
  }

  /** The length-prefixed frame that write_frame puts on the wire. */
  function Frame(frame: Bytes): (r: Bytes)
    requires IsInt32(|frame|)
  {
    PackInt32(|frame|) + frame
  }

  /** Reading a frame's header gives back its length, and the rest is the
      frame itself. */
  lemma FrameHeader(frame: Bytes)
    requires IsInt32(|frame|)
    ensures |Frame(frame)| == 4 + |frame|
    ensures UnpackInt32(Frame(frame)[..4]) == |frame| && Frame(frame)[4..] == frame
  {
    assert Frame(frame)[..4] == PackInt32(|frame|);
    UnpackPack(|frame|);
  }

  class RconChannel {
    const socket: Socket

    constructor (socket: Socket)
      ensures this.socket == socket
    {
      this.socket := socket;
    }

    /** `write_frame`: the 4-byte little-endian length of the frame, then the
        frame; struct.error when the length does not fit. */
    method WriteFrame(frame: Bytes) returns (r: Result<(), CodecError>)
      modifies socket
      ensures r.Err? <==> !IsInt32(|frame|)
      ensures r.Err? ==> r.error == StructError
      ensures r.Ok? ==> socket.wire == old(socket.wire) + Frame(frame)
      ensures r.Err? ==> socket.wire == old(socket.wire)
      ensures socket.inbox == old(socket.inbox)
    {
      if !IsInt32(|frame|) {
        return Err(StructError);
      }
      WriteFully(PackInt32(|frame|) + frame);
      r := Ok(());
    }

    /** `_write_fully`: sends until the whole buffer is on the wire. */
    method WriteFully(buffer: Bytes)
      modifies socket
      ensures socket.wire == old(socket.wire) + buffer && socket.inbox == old(socket.inbox)
    {
      var sent := 0;
      while sent < |buffer|
        invariant 0 <= sent <= |buffer|
        invariant socket.wire == old(socket.wire) + buffer[..sent]
        invariant socket.inbox == old(socket.inbox)
        decreases |buffer| - sent
      {
        var n := socket.Send(buffer[sent..]);
        assert buffer[..sent] + buffer[sent..][..n] == buffer[..sent + n];
        sent := sent + n;
      }
      assert buffer[..sent] == buffer;
    }

    /** `_read_fully(length)`: exactly `length` bytes (none when length is not
        positive), or EOFError when the stream ends first. */
    method ReadFully(length: int) returns (r: Result<Bytes, RconError>)
      modifies socket
      ensures r.Ok? <==> |old(socket.inbox)| >= length
      ensures r.Ok? ==> var n := if length < 0 then 0 else length;
        r.value == old(socket.inbox)[..n] && socket.inbox == old(socket.inbox)[n..]
      ensures r.Err? ==> r.error.Eof? && socket.inbox == []
      ensures socket.wire == old(socket.wire)
    {
      var read: Bytes := [];
      while |read| < length
        invariant |read| <= |old(socket.inbox)|
        invariant read == old(socket.inbox)[..|read|]
        invariant socket.inbox == old(socket.inbox)[|read|..]
        invariant length >= 0 ==> |read| <= length
        invariant length < 0 ==> read == []
        invariant socket.wire == old(socket.wire)
        decreases length - |read|
      {
        var data := socket.Recv(length - |read|);
        if data == [] {
          return Err(Eof(|read|, length));
        }
        assert old(socket.inbox)[..|read|] + old(socket.inbox)[|read|..][..|data|]
            == old(socket.inbox)[..|read| + |data|];
        read := read + data;
      }
      r := Ok(read);
    }

    /** `read_frame`: a 4-byte length, then that many bytes (none when the
        length is not positive). */
    method ReadFrame() returns (r: Result<Bytes, RconError>)
      modifies socket
      ensures r.Ok? <==> FrameReady(old(socket.inbox))
      ensures r.Ok? ==> r.value == NextFrame(old(socket.inbox))
      ensures r.Ok? ==> socket.inbox == old(socket.inbox)[4 + FrameBodyLength(old(socket.inbox)[..4])..]
      ensures r.Err? ==> r.error.Eof?
      ensures socket.wire == old(socket.wire)
    {
      var header := ReadFully(4);
      if header.Err? {
        return header;
      }
      var length := UnpackInt32(header.value);
      r := ReadFully(length);
      if r.Ok? {
        var n := FrameBodyLength(header.value);
        assert old(socket.inbox)[4..][..n] == old(socket.inbox)[4..4 + n];
        assert old(socket.inbox)[4..][n..] == old(socket.inbox)[4 + n..];
      }
    }
  }

  /** The number of bytes read_frame reads after a header. */
  function FrameBodyLength(header: Bytes): nat
    requires |header| == 4
  {
    var length := UnpackInt32(header);
    if length < 0 then 0 else length
  }

  /** The incoming bytes hold a whole frame: a header and at least as many
      bytes as it announces. */
  predicate FrameReady(inbox: Bytes)
  {
    |inbox| >= 4 && |inbox| - 4 >= UnpackInt32(inbox[..4])
  }

  /** The body of the first frame of the incoming bytes. */
  function NextFrame(inbox: Bytes): Bytes
    requires FrameReady(inbox)
  {
    inbox[4..4 + FrameBodyLength(inbox[..4])]
  }

  /** A frame written by write_frame is read back whole by read_frame. */
  method FrameRoundTrip(frame: Bytes, chunk: Pos) returns (got: Result<Bytes, RconError>)
    requires IsInt32(|frame|)
    ensures got == Ok(frame)
  {
    var sender := new Socket([], chunk);
    var out := new RconChannel(sender);
    var w := out.WriteFrame(frame);
    FrameHeader(frame);
    assert sender.wire == Frame(frame);
    var receiver := new Socket(sender.wire, chunk);
    var inn := new RconChannel(receiver);
    assert FrameBodyLength(receiver.inbox[..4]) == |frame|;
    got := inn.ReadFrame();
    assert Frame(frame)[4..4 + |frame|] == frame;
  }

  /** The request-id checks of the client (rconite.py:241-247). */
  function CheckResponseId(requestId: int, response: Message): (r: Result<(), RconError>)
    ensures r == Err(AuthenticationError) <==> response.requestId == -1
    ensures r.Ok? <==> response.requestId == requestId && requestId != -1
    ensures r.Err? && r != Err(AuthenticationError) ==> r == Err(UnexpectedMessage(response.s1))
  {
    if response.requestId == -1 then Err(AuthenticationError)
    else if response.requestId != requestId then Err(UnexpectedMessage(response.s1))
    else Ok(())
  }

  class RconClient {
    const channel: RconChannel
    var lastRequestId: int

    ghost predicate Valid() reads this { lastRequestId >= 0 }

    constructor (channel: RconChannel)
      ensures Valid() && lastRequestId == 0 && this.channel == channel
    {
      this.channel := channel;
      lastRequestId := 0;
    }

    /** `_generate_request_id`: one more than the previous id. */
    method GenerateRequestId() returns (id: int)
      requires Valid()
      modifies this
      ensures Valid() && lastRequestId == old(lastRequestId) + 1 && id == lastRequestId
      ensures id >= 1
    {
      lastRequestId := lastRequestId + 1;
      id := lastRequestId;
    }

    /** `_converse`: send one request under the next id, read one
        response, check its id and return its s1 (the charset conversion of
        s1 is not modelled). An encoding error leaves the socket alone; once
        the request frame is on the wire, the answer is decided by the next
        incoming frame: EOFError when it is incomplete, otherwise its
        decoding and its id check. */
    method Converse(messageType: int, s1: Bytes) returns (r: Result<Bytes, RconError>)
      requires Valid()
      modifies this, channel.socket
      ensures Valid() && lastRequestId == old(lastRequestId) + 1
      ensures 0 in s1 ==> r == Err(Codec(ZeroByte))
      ensures var enc := Encode(Message(lastRequestId, messageType, s1, []));
        enc.Err? ==>
          r == Err(Codec(enc.error))
          && channel.socket.wire == old(channel.socket.wire) && channel.socket.inbox == old(channel.socket.inbox)
      ensures var enc := Encode(Message(lastRequestId, messageType, s1, []));
        enc.Ok? && !IsInt32(|enc.value|) ==>
          r == Err(Codec(StructError))
          && channel.socket.wire == old(channel.socket.wire) && channel.socket.inbox == old(channel.socket.inbox)
      ensures var enc := Encode(Message(lastRequestId, messageType, s1, []));
        enc.Ok? && IsInt32(|enc.value|) ==>
          channel.socket.wire == old(channel.socket.wire) + Frame(enc.value)
          && (!FrameReady(old(channel.socket.inbox)) ==> r.Err? && r.error.Eof?)
      ensures var enc := Encode(Message(lastRequestId, messageType, s1, []));
        enc.Ok? && IsInt32(|enc.value|) && FrameReady(old(channel.socket.inbox)) ==>
          var reply := Decode(NextFrame(old(channel.socket.inbox)));
          (reply.Err? ==> r == Err(Codec(reply.error)))
          && (reply.Ok? && CheckResponseId(lastRequestId, reply.value).Err? ==>
                r == Err(CheckResponseId(lastRequestId, reply.value).error))
          && (reply.Ok? && CheckResponseId(lastRequestId, reply.value).Ok? ==> r == Ok(reply.value.s1))
    {
      var id := GenerateRequestId();
      var enc := Encode(Message(id, messageType, s1, []));
      if enc.Err? {
        return Err(Codec(enc.error));
      }
      var w := channel.WriteFrame(enc.value);
      if w.Err? {
        return Err(Codec(w.error));
      }
      var frame := channel.ReadFrame();
      if frame.Err? {
        return Err(frame.error);
      }
      var response := Decode(frame.value);
      if response.Err? {
        return Err(Codec(response.error));
      }
      var check := CheckResponseId(id, response.value);
      if check.Err? {
        return Err(check.error);
      }
      r := Ok(response.value.s1);
    }
  }

  /** A fresh client hands out the ids 1, 2, 3, ... in turn, and a server
      echoing any of them is never taken for an authentication failure. */
  method FreshClientIds(channel: RconChannel, n: nat) returns (ids: seq<int>)
    ensures |ids| == n
    ensures forall i :: 0 <= i < n ==> ids[i] == i + 1
    ensures forall i, m: Message :: 0 <= i < n && m.requestId == ids[i] ==> CheckResponseId(ids[i], m) == Ok(())
  {
    var client := new RconClient(channel);
    ids := [];
    while |ids| < n
      invariant client.Valid() && client.lastRequestId == |ids| <= n
      invariant forall i :: 0 <= i < |ids| ==> ids[i] == i + 1
    {
      var id := client.GenerateRequestId();
      ids := ids + [id];
    }
  }
}
