/**
  The chunk stream of RTMP 1.0: how a chunk is laid out (sections 5.3.1.1 to 5.3.1.3), how the
  sender compresses message headers and cuts messages into chunks, and a receiver written from
  section 5.3.1 alone, which shares no state with the sender.
 */
module RtmpChunkStream {
  import opened Bytes
  import opened Options

  /** The four chunk message header formats of section 5.3.1.2. */
  type Format = x: int | 0 <= x < 4

  /** Chunk stream ids that a basic header can carry. */
  type ChunkStreamId = x: int | 2 <= x < 65600 witness 2

  const NO_COMPRESSION: Format := 0
  const COMPRESSION: Format := 1

  /** First value that does not fit the 24-bit timestamp and length fields. */
  const FIELD_LIMIT: int := 0xFF_FFFF

  const CHANNEL_PROTOCOL: ChunkStreamId := 2
  const CHANNEL_INVOKE: ChunkStreamId := 3
  const CHANNEL_AUDIO: ChunkStreamId := 4
  const CHANNEL_VIDEO: ChunkStreamId := 5
  const CHANNEL_DATA: ChunkStreamId := 6

  const TYPE_SET_CHUNK_SIZE: byte := 1
  const TYPE_ACKNOWLEDGEMENT: byte := 3
  const TYPE_AUDIO: byte := 8
  const TYPE_VIDEO: byte := 9
  const TYPE_DATA: byte := 18
  const TYPE_INVOKE: byte := 20

  /** A chunk header. `timestamp` is absolute in format 0 and a delta in formats 1 to 3; `cid` is 0
      in an entry that belongs to no chunk stream. */
  datatype ChunkHeader = ChunkHeader(
    fmt: Format,
    cid: uint32,
    timestamp: uint32,
    length: uint32,
    typeId: byte,
    streamId: uint32)

  /** A message as its consumer sees it. */
  datatype Message = Message(
    cid: ChunkStreamId,
    timestamp: uint32,
    typeId: byte,
    streamId: uint32,
    payload: seq<byte>)

  /** What the sender remembers of the last message on one chunk stream. */
  datatype Packet = Packet(header: ChunkHeader, clock: uint32)

  // ---- Layout of one chunk ----

  function BasicHeader(fmt: Format, cid: ChunkStreamId): seq<byte> {
    if cid < 64 then [fmt * 64 + cid]
    else if cid < 64 + 256 then [fmt * 64, cid - 64]
    else [fmt * 64 + 1, (cid - 64) % 0x100, (cid - 64) / 0x100]
  }

  function TimestampField(timestamp: uint32): uint24 {
    Min(timestamp, FIELD_LIMIT)
  }

  function MessageHeader(h: ChunkHeader): seq<byte>
    requires h.length < TWO_TO_THE_24
  {
    if h.fmt == 3 then []
    else
      var lengthAndType :=
        if h.fmt == 2 then [] else Be24(h.length) + ([h.typeId] + if h.fmt == 1 then [] else Le32(h.streamId));
      Be24(TimestampField(h.timestamp)) + lengthAndType
  }

  function ExtendedTimestamp(timestamp: uint32): seq<byte> {
    if timestamp >= FIELD_LIMIT then Be32(timestamp) else []
  }

  // ---- Sender ----

  /** A message whose length is outside this range changes the sender's memory of the channel
      but puts no byte on the wire. */
  predicate Sendable(length: int) {
    0 < length < FIELD_LIMIT
  }

  /** The header format chosen for a message, given the last one on its channel. */
  function Compress(pkt: Packet, h: ChunkHeader): ChunkHeader {
    if h.fmt != 0 && h.cid == pkt.header.cid && h.timestamp >= pkt.clock &&
       h.timestamp - pkt.clock < FIELD_LIMIT && h.streamId == pkt.header.streamId
    then
      var delta := h.timestamp - pkt.clock;
      var fmt: Format :=
        if h.typeId != pkt.header.typeId || h.length != pkt.header.length then 1
        else if delta != pkt.header.timestamp then 2
        else 3;
      h.(fmt := fmt, timestamp := delta)
    else
      h.(fmt := 0)
  }

  function FirstHeader(z: ChunkHeader): seq<byte>
    requires 2 <= z.cid < 65600
    requires z.length < TWO_TO_THE_24
  {
    BasicHeader(z.fmt, z.cid) + (MessageHeader(z) + ExtendedTimestamp(z.timestamp))
  }

  function ContinuationHeader(z: ChunkHeader): seq<byte>
    requires 2 <= z.cid < 65600
  {
    BasicHeader(3, z.cid) + ExtendedTimestamp(z.timestamp)
  }

  /** `payload` cut into pieces of at most `size` bytes, the first behind `head` and the others
      behind `next`. */
  function Chunks(head: seq<byte>, next: seq<byte>, payload: seq<byte>, size: nat): seq<byte>
    requires size > 0
    decreases |payload|
  {
    if payload == [] then []
    else
      var k := Min(|payload|, size);
      head + payload[..k] + Chunks(next, next, payload[k..], size)
  }

  /** Everything sent for a message with compressed header `z`. */
  function MessageBytes(z: ChunkHeader, payload: seq<byte>, size: nat): seq<byte>
    requires 2 <= z.cid < 65600
    requires size > 0
    requires |payload| == z.length
  {
    if Sendable(z.length) then Chunks(FirstHeader(z), ContinuationHeader(z), payload, size) else []
  }

  /** A protocol control message (section 5.4) as one uncompressed chunk on chunk stream 2. */
  function ControlBytes(typeId: byte, payload: seq<byte>): seq<byte>
    requires |payload| <= 128
  {
    FirstHeader(ChunkHeader(0, CHANNEL_PROTOCOL, 0, |payload|, typeId, 0)) + payload
  }

  function ControlMessage(typeId: byte, payload: seq<byte>): Message {
    Message(CHANNEL_PROTOCOL, 0, typeId, 0, payload)
  }

  // ---- Receiver ----

  /** The receiver's memory of one chunk stream. `delta` is the last timestamp field read, which a
      format 3 message repeats; `extended` tells whether that field was the extended one. */
  datatype Channel = Channel(
    clock: uint32,
    delta: uint32,
    extended: bool,
    length: uint32,
    typeId: byte,
    streamId: uint32,
    partial: seq<byte>)

  const NEW_CHANNEL := Channel(0, 0, false, 0, 0, 0, [])

  datatype Receiver = Receiver(chunkSize: nat, channels: map<ChunkStreamId, Channel>) {
    function Get(cid: ChunkStreamId): Channel {
      if cid in channels then channels[cid] else NEW_CHANNEL
    }

    function Set(cid: ChunkStreamId, ch: Channel): Receiver {
      this.(channels := channels[cid := ch])
    }
  }

  /** A receiver at the start of a connection; 128 is the initial chunk size of section 5.4.1. */
  const NEW_RECEIVER := Receiver(128, map[])

  /** A value read from the front of a byte sequence, and the bytes after it. */
  datatype Read<+T> = Read(value: T, rest: seq<byte>)

  datatype Basic = Basic(fmt: Format, cid: ChunkStreamId)

  function ReadBasic(b: seq<byte>): (r: Option<Read<Basic>>)
    ensures r.Some? ==> |r.value.rest| < |b|
  {
    if |b| < 1 then None
    else
      var fmt: Format := b[0] / 64;
      var low := b[0] % 64;
      if low >= 2 then Some(Read(Basic(fmt, low), b[1..]))
      else if low == 0 then
        if |b| < 2 then None else Some(Read(Basic(fmt, b[1] as int + 64), b[2..]))
      else
        if |b| < 3 then None else Some(Read(Basic(fmt, b[2] as int * 0x100 + b[1] as int + 64), b[3..]))
  }

  /** The fields of a message header; those a format omits are taken from the channel. */
  datatype Fields = Fields(timestamp: uint24, length: uint24, typeId: byte, streamId: uint32)

  function ReadFields(fmt: Format, ch: Channel, b: seq<byte>): (r: Option<Read<Fields>>)
    ensures r.Some? ==> |r.value.rest| <= |b|
  {
    var n := if fmt == 0 then 11 else if fmt == 1 then 7 else if fmt == 2 then 3 else 0;
    if |b| < n then None
    else
      var timestamp := if fmt == 3 then 0 else FromBe24(b);
      var length := if fmt <= 1 then FromBe24(b[3..]) else ch.length % TWO_TO_THE_24;
      var typeId := if fmt <= 1 then b[6] else ch.typeId;
      var streamId := if fmt == 0 then FromLe32(b[7..]) else ch.streamId;
      Some(Read(Fields(timestamp, length, typeId, streamId), b[n..]))
  }

  /** Section 5.3.1.3: the extended field follows a 24-bit field of all ones, and follows a format 3
      header when the last explicit header on the channel had it. */
  function ReadExtended(present: bool, field: uint32, b: seq<byte>): (r: Option<Read<uint32>>)
    ensures r.Some? ==> |r.value.rest| <= |b|
  {
    if !present then Some(Read(field, b))
    else if |b| < 4 then None
    else Some(Read(FromBe32(b), b[4..]))
  }

  /** The channel after the header of a chunk that starts a message. */
  function BeginMessage(ch: Channel, fmt: Format, f: Fields, extended: bool, timestamp: uint32): Channel {
    var delta := if fmt == 3 then ch.delta else timestamp;
    var clock := if fmt == 0 then timestamp else U32(ch.clock + delta);
    Channel(clock, delta, extended, f.length, f.typeId, f.streamId, [])
  }

  datatype ChunkRead = ChunkRead(receiver: Receiver, message: Option<Message>)

  /** Set Chunk Size, section 5.4.1: 31 bits, effective for all later chunks. */
  function Apply(r: Receiver, m: Message): Receiver {
    if m.cid == CHANNEL_PROTOCOL && m.streamId == 0 && m.typeId == TYPE_SET_CHUNK_SIZE && |m.payload| == 4
    then r.(chunkSize := FromBe32(m.payload) % 0x8000_0000)
    else r
  }

  /** Adds payload bytes to the channel, and delivers the message once it is whole. */
  function ReadPayload(r: Receiver, cid: ChunkStreamId, ch: Channel, b: seq<byte>): (o: Option<Read<ChunkRead>>)
    ensures o.Some? ==> |o.value.rest| <= |b|
  {
    var missing := if ch.length <= |ch.partial| then 0 else ch.length - |ch.partial|;
    var k := Min(missing, r.chunkSize);
    if |b| < k then None
    else
      var partial := ch.partial + b[..k];
      if k == missing then
        var m := Message(cid, ch.clock, ch.typeId, ch.streamId, partial);
        Some(Read(ChunkRead(Apply(r.Set(cid, ch.(partial := [])), m), Some(m)), b[k..]))
      else
        Some(Read(ChunkRead(r.Set(cid, ch.(partial := partial)), None), b[k..]))
  }

  /** Reads one chunk, or nothing when the bytes of a whole chunk are not there yet. */
  function ReadChunk(r: Receiver, b: seq<byte>): (o: Option<Read<ChunkRead>>)
    ensures o.Some? ==> |o.value.rest| < |b|
  {
    var basic :- ReadBasic(b);
    var Basic(fmt, cid) := basic.value;
    var ch := r.Get(cid);
    var fields :- ReadFields(fmt, ch, basic.rest);
    var f := fields.value;
    var extended := if fmt == 3 then ch.extended else f.timestamp == FIELD_LIMIT;
    var time :- ReadExtended(extended, f.timestamp, fields.rest);
    var begun :=
      if fmt == 3 && ch.partial != [] then ch
      else BeginMessage(ch, fmt, f, extended, time.value);
    ReadPayload(r, cid, begun, time.rest)
  }

  datatype Decoded = Decoded(messages: seq<Message>, receiver: Receiver, rest: seq<byte>)

  /** Reads chunks until the bytes run out. */
  function Decode(r: Receiver, b: seq<byte>): Decoded
    decreases |b|
  {
    match ReadChunk(r, b)
    case None => Decoded([], r, b)
    case Some(Read(ChunkRead(r', m), rest)) =>
      var d := Decode(r', rest);
      d.(messages := (if m.Some? then [m.value] else []) + d.messages)
  }

  /** How the three parts of a chunk header make up a chunk read. */
  lemma ReadParts(r: Receiver, b: seq<byte>, fmt: Format, cid: ChunkStreamId, b1: seq<byte>,
                  f: Fields, b2: seq<byte>, time: uint32, b3: seq<byte>)
    requires ReadBasic(b) == Some(Read(Basic(fmt, cid), b1))
    requires ReadFields(fmt, r.Get(cid), b1) == Some(Read(f, b2))
    requires
      var extended := if fmt == 3 then r.Get(cid).extended else f.timestamp == FIELD_LIMIT;
      ReadExtended(extended, f.timestamp, b2) == Some(Read(time, b3))
    ensures
      var ch := r.Get(cid);
      var extended := if fmt == 3 then ch.extended else f.timestamp == FIELD_LIMIT;
      ReadChunk(r, b) == ReadPayload(
        r, cid,
        if fmt == 3 && ch.partial != [] then ch else BeginMessage(ch, fmt, f, extended, time),
        b3)
  {
  }

  lemma ReadBackBasic(fmt: Format, cid: ChunkStreamId, tail: seq<byte>)
    ensures ReadBasic(BasicHeader(fmt, cid) + tail) == Some(Read(Basic(fmt, cid), tail))
  {
  }

  lemma ReadBackFields(z: ChunkHeader, ch: Channel, tail: seq<byte>)
    requires z.length < TWO_TO_THE_24
    requires z.fmt >= 2 ==> ch.length == z.length && ch.typeId == z.typeId
    ensures
      var r := ReadFields(z.fmt, ch, MessageHeader(z) + tail);
      && r.Some? && r.value.rest == tail
      && r.value.value.timestamp == (if z.fmt == 3 then 0 else TimestampField(z.timestamp))
      && r.value.value.length == z.length
      && r.value.value.typeId == z.typeId
      && r.value.value.streamId == (if z.fmt == 0 then z.streamId else ch.streamId)
  {
    hide Be24, FromBe24, Le32, FromLe32, TimestampField;
    var b := MessageHeader(z) + tail;
    if z.fmt != 3 {
      ReadBack24(TimestampField(z.timestamp), b[3..]);
      assert b == Be24(TimestampField(z.timestamp)) + b[3..];
      if z.fmt != 2 {
        ReadBack24(z.length, b[6..]);
        assert b[3..] == Be24(z.length) + b[6..];
        if z.fmt != 1 {
          ReadBackLe32(z.streamId, tail);
          assert b[7..] == Le32(z.streamId) + tail;
        }
      }
    }
  }

  lemma ReadBackExtended(timestamp: uint32, tail: seq<byte>)
    ensures ReadExtended(timestamp >= FIELD_LIMIT, TimestampField(timestamp), ExtendedTimestamp(timestamp) + tail)
         == Some(Read(timestamp, tail))
  {
    var b := ExtendedTimestamp(timestamp) + tail;
    if timestamp >= FIELD_LIMIT {
      ReadBackBe32(timestamp, tail);
      assert b == Be32(timestamp) + tail && b[4..] == tail;
    } else {
      assert b == tail;
    }
  }

  // ---- Whole messages read back ----

  /** What decoding amounts to once one chunk has been read. */
  function After(o: Read<ChunkRead>): Decoded {
    var d := Decode(o.value.receiver, o.rest);
    d.(messages := (if o.value.message.Some? then [o.value.message.value] else []) + d.messages)
  }

  /** `d` with one more message in front. */
  function Deliver(m: Message, d: Decoded): Decoded {
    d.(messages := [m] + d.messages)
  }

  /** A format 3 header has no 24-bit field; the extended field is present or not as before. */
  lemma ReadBackContinuation(timestamp: uint32, tail: seq<byte>)
    ensures ReadExtended(timestamp >= FIELD_LIMIT, 0, ExtendedTimestamp(timestamp) + tail)
         == Some(Read(if timestamp >= FIELD_LIMIT then timestamp else 0, tail))
  {
    var b := ExtendedTimestamp(timestamp) + tail;
    if timestamp >= FIELD_LIMIT {
      ReadBackBe32(timestamp, tail);
      assert b == Be32(timestamp) + tail && b[4..] == tail;
    } else {
      assert b == tail;
    }
  }

  /** One piece of a payload: it completes the message, or is kept for the next chunk. */
  lemma TakePiece(r: Receiver, cid: ChunkStreamId, ch: Channel, payload: seq<byte>, more: seq<byte>)
    requires 3 <= cid && ch.length == |ch.partial| + |payload|
    ensures
      var k := Min(|payload|, r.chunkSize);
      ReadPayload(r, cid, ch, payload[..k] + more) == Some(Read(
        if k == |payload| then
          ChunkRead(
            r.Set(cid, ch.(partial := [])),
            Some(Message(cid, ch.clock, ch.typeId, ch.streamId, ch.partial + payload)))
        else ChunkRead(r.Set(cid, ch.(partial := ch.partial + payload[..k])), None),
        more))
  {
    var k := Min(|payload|, r.chunkSize);
    assert (payload[..k] + more)[..k] == payload[..k] && (payload[..k] + more)[k..] == more;
    assert k == |payload| ==> payload[..k] == payload;
  }

  /** In the middle of a message a format 3 chunk carries the next piece of that message. */
  lemma ReadNextChunk(r: Receiver, z: ChunkHeader, ch: Channel, body: seq<byte>)
    requires 3 <= z.cid < 65600 && r.Get(z.cid) == ch && ch.partial != []
    requires ch.extended == (z.timestamp >= FIELD_LIMIT)
    ensures ReadChunk(r, ContinuationHeader(z) + body) == ReadPayload(r, z.cid, ch, body)
  {
    assert ContinuationHeader(z) + body == BasicHeader(3, z.cid) + (ExtendedTimestamp(z.timestamp) + body);
    ReadBackBasic(3, z.cid, ExtendedTimestamp(z.timestamp) + body);
    ReadBackContinuation(z.timestamp, body);
  }

  /** The bytes of the next chunk come first. */
  lemma ChunksFirst(next: seq<byte>, payload: seq<byte>, size: nat, tail: seq<byte>)
    requires size > 0 && payload != []
    ensures
      var k := Min(|payload|, size);
      Chunks(next, next, payload, size) + tail
      == next + (payload[..k] + (Chunks(next, next, payload[k..], size) + tail))
  {
  }

  lemma NoChunks(next: seq<byte>, size: nat, tail: seq<byte>)
    requires size > 0
    ensures Chunks(next, next, [], size) + tail == tail
  {
  }

  /** Of two updates of one channel the later one counts. */
  lemma SetTwice(r: Receiver, cid: ChunkStreamId, a: Channel, b: Channel)
    ensures r.Set(cid, a).Get(cid) == a
    ensures r.Set(cid, a).Set(cid, b) == r.Set(cid, b)
  {
  }

  /** The receiver has read the header of the chunk that carries the next piece of a message: the
      rest of the message's chunks, whatever their number, complete it and leave `tail`. */
  lemma {:induction false} DecodePieces(r: Receiver, z: ChunkHeader, ch: Channel, payload: seq<byte>, tail: seq<byte>)
    requires 3 <= z.cid < 65600 && r.chunkSize > 0 && payload != []
    requires ch.length == |ch.partial| + |payload|
    requires ch.extended == (z.timestamp >= FIELD_LIMIT)
    ensures
      var k := Min(|payload|, r.chunkSize);
      var next := ContinuationHeader(z);
      var o := ReadPayload(r, z.cid, ch, payload[..k] + (Chunks(next, next, payload[k..], r.chunkSize) + tail));
      && o.Some?
      && After(o.value) == Deliver(
           Message(z.cid, ch.clock, ch.typeId, ch.streamId, ch.partial + payload),
           Decode(r.Set(z.cid, ch.(partial := [])), tail))
    decreases |payload|
  {
    hide ContinuationHeader, ReadChunk, ReadPayload, Chunks;
    var k := Min(|payload|, r.chunkSize);
    var next := ContinuationHeader(z);
    var rest := payload[k..];
    var more := Chunks(next, next, rest, r.chunkSize) + tail;
    TakePiece(r, z.cid, ch, payload, more);
    if k == |payload| {
      NoChunks(next, r.chunkSize, tail);
    } else {
      var ch' := ch.(partial := ch.partial + payload[..k]);
      var r' := r.Set(z.cid, ch');
      SetTwice(r, z.cid, ch', ch.(partial := []));
      DecodePieces(r', z, ch', rest, tail);
      ChunksFirst(next, rest, r.chunkSize, tail);
      var k' := Min(|rest|, r.chunkSize);
      ReadNextChunk(r', z, ch', rest[..k'] + (Chunks(next, next, rest[k'..], r.chunkSize) + tail));
      assert ch.partial + payload[..k] + rest == ch.partial + payload;
    }
  }

  /** The receiver's channel after a message with compressed header `z`. */
  function Received(ch: Channel, z: ChunkHeader): Channel {
    Channel(
      if z.fmt == 0 then z.timestamp else U32(ch.clock + z.timestamp),
      z.timestamp,
      z.timestamp >= FIELD_LIMIT,
      z.length,
      z.typeId,
      if z.fmt == 0 then z.streamId else ch.streamId,
      [])
  }

  /** The receiver can tell the message boundaries of a channel: it is between messages, and where
      the sender's last message was sent, it remembers the fields that formats 2 and 3 omit. */
  predicate Framed(pkt: Packet, ch: Channel) {
    && ch.partial == []
    && (Sendable(pkt.header.length) ==>
          && ch.length == pkt.header.length
          && ch.typeId == pkt.header.typeId
          && ch.delta == pkt.header.timestamp
          && ch.extended == (pkt.header.timestamp >= FIELD_LIMIT))
  }

  /** The receiver's reconstruction of a channel is the sender's own memory of it. */
  predicate Synced(pkt: Packet, ch: Channel) {
    && Framed(pkt, ch)
    && ch.clock == pkt.clock
    && ch.streamId == pkt.header.streamId
  }

  /** The receiver can fill in the fields that the format of `z` omits; a delta is below the field limit, so
      that only a format 0 message can need the extended field. */
  predicate Readable(ch: Channel, z: ChunkHeader) {
    && 2 <= z.cid < 65600
    && z.length < TWO_TO_THE_24
    && ch.partial == []
    && (z.fmt != 0 ==> z.timestamp < FIELD_LIMIT)
    && (z.fmt >= 2 ==> ch.length == z.length && ch.typeId == z.typeId)
    && (z.fmt == 3 ==> ch.delta == z.timestamp && !ch.extended)
  }

  /** The first chunk of a message gives the receiver every field of its header. */
  lemma {:induction false} ReadFirstChunk(z: ChunkHeader, r: Receiver, body: seq<byte>)
    requires 2 <= z.cid < 65600 && Readable(r.Get(z.cid), z)
    ensures ReadChunk(r, FirstHeader(z) + body) == ReadPayload(r, z.cid, Received(r.Get(z.cid), z), body)
  {
    hide ReadFields, ReadBasic, ReadExtended, MessageHeader, ExtendedTimestamp, BasicHeader, ReadPayload, ReadChunk;
    var ch := r.Get(z.cid);
    var b := FirstHeader(z) + body;
    var afterBasic := MessageHeader(z) + (ExtendedTimestamp(z.timestamp) + body);
    assert b == BasicHeader(z.fmt, z.cid) + afterBasic;
    ReadBackBasic(z.fmt, z.cid, afterBasic);
    var afterFields := ExtendedTimestamp(z.timestamp) + body;
    ReadBackFields(z, ch, afterFields);
    var f := ReadFields(z.fmt, ch, afterBasic).value.value;
    var time: uint32 := if z.fmt == 3 then 0 else z.timestamp;
    if z.fmt == 3 {
      ReadBackContinuation(z.timestamp, body);
    } else {
      ReadBackExtended(z.timestamp, body);
    }
    ReadParts(r, b, z.fmt, z.cid, afterBasic, f, afterFields, time, body);
  }

  /** What a receiver makes of the header of `h` in format `f`, with `delta` as the timestamp but in format 0. */
  function AsRead(ch: Channel, f: Format, h: ChunkHeader, delta: uint32): Option<Channel>
    requires h.length < TWO_TO_THE_24
  {
    var time := if f == 0 then h.timestamp else delta;
    var fields :- ReadFields(f, ch, MessageHeader(h.(fmt := f, timestamp := time)));
    Some(BeginMessage(ch, f, fields.value, time >= FIELD_LIMIT, if f == 3 then 0 else time))
  }

  /** The receiver comes to time, length, type and message stream of `h`. */
  predicate Understood(ch: Channel, f: Format, h: ChunkHeader, delta: uint32)
    requires h.length < TWO_TO_THE_24
  {
    var o := AsRead(ch, f, h, delta);
    o.Some? && o.value.clock == h.timestamp && o.value.length == h.length && o.value.typeId == h.typeId
    && o.value.streamId == h.streamId
  }

  /** The format chosen is the shortest one that can be: after a message that was sent, the receiver understands the
      formats up to the one chosen and no others. Format 0 is chosen where compression is not wanted, and where the time
      goes back or on by too much. */
  lemma {:induction false} ShortestFormatIsChosen(pkt: Packet, ch: Channel, h: ChunkHeader, f: Format)
    requires Synced(pkt, ch) && h.cid == pkt.header.cid && Sendable(h.length) && Sendable(pkt.header.length)
    ensures
      var z := Compress(pkt, h);
      if h.fmt == 0 || h.timestamp < pkt.clock || h.timestamp - pkt.clock >= 0xFF_FFFF then z == h.(fmt := 0)
      else Understood(ch, f, h, h.timestamp - pkt.clock) <==> f <= z.fmt
  {
    hide MessageHeader, ReadFields;
    if h.fmt != 0 && h.timestamp >= pkt.clock && h.timestamp - pkt.clock < 0xFF_FFFF {
      var x := h.(fmt := f, timestamp := if f == 0 then h.timestamp else h.timestamp - pkt.clock);
      assert MessageHeader(x) + [] == MessageHeader(x);
      if f < 2 || (ch.length == h.length && ch.typeId == h.typeId) {
        ReadBackFields(x, ch, []);
        RepeatedDelta(ch.clock, ch.delta, h.timestamp);
      } else {
        OtherBody(x, ch);
      }
    }
  }

  lemma RepeatedDelta(clock: uint32, delta: uint32, timestamp: uint32)
    requires clock <= timestamp
    ensures U32(clock + delta) == timestamp <==> delta == timestamp - clock
  {
    var c, d: int := clock, delta;
    assert U32(c + d) == if c + d < TWO_TO_THE_32 then c + d else c + d - TWO_TO_THE_32;
  }

  /** Formats 2 and 3 take length and type from the channel. */
  lemma OtherBody(x: ChunkHeader, ch: Channel)
    requires x.fmt >= 2 && x.length < TWO_TO_THE_24 && ch.length < TWO_TO_THE_24
    ensures
      var r := ReadFields(x.fmt, ch, MessageHeader(x));
      r.Some? ==> r.value.value.length == ch.length && r.value.value.typeId == ch.typeId
  {
    hide Be24;
  }

  /** The bytes of one message are read back as one message: its channel, type and payload are
      always right. */
  lemma {:induction false} DecodeMessage(pkt: Packet, h: ChunkHeader, payload: seq<byte>, r: Receiver, tail: seq<byte>)
    requires 3 <= h.cid < 65600 && r.chunkSize > 0
    requires Sendable(h.length) && |payload| == h.length
    requires Framed(pkt, r.Get(h.cid))
    ensures
      var z := Compress(pkt, h);
      var ch := Received(r.Get(h.cid), z);
      Decode(r, MessageBytes(z, payload, r.chunkSize) + tail) == Deliver(
        Message(h.cid, ch.clock, h.typeId, ch.streamId, payload),
        Decode(r.Set(h.cid, ch), tail))
  {
    hide FirstHeader, ContinuationHeader, ReadChunk, ReadPayload;
    var z := Compress(pkt, h);
    var k := Min(|payload|, r.chunkSize);
    var next := ContinuationHeader(z);
    var body := payload[..k] + (Chunks(next, next, payload[k..], r.chunkSize) + tail);
    assert MessageBytes(z, payload, r.chunkSize) + tail == FirstHeader(z) + body;
    var begun := Received(r.Get(h.cid), z);
    ReadFirstChunk(z, r, body);
    DecodePieces(r, z, begun, payload, tail);
    assert begun.partial + payload == payload;
  }

  /** A control message is read back in one chunk; Set Chunk Size takes effect at once. */
  lemma {:induction false} DecodeControl(r: Receiver, typeId: byte, payload: seq<byte>, tail: seq<byte>)
    requires r.chunkSize >= 128 && |payload| <= 128
    requires r.Get(CHANNEL_PROTOCOL).partial == []
    ensures
      var m := ControlMessage(typeId, payload);
      var ch := Channel(0, 0, false, |payload|, typeId, 0, []);
      Decode(r, ControlBytes(typeId, payload) + tail)
      == Deliver(m, Decode(Apply(r.Set(CHANNEL_PROTOCOL, ch), m), tail))
  {
    hide FirstHeader, ReadChunk;
    var z := ChunkHeader(0, CHANNEL_PROTOCOL, 0, |payload|, typeId, 0);
    assert ControlBytes(typeId, payload) + tail == FirstHeader(z) + (payload + tail);
    ReadFirstChunk(z, r, payload + tail);
    assert (payload + tail)[..|payload|] == payload && (payload + tail)[|payload|..] == tail;
    assert [] + payload == payload;
  }
}
