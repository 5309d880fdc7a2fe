/**
  Whole runs of the RTMP sender: every message the server hands to the chunk writer, on any mix of
  channels, with chunk size changes and other control messages in between, against the receiver
  of `RtmpChunkStream`.
 */
module RtmpSender {
  import opened Bytes
  import opened Options
  import opened RtmpChunkStream
  import opened Sequences

  const EINVAL := 22

  /** Size of the table of channels the sender remembers. */
  const N_CHUNK_STREAM := 8

  const INITIAL_CHUNK_SIZE: nat := 128
  const OUTPUT_CHUNK_SIZE := 65535

  /** What of a media frame is sent; `pts` is a 64-bit integer of which the header keeps 32 bits. */
  datatype Media = Media(pts: int, data: seq<byte>)

  datatype Sender = Sender(
    packets: seq<Packet>,
    chunkSize: nat,
    streamId: uint32,
    receiveAudio: bool,
    receiveVideo: bool)

  function EmptyPacket(cid: uint32): Packet {
    Packet(ChunkHeader(0, cid, 0, 0, 0, 0), 0)
  }

  /** The table with the five known channels in the slots of their own numbers. */
  const INITIAL_PACKETS: seq<Packet> := [
    EmptyPacket(0), EmptyPacket(0),
    EmptyPacket(CHANNEL_PROTOCOL), EmptyPacket(CHANNEL_INVOKE), EmptyPacket(CHANNEL_AUDIO),
    EmptyPacket(CHANNEL_VIDEO), EmptyPacket(CHANNEL_DATA),
    EmptyPacket(0)]

  const INITIAL_SENDER := Sender(INITIAL_PACKETS, INITIAL_CHUNK_SIZE, 0, true, true)

  // ---- The table of channels ----

  /** The slot looked at by the `i`-th probe for `cid`: probing starts at `cid` and wraps around. */
  function Probe(cid: uint32, i: nat): (slot: nat)
    ensures slot < N_CHUNK_STREAM
  {
    (i + cid) % N_CHUNK_STREAM
  }

  /** The first slot for `cid` among those from the `i`-th probe on. */
  function FindFrom(packets: seq<Packet>, cid: uint32, i: nat): (slot: Option<nat>)
    requires |packets| == N_CHUNK_STREAM && i <= N_CHUNK_STREAM
    ensures slot.Some? ==> slot.value < N_CHUNK_STREAM && packets[slot.value].header.cid == cid
    decreases N_CHUNK_STREAM - i
  {
    if i == N_CHUNK_STREAM then None
    else if packets[Probe(cid, i)].header.cid == cid then Some(Probe(cid, i))
    else FindFrom(packets, cid, i + 1)
  }

  /** Every slot is probed: a channel is found exactly when the table has it. */
  lemma {:induction false} FoundExactlyWhenProbed(packets: seq<Packet>, cid: uint32, i: nat)
    requires |packets| == N_CHUNK_STREAM && i <= N_CHUNK_STREAM
    ensures FindFrom(packets, cid, i).Some?
       <==> exists j :: i <= j < N_CHUNK_STREAM && packets[Probe(cid, j)].header.cid == cid
    decreases N_CHUNK_STREAM - i
  {
    if i < N_CHUNK_STREAM {
      FoundExactlyWhenProbed(packets, cid, i + 1);
    }
  }

  lemma EverySlotIsProbed(cid: uint32, slot: nat) returns (i: nat)
    requires slot < N_CHUNK_STREAM
    ensures i < N_CHUNK_STREAM && Probe(cid, i) == slot
  {
    var c := cid % N_CHUNK_STREAM;
    i := if slot >= c then slot - c else slot + N_CHUNK_STREAM - c;
  }

  lemma {:induction false} FoundExactlyWhenPresent(packets: seq<Packet>, cid: uint32)
    requires |packets| == N_CHUNK_STREAM
    ensures FindFrom(packets, cid, 0).Some?
       <==> exists slot :: 0 <= slot < N_CHUNK_STREAM && packets[slot].header.cid == cid
  {
    hide FindFrom, Probe;
    FoundExactlyWhenProbed(packets, cid, 0);
    if slot :| 0 <= slot < N_CHUNK_STREAM && packets[slot].header.cid == cid {
      var i := EverySlotIsProbed(cid, slot);
      assert packets[Probe(cid, i)].header.cid == cid;
    }
  }

  // ---- One message ----

  datatype Written = Written(sender: Sender, bytes: seq<byte>, result: int)

  /** The chunk writer: the memory of the channel is updated even when the length is refused. */
  function Write(s: Sender, h: ChunkHeader, data: seq<byte>): Written
    requires |s.packets| == N_CHUNK_STREAM && s.chunkSize > 0
    requires 2 <= h.cid < 65600 && h.length <= |data|
  {
    match FindFrom(s.packets, h.cid, 0)
    case None => Written(s, [], -EINVAL)
    case Some(slot) =>
      var z := Compress(s.packets[slot], h);
      var s' := s.(packets := s.packets[slot := Packet(z, h.timestamp)]);
      if z.length >= FIELD_LIMIT then Written(s', [], -EINVAL)
      else Written(s', MessageBytes(z, data[..z.length], s.chunkSize), 0)
  }

  function FrameHeader(fmt: Format, cid: ChunkStreamId, typeId: byte, streamId: uint32, frame: Media): ChunkHeader {
    ChunkHeader(fmt, cid, U32(frame.pts), U32(|frame.data|), typeId, streamId)
  }

  // ---- Runs ----

  /** What the server does to the stream it sends. `Command` stands for the answers to the commands of the
      client, on the message stream they name. `Control` stands for the protocol messages other
      than Set Chunk Size: window size, peer bandwidth, acknowledgement and user control. */
  datatype Event =
    | Audio(frame: Media)
    | Video(frame: Media)
    | Script(frame: Media)
    | SampleAccess(payload: seq<byte>)
    | Command(id: uint32, payload: seq<byte>)
    | SetChunkSize
    | Control(typeId: byte, payload: seq<byte>)
    | ReceiveAudio(on: bool)
    | ReceiveVideo(on: bool)
    | SetStreamId(id: uint32)
  {
    predicate Valid() {
      Control? ==> typeId != TYPE_SET_CHUNK_SIZE && 0 < |payload| <= 128
    }
  }

  /** The message an event hands to the chunk writer. */
  function Outgoing(s: Sender, e: Event): (o: Option<(ChunkHeader, Media)>)
    ensures o.Some? ==> 3 <= o.value.0.cid <= 6 && o.value.0.length <= |o.value.1.data|
  {
    match e
    case Audio(f) =>
      if s.receiveAudio then Some((FrameHeader(COMPRESSION, CHANNEL_AUDIO, TYPE_AUDIO, s.streamId, f), f)) else None
    case Video(f) =>
      if s.receiveVideo then Some((FrameHeader(COMPRESSION, CHANNEL_VIDEO, TYPE_VIDEO, s.streamId, f), f)) else None
    case Script(f) =>
      Some((FrameHeader(COMPRESSION, CHANNEL_INVOKE, TYPE_DATA, s.streamId, f), f))
    case SampleAccess(payload) =>
      var f := Media(0, payload);
      Some((FrameHeader(NO_COMPRESSION, CHANNEL_INVOKE, TYPE_DATA, s.streamId, f), f))
    case Command(id, payload) =>
      var f := Media(0, payload);
      Some((FrameHeader(NO_COMPRESSION, CHANNEL_INVOKE, TYPE_INVOKE, id, f), f))
    case _ => None
  }

  /** One event: the new sender, the bytes sent, and the messages a receiver should get. */
  datatype Step = Step(sender: Sender, bytes: seq<byte>, wanted: seq<Message>)

  function StepEvent(s: Sender, e: Event): Step
    requires Usable(s) && e.Valid()
  {
    match Outgoing(s, e)
    case Some((h, f)) =>
      var w := Write(s, h, f.data);
      Step(w.sender, w.bytes, [Message(h.cid, h.timestamp, h.typeId, h.streamId, f.data)])
    case None =>
      match e
      case SetChunkSize =>
        var payload := Be32(OUTPUT_CHUNK_SIZE);
        Step(s.(chunkSize := OUTPUT_CHUNK_SIZE),
             ControlBytes(TYPE_SET_CHUNK_SIZE, payload),
             [ControlMessage(TYPE_SET_CHUNK_SIZE, payload)])
      case Control(typeId, payload) => Step(s, ControlBytes(typeId, payload), [ControlMessage(typeId, payload)])
      case ReceiveAudio(on) => Step(s.(receiveAudio := on), [], [])
      case ReceiveVideo(on) => Step(s.(receiveVideo := on), [], [])
      case SetStreamId(id) => Step(s.(streamId := id), [], [])
      case _ => Step(s, [], [])
  }

  /** The known channels sit in the slots of their own numbers. */
  predicate Usable(s: Sender) {
    && |s.packets| == N_CHUNK_STREAM
    && s.chunkSize >= INITIAL_CHUNK_SIZE
    && forall cid: int :: 2 <= cid <= 6 ==> s.packets[cid].header.cid == cid
  }

  lemma StepKeepsUsable(s: Sender, e: Event)
    requires Usable(s) && e.Valid()
    ensures Usable(StepEvent(s, e).sender)
  {
  }

  function Run(s: Sender, es: seq<Event>): Step
    requires Usable(s) && forall e <- es :: e.Valid()
    decreases |es|
  {
    if es == [] then Step(s, [], [])
    else
      StepKeepsUsable(s, es[0]);
      var first := StepEvent(s, es[0]);
      var more := Run(first.sender, es[1..]);
      Step(more.sender, first.bytes + more.bytes, first.wanted + more.wanted)
  }

  // ---- What the client should get ----

  /** What the client has switched on, and the message stream it has created. */
  datatype Wishes = Wishes(audio: bool, video: bool, streamId: uint32) {
    function After(e: Event): Wishes {
      match e
      case ReceiveAudio(on) => this.(audio := on)
      case ReceiveVideo(on) => this.(video := on)
      case SetStreamId(id) => this.(streamId := id)
      case _ => this
    }

    /** The message an event calls for: audio on channel 4 and video on channel 5, of types 8 and 9 (sections 7.1.4 and
        7.1.5); data, type 18, and commands, type 20 (sections 7.1.1 and 7.1.2), on channel 3; control messages on
        channel 2 and stream 0 (section 5.4), Set Chunk Size with type 1 and the new size, 65535. */
    function Asked(e: Event): seq<Message> {
      match e
      case Audio(f) => if audio then [Message(4, f.pts % 0x1_0000_0000, 8, streamId, f.data)] else []
      case Video(f) => if video then [Message(5, f.pts % 0x1_0000_0000, 9, streamId, f.data)] else []
      case Script(f) => [Message(3, f.pts % 0x1_0000_0000, 18, streamId, f.data)]
      case SampleAccess(payload) => [Message(3, 0, 18, streamId, payload)]
      case Command(id, payload) => [Message(3, 0, 20, id, payload)]
      case SetChunkSize => [Message(2, 0, 1, 0, [0, 0, 0xFF, 0xFF])]
      case Control(typeId, payload) => [Message(2, 0, typeId, 0, payload)]
      case _ => []
    }
  }

  const INITIAL_WISHES := Wishes(true, true, 0)

  /** The messages that a run of events calls for. */
  function AskedAll(w: Wishes, es: seq<Event>): seq<Message>
    decreases |es|
  {
    if es == [] then [] else w.Asked(es[0]) + AskedAll(w.After(es[0]), es[1..])
  }

  function WishesOf(s: Sender): Wishes {
    Wishes(s.receiveAudio, s.receiveVideo, s.streamId)
  }

  lemma StepAsks(s: Sender, e: Event)
    requires Usable(s) && e.Valid()
    ensures StepEvent(s, e).wanted == WishesOf(s).Asked(e) && WishesOf(StepEvent(s, e).sender) == WishesOf(s).After(e)
  {
    hide Compress, FindFrom, MessageBytes, ControlBytes;
    assert Be32(OUTPUT_CHUNK_SIZE) == Be24(0xFF) + [0xFF] == [0, 0, 0xFF, 0xFF];
  }

  /** The messages handed to the chunk writer are those called for. */
  lemma {:induction false} RunAsks(s: Sender, es: seq<Event>)
    requires Usable(s) && forall e <- es :: e.Valid()
    ensures Run(s, es).wanted == AskedAll(WishesOf(s), es)
    decreases |es|
  {
    hide StepEvent, Usable, Event.Valid, Wishes.Asked, Wishes.After;
    if es != [] {
      StepKeepsUsable(s, es[0]);
      StepAsks(s, es[0]);
      RunAsks(StepEvent(s, es[0]).sender, es[1..]);
    }
  }

  // ---- The receiver over a run ----

  /** Sender and receiver agree on the chunk size and on where messages begin on every channel. */
  predicate Coupled(s: Sender, r: Receiver) {
    && Usable(s)
    && r.chunkSize == s.chunkSize
    && r.Get(CHANNEL_PROTOCOL).partial == []
    && forall cid: int :: 3 <= cid <= 6 ==> Framed(s.packets[cid], r.Get(cid))
  }

  /** The receiver's reconstruction of every channel equals the sender's memory of it. */
  predicate InStep(s: Sender, r: Receiver) {
    && Coupled(s, r)
    && forall cid: int :: 3 <= cid <= 6 ==> Synced(s.packets[cid], r.Get(cid))
  }

  datatype Reception = Reception(receiver: Receiver, messages: seq<Message>)

  /** What the bytes of one event do to the receiver, in terms of whole messages. */
  function ReceiveEvent(s: Sender, r: Receiver, e: Event): Reception
    requires Usable(s) && e.Valid()
  {
    match Outgoing(s, e)
    case Some((h, f)) =>
      var z := Compress(s.packets[h.cid], h);
      var ch := Received(r.Get(h.cid), z);
      if Sendable(h.length) then
        Reception(r.Set(h.cid, ch), [Message(h.cid, ch.clock, h.typeId, ch.streamId, f.data[..h.length])])
      else Reception(r, [])
    case None =>
      if e.SetChunkSize? || e.Control? then
        var m := StepEvent(s, e).wanted[0];
        var ch := Channel(0, 0, false, |m.payload|, m.typeId, 0, []);
        Reception(Apply(r.Set(CHANNEL_PROTOCOL, ch), m), [m])
      else Reception(r, [])
  }

  function Prepend(messages: seq<Message>, d: Decoded): Decoded {
    d.(messages := messages + d.messages)
  }

  /** The chunk writer's bytes reach the receiver as whole messages, on every channel. */
  lemma {:induction false} WriteDecodes(s: Sender, r: Receiver, h: ChunkHeader, data: seq<byte>, tail: seq<byte>)
    requires Coupled(s, r) && 3 <= h.cid <= 6 && h.length <= |data|
    ensures FindFrom(s.packets, h.cid, 0) == Some(h.cid)
    ensures
      var w := Write(s, h, data);
      var ch := Received(r.Get(h.cid), Compress(s.packets[h.cid], h));
      if Sendable(h.length) then
        && Decode(r, w.bytes + tail) == Deliver(
             Message(h.cid, ch.clock, h.typeId, ch.streamId, data[..h.length]),
             Decode(r.Set(h.cid, ch), tail))
        && Coupled(w.sender, r.Set(h.cid, ch))
      else w.bytes == [] && Coupled(w.sender, r)
  {
    hide Decode;
    assert Probe(h.cid, 0) == h.cid;
    if Sendable(h.length) {
      DecodeMessage(s.packets[h.cid], h, data[..h.length], r, tail);
    }
  }

  /** A length is refused from 2^24 - 1 on. */
  lemma {:induction false} WriteResult(s: Sender, h: ChunkHeader, data: seq<byte>)
    requires Usable(s) && 3 <= h.cid <= 6 && h.length <= |data|
    ensures Write(s, h, data).result == if h.length >= 0xFF_FFFF then -22 else 0
  {
    hide MessageBytes;
    assert Probe(h.cid, 0) == h.cid;
  }

  lemma StepDecodes(s: Sender, r: Receiver, e: Event, tail: seq<byte>)
    requires Coupled(s, r) && e.Valid()
    ensures
      var step := StepEvent(s, e);
      var got := ReceiveEvent(s, r, e);
      && Decode(r, step.bytes + tail) == Prepend(got.messages, Decode(got.receiver, tail))
      && Coupled(step.sender, got.receiver)
  {
    hide Decode, Received, Write;
    assert [] + tail == tail;
    match Outgoing(s, e)
    case Some((h, f)) =>
      WriteDecodes(s, r, h, f.data, tail);
    case None =>
      if e.SetChunkSize? {
        DecodeControl(r, TYPE_SET_CHUNK_SIZE, Be32(OUTPUT_CHUNK_SIZE), tail);
        ReadBackBe32(OUTPUT_CHUNK_SIZE, []);
        assert Be32(OUTPUT_CHUNK_SIZE) + [] == Be32(OUTPUT_CHUNK_SIZE);
      } else if e.Control? {
        DecodeControl(r, e.typeId, e.payload, tail);
      }
  }

  function ReceiveRun(s: Sender, r: Receiver, es: seq<Event>): Reception
    requires Usable(s) && forall e <- es :: e.Valid()
    decreases |es|
  {
    if es == [] then Reception(r, [])
    else
      StepKeepsUsable(s, es[0]);
      var first := ReceiveEvent(s, r, es[0]);
      var more := ReceiveRun(StepEvent(s, es[0]).sender, first.receiver, es[1..]);
      Reception(more.receiver, first.messages + more.messages)
  }

  /** Decoding the concatenated output of any run consumes all of it and delivers whole messages. */
  lemma {:induction false} RunDecodes(s: Sender, r: Receiver, es: seq<Event>, tail: seq<byte>)
    requires Coupled(s, r) && forall e <- es :: e.Valid()
    ensures
      var run := Run(s, es);
      var got := ReceiveRun(s, r, es);
      && Decode(r, run.bytes + tail) == Prepend(got.messages, Decode(got.receiver, tail))
      && Coupled(run.sender, got.receiver)
    decreases |es|
  {
    assert Usable(s);
    if es == [] {
      assert [] + tail == tail;
    } else {
      hide Decode, StepEvent, ReceiveEvent, Coupled, Usable, Event.Valid;
      StepKeepsUsable(s, es[0]);
      var first := StepEvent(s, es[0]);
      var more := Run(first.sender, es[1..]);
      Associative(first.bytes, more.bytes, tail);
      StepDecodes(s, r, es[0], more.bytes + tail);
      var got := ReceiveEvent(s, r, es[0]);
      RunDecodes(first.sender, got.receiver, es[1..], tail);
      var rest := ReceiveRun(first.sender, got.receiver, es[1..]);
      Associative(got.messages, rest.messages, Decode(rest.receiver, tail).messages);
    }
  }

  // ---- What is delivered ----

  /** The part of a message that goes on the wire: nothing when its 32-bit length is not sendable. */
  function OnWire(m: Message): seq<Message> {
    var length := U32(|m.payload|);
    if Sendable(length) then [m.(payload := m.payload[..length])] else []
  }

  function AllOnWire(ms: seq<Message>): seq<Message> {
    if ms == [] then [] else OnWire(ms[0]) + AllOnWire(ms[1..])
  }

  /** Equal but perhaps for the timestamp and the stream id. */
  predicate SameBody(a: Message, b: Message) {
    a.cid == b.cid && a.typeId == b.typeId && a.payload == b.payload
  }

  predicate AllSendable(ms: seq<Message>) {
    forall m <- ms :: Sendable(|m.payload|)
  }

  predicate SameBodies(a: seq<Message>, b: seq<Message>) {
    |a| == |b| && forall i :: 0 <= i < |a| ==> SameBody(a[i], b[i])
  }

  /** The timestamp and stream id the receiver reconstructs are the message's own exactly when the
      message is uncompressed or the receiver's clock and stream id are the sender's. */
  lemma {:induction false} ReconstructedExactlyWhen(pkt: Packet, ch: Channel, h: ChunkHeader)
    requires Framed(pkt, ch)
    ensures
      var z := Compress(pkt, h);
      var ch' := Received(ch, z);
      && (ch'.clock == h.timestamp && ch'.streamId == h.streamId
          <==> z.fmt == 0 || (ch.clock == pkt.clock && ch.streamId == pkt.header.streamId))
      && (ch'.clock == h.timestamp && ch'.streamId == h.streamId
          ==> Synced(Packet(z, h.timestamp), ch'))
  {
    var z := Compress(pkt, h);
    if z.fmt != 0 {
      assert U32(pkt.clock + z.timestamp) == h.timestamp;
      assert U32(ch.clock + z.timestamp) == h.timestamp ==> ch.clock == pkt.clock by {
        var c, t: int := ch.clock, z.timestamp;
        assert U32(c + t) == if c + t < TWO_TO_THE_32 then c + t else c + t - TWO_TO_THE_32;
      }
    }
  }

  /** A message sent in step is reconstructed in full and leaves both sides in step. */
  lemma WriteInStep(s: Sender, r: Receiver, h: ChunkHeader, data: seq<byte>)
    requires InStep(s, r) && 3 <= h.cid <= 6 && h.length <= |data| && Sendable(h.length)
    ensures
      var ch := Received(r.Get(h.cid), Compress(s.packets[h.cid], h));
      && ch.clock == h.timestamp && ch.streamId == h.streamId
      && InStep(Write(s, h, data).sender, r.Set(h.cid, ch))
  {
    hide Received, Compress, Framed, MessageBytes, Decode;
    WriteDecodes(s, r, h, data, []);
    ReconstructedExactlyWhen(s.packets[h.cid], r.Get(h.cid), h);
  }

  /** What a step delivers: the bodies are right, and while sender and receiver are in step the whole
      messages are, and they stay in step unless a message was refused. */
  predicate Delivers(s: Sender, r: Receiver, e: Event)
    requires Usable(s) && e.Valid()
  {
    var step := StepEvent(s, e);
    var got := ReceiveEvent(s, r, e);
    && SameBodies(got.messages, AllOnWire(step.wanted))
    && AllSendable(got.messages)
    && (InStep(s, r) && AllSendable(step.wanted) ==> got.messages == step.wanted && InStep(step.sender, got.receiver))
  }

  lemma OneOnWire(m: Message)
    ensures AllOnWire([m]) == OnWire(m) && AllOnWire([]) == []
  {
    hide OnWire;
    assert [m][1..] == [];
  }

  lemma FrameDelivers(s: Sender, r: Receiver, e: Event)
    requires Coupled(s, r) && e.Valid() && Outgoing(s, e).Some?
    ensures Delivers(s, r, e)
  {
    hide Decode, Received, Compress, Write, ControlBytes, Framed, ReadChunk, AllOnWire, InStep, Outgoing;
    var step := StepEvent(s, e);
    var (h, f) := Outgoing(s, e).value;
    var m := Message(h.cid, h.timestamp, h.typeId, h.streamId, f.data);
    assert step.wanted == [m];
    OneOnWire(m);
    HeaderLength(s, e);
    assert AllSendable(step.wanted) ==> Sendable(|m.payload|);
    assert f.data[..|f.data|] == f.data;
    if InStep(s, r) && Sendable(h.length) {
      WriteInStep(s, r, h, f.data);
    }
  }

  /** The length of a frame's header is that of the frame, as far as 32 bits hold it. */
  lemma HeaderLength(s: Sender, e: Event)
    requires Outgoing(s, e).Some?
    ensures var (h, f) := Outgoing(s, e).value; h.length == U32(|f.data|)
  {
  }

  lemma ControlDelivers(s: Sender, r: Receiver, e: Event)
    requires Coupled(s, r) && e.Valid() && Outgoing(s, e).None?
    ensures Delivers(s, r, e)
  {
    hide Decode, Received, Compress, Write, ControlBytes, Framed, ReadChunk, Outgoing, AllOnWire;
    var step := StepEvent(s, e);
    OneOnWire(ControlMessage(0, []));
    if e.SetChunkSize? || e.Control? {
      StepDecodes(s, r, e, []);
      var m := step.wanted[0];
      OneOnWire(m);
      assert m.payload[..|m.payload|] == m.payload;
    }
  }

  lemma EventDelivers(s: Sender, r: Receiver, e: Event)
    requires Coupled(s, r) && e.Valid()
    ensures Delivers(s, r, e)
  {
    hide Delivers, Outgoing;
    if Outgoing(s, e).Some? {
      FrameDelivers(s, r, e);
    } else {
      ControlDelivers(s, r, e);
    }
  }

  lemma {:induction false} AllOnWireAppend(a: seq<Message>, b: seq<Message>)
    ensures AllOnWire(a + b) == AllOnWire(a) + AllOnWire(b)
  {
    hide OnWire;
    if a == [] {
      assert a + b == b;
    } else {
      AllOnWireAppend(a[1..], b);
      assert (a + b)[1..] == a[1..] + b;
      Associative(OnWire(a[0]), AllOnWire(a[1..]), AllOnWire(b));
    }
  }

  lemma AppendBodies(a: seq<Message>, b: seq<Message>, c: seq<Message>, d: seq<Message>)
    ensures SameBodies(a, b) && SameBodies(c, d) ==> SameBodies(a + c, b + d)
    ensures AllSendable(a + c) <==> AllSendable(a) && AllSendable(c)
  {
    if AllSendable(a + c) {
      assert forall m <- a :: m in a + c;
      assert forall m <- c :: m in a + c;
    }
  }

  lemma {:induction false} RunDelivers(s: Sender, r: Receiver, es: seq<Event>)
    requires Coupled(s, r) && forall e <- es :: e.Valid()
    ensures
      var run := Run(s, es);
      var got := ReceiveRun(s, r, es);
      && SameBodies(got.messages, AllOnWire(run.wanted))
      && AllSendable(got.messages)
      && (InStep(s, r) && AllSendable(run.wanted) ==> got.messages == run.wanted && InStep(run.sender, got.receiver))
    decreases |es|
  {
    assert Usable(s);
    if es == [] {
      assert AllOnWire([]) == [];
    } else {
      hide StepEvent, ReceiveEvent, Coupled, InStep, OnWire, AllOnWire, Usable, Event.Valid, SameBodies, AllSendable;
      StepKeepsUsable(s, es[0]);
      StepDecodes(s, r, es[0], []);
      EventDelivers(s, r, es[0]);
      var first := StepEvent(s, es[0]);
      var got := ReceiveEvent(s, r, es[0]);
      RunDelivers(first.sender, got.receiver, es[1..]);
      var wanted := Run(first.sender, es[1..]).wanted;
      AllOnWireAppend(first.wanted, wanted);
      AppendBodies(got.messages, AllOnWire(first.wanted),
                   ReceiveRun(first.sender, got.receiver, es[1..]).messages, AllOnWire(wanted));
      AppendBodies(first.wanted, [], wanted, []);
    }
  }

  // ---- Main results ----

  /** A frame of a length that is refused, such as one of 2^24 bytes, is not sent, but moves the sender's clock: the
      next frame, sent 80 ms after the first, reaches the receiver 40 ms after it. */
  lemma {:induction false} RefusedFrameShiftsTheClock(data: seq<byte>)
    requires !Sendable(U32(|data|))
    ensures
      var es := [SetStreamId(1), Video(Media(1000, [1])), Video(Media(1040, data)), Video(Media(1080, [2]))];
      var got := ReceiveRun(INITIAL_SENDER, NEW_RECEIVER, es).messages;
      |got| == 2 && got[0].timestamp == 1000 && got[1].timestamp == 1040
  {
    hide StepEvent, ReceiveEvent, ReceiveRun, Probe, Usable, MessageBytes, FindFrom;
    var f1, f2, f3 := Media(1000, [1]), Media(1040, data), Media(1080, [2]);
    var e0, e1, e2, e3 := SetStreamId(1), Video(f1), Video(f2), Video(f3);
    var s0, r0 := INITIAL_SENDER, NEW_RECEIVER;
    StreamIdEvent(s0, r0, 1);
    var s1 := StepEvent(s0, e0).sender;
    VideoEvent(s1, r0, f1);
    var s2, g1 := StepEvent(s1, e1).sender, ReceiveEvent(s1, r0, e1);
    assert s2.packets[CHANNEL_VIDEO] == Packet(ChunkHeader(0, CHANNEL_VIDEO, 1000, 1, TYPE_VIDEO, 1), 1000);
    VideoEvent(s2, g1.receiver, f2);
    var s3, g2 := StepEvent(s2, e2).sender, ReceiveEvent(s2, g1.receiver, e2);
    assert s3.packets[CHANNEL_VIDEO].clock == 1040 && g2 == Reception(g1.receiver, []);
    VideoEvent(s3, g2.receiver, f3);
    NoEvents(StepEvent(s3, e3).sender, ReceiveEvent(s3, g2.receiver, e3).receiver);
    EventFirst(s3, g2.receiver, e3, []);
    EventFirst(s2, g1.receiver, e2, [e3]);
    EventFirst(s1, r0, e1, [e2, e3]);
    EventFirst(s0, r0, e0, [e1, e2, e3]);
    assert [e3] + [] == [e3] && [e2] + [e3] == [e2, e3] && [e1] + [e2, e3] == [e1, e2, e3];
    assert [e0] + [e1, e2, e3] == [e0, e1, e2, e3];
  }

  lemma NoEvents(s: Sender, r: Receiver)
    requires Usable(s)
    ensures ReceiveRun(s, r, []) == Reception(r, [])
  {
  }

  lemma StreamIdEvent(s: Sender, r: Receiver, id: uint32)
    requires s == INITIAL_SENDER
    ensures Usable(s) && Usable(StepEvent(s, SetStreamId(id)).sender)
    ensures StepEvent(s, SetStreamId(id)).sender == s.(streamId := id)
    ensures ReceiveEvent(s, r, SetStreamId(id)) == Reception(r, [])
  {
  }

  /** What a video event does to the slot of its channel, and to the receiver. */
  lemma VideoEvent(s: Sender, r: Receiver, f: Media)
    requires Usable(s) && s.receiveVideo
    ensures
      var h := FrameHeader(COMPRESSION, CHANNEL_VIDEO, TYPE_VIDEO, s.streamId, f);
      var z := Compress(s.packets[CHANNEL_VIDEO], h);
      && StepEvent(s, Video(f)).sender == s.(packets := s.packets[CHANNEL_VIDEO := Packet(z, h.timestamp)])
      && Usable(StepEvent(s, Video(f)).sender)
      && ReceiveEvent(s, r, Video(f)) ==
         if !Sendable(h.length) then Reception(r, [])
         else
           var ch := Received(r.Get(CHANNEL_VIDEO), z);
           Reception(
             r.Set(CHANNEL_VIDEO, ch), [Message(CHANNEL_VIDEO, ch.clock, TYPE_VIDEO, ch.streamId, f.data[..h.length])])
  {
    hide MessageBytes, Compress, Received;
    StepKeepsUsable(s, Video(f));
    assert Probe(CHANNEL_VIDEO, 0) == CHANNEL_VIDEO;
  }

  lemma EventFirst(s: Sender, r: Receiver, e: Event, es: seq<Event>)
    requires Usable(s) && e.Valid() && (forall e' <- es :: e'.Valid()) && Usable(StepEvent(s, e).sender)
    ensures
      var first := ReceiveEvent(s, r, e);
      ReceiveRun(s, r, [e] + es).messages
      == first.messages + ReceiveRun(StepEvent(s, e).sender, first.receiver, es).messages
  {
    hide StepEvent, ReceiveEvent, Usable;
    assert ([e] + es)[1..] == es;
  }

  /** The presets make every channel look used, so that a first message may go out in format 1; a new
      receiver remembers the same about it. */
  lemma InitiallyInStep()
    ensures InStep(INITIAL_SENDER, NEW_RECEIVER)
  {
  }

  /** Framing never breaks: on every run, the receiver consumes all bytes and gets exactly one
      message for each message with a sendable length, in order, with the right channel, type and
      payload. */
  lemma {:induction false} FramingHolds(es: seq<Event>)
    requires forall e <- es :: e.Valid()
    ensures
      var run := Run(INITIAL_SENDER, es);
      var d := Decode(NEW_RECEIVER, run.bytes);
      && d.rest == []
      && SameBodies(d.messages, AllOnWire(AskedAll(INITIAL_WISHES, es))) && AllSendable(d.messages)
      && Coupled(run.sender, d.receiver)
  {
    RunAsks(INITIAL_SENDER, es);
    InitiallyInStep();
    RunDecodes(INITIAL_SENDER, NEW_RECEIVER, es, []);
    RunDelivers(INITIAL_SENDER, NEW_RECEIVER, es);
    var run := Run(INITIAL_SENDER, es);
    assert run.bytes + [] == run.bytes;
    var got := ReceiveRun(INITIAL_SENDER, NEW_RECEIVER, es);
    assert got.messages + [] == got.messages;
  }

  /** The receiver recovers every message that a run calls for - channel, absolute timestamp, type, stream id
      and payload - exactly when every message has a length the chunk writer sends; then it ends
      with the sender's own memory of every channel. */
  lemma {:induction false} MessagesRecovered(es: seq<Event>)
    requires forall e <- es :: e.Valid()
    ensures
      var run, asked := Run(INITIAL_SENDER, es), AskedAll(INITIAL_WISHES, es);
      var d := Decode(NEW_RECEIVER, run.bytes);
      && run.wanted == asked
      && (d.messages == asked <==> AllSendable(asked))
      && (d.messages == asked ==> InStep(run.sender, d.receiver))
  {
    hide Run, ReceiveRun, Decode, SameBodies, AllSendable, AllOnWire, AskedAll, StepEvent, Synced, Framed;
    RunAsks(INITIAL_SENDER, es);
    InitiallyInStep();
    RunDecodes(INITIAL_SENDER, NEW_RECEIVER, es, []);
    RunDelivers(INITIAL_SENDER, NEW_RECEIVER, es);
    var run := Run(INITIAL_SENDER, es);
    assert run.bytes + [] == run.bytes;
    var got := ReceiveRun(INITIAL_SENDER, NEW_RECEIVER, es);
    NothingLeft(got.receiver);
    assert got.messages + [] == got.messages;
  }

  lemma NothingLeft(r: Receiver)
    ensures Decode(r, []) == Decoded([], r, [])
  {
  }
}
