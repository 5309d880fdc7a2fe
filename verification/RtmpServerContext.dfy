/**
  The RTMP server object: one per connection, updated in place by every read and every message.
 */
module RtmpServerContext {
  import opened Bytes
  import opened Options
  import opened RtmpChunkStream
  import opened RtmpSender
  import opened RtmpInput
  import opened Sequences

  const PAYLOAD_SIZE: nat := 2048

  /** Acknowledgements as they are sent. */
  function AckBytes(acks: seq<uint32>): seq<byte> {
    if acks == [] then []
    else AckBytes(acks[..|acks| - 1]) + ControlBytes(TYPE_ACKNOWLEDGEMENT, Be32(acks[|acks| - 1]))
  }

  lemma AckBytesOneMore(acks: seq<uint32>, ack: uint32)
    ensures AckBytes(acks + [ack]) == AckBytes(acks) + ControlBytes(TYPE_ACKNOWLEDGEMENT, Be32(ack))
  {
    hide ControlBytes;
    assert (acks + [ack])[..|acks|] == acks;
  }

  /** Acknowledgements as messages: type 3 on channel 2, with the count in four bytes (section 5.4.3). */
  function AckMessages(acks: seq<uint32>): seq<Message> {
    seq(|acks|, k requires 0 <= k < |acks| => Message(2, 0, 3, 0, Be32(acks[k])))
  }

  /** A receiver gets every acknowledgement, in order. */
  lemma {:induction false} AcksReadBack(r: Receiver, acks: seq<uint32>, tail: seq<byte>) returns (r': Receiver)
    requires r.chunkSize >= 128 && r.Get(CHANNEL_PROTOCOL).partial == []
    ensures Decode(r, AckBytes(acks) + tail) == Prepend(AckMessages(acks), Decode(r', tail))
    ensures r'.chunkSize >= 128 && r'.Get(CHANNEL_PROTOCOL).partial == []
  {
    hide Decode, ControlBytes, Be32;
    if acks == [] {
      r' := r;
      assert AckBytes(acks) + tail == tail;
    } else {
      var before, ack := acks[..|acks| - 1], acks[|acks| - 1];
      var bytes, m := ControlBytes(TYPE_ACKNOWLEDGEMENT, Be32(ack)), ControlMessage(TYPE_ACKNOWLEDGEMENT, Be32(ack));
      var q := AcksReadBack(r, before, bytes + tail);
      DecodeControl(q, TYPE_ACKNOWLEDGEMENT, Be32(ack), tail);
      r' := Apply(q.Set(CHANNEL_PROTOCOL, Channel(0, 0, false, 4, TYPE_ACKNOWLEDGEMENT, 0, [])), m);
      Associative(AckBytes(before), bytes, tail);
      Associative(AckMessages(before), [m], Decode(r', tail).messages);
      assert AckMessages(acks) == AckMessages(before) + [m];
    }
  }

  /** What a client makes of all that it is sent, once C1 has come: the greeting, with its own time and random bytes,
      and then the acknowledgements. */
  ghost predicate ClientReads(out: seq<byte>, stream: seq<byte>, clock: Clock, acks: seq<uint32>) {
    |stream| >= 1537 ==>
      && |out| >= 3073
      && ReadGreeting(out) ==
         Some(Greeting(3, clock.time1, 0, clock.random, FromBe32(stream[1..5]), clock.time2, stream[9..1537]))
      && Decode(NEW_RECEIVER, out[3073..]).messages == AckMessages(acks)
      && Decode(NEW_RECEIVER, out[3073..]).rest == []
  }

  lemma {:induction false} ClientReadsAll(stream: seq<byte>, clock: Clock, acks: seq<uint32>)
    requires clock.Valid()
    ensures ClientReads(Replies(stream, clock) + AckBytes(acks), stream, clock, acks)
  {
    hide Decode, AckBytes, AckMessages, FromBe32, ReadGreeting, Reply;
    if |stream| >= 1537 {
      ClientReadsGreeting(stream, clock, AckBytes(acks));
      var reply := Replies(stream, clock);
      assert (reply + AckBytes(acks))[3073..] == AckBytes(acks) + [];
      NewReceiverIsReady();
      var r := AcksReadBack(NEW_RECEIVER, acks, []);
      NothingLeft(r);
      assert AckMessages(acks) + [] == AckMessages(acks);
    }
  }

  lemma NewReceiverIsReady()
    ensures NEW_RECEIVER.chunkSize >= 128 && NEW_RECEIVER.Get(CHANNEL_PROTOCOL).partial == []
  {
  }

  /** What has been sent, and the counters. */
  datatype Answers = Answers(sent: seq<byte>, counters: Counters)

  /** What is sent for the reads `parts`: the answer to C1, then the acknowledgements. */
  ghost predicate Answered(now: Answers, start: Answers, window: uint32, clock: Clock, parts: seq<seq<byte>>)
    requires clock.Valid()
  {
    var run := Acknowledgements(start.counters, window, ChunkReads(parts));
    && now.counters == run.counters
    && now.sent == start.sent + Replies(Flatten(parts), clock) + AckBytes(run.acks)
    && (|Flatten(parts)| <= AFTER_C2 ==> run.acks == [])
  }

  /** One more read, after `now`. */
  ghost predicate AnswersRead(now: Answers, next: Answers, window: uint32, clock: Clock, before: seq<byte>, data: seq<byte>)
    requires clock.Valid()
  {
    var count := ChunkBytes(|before|, |data|);
    var reply := if |before| < AFTER_C1 then Replies(before + data, clock) else [];
    var step := Acknowledge(now.counters, window, count);
    if count == 0 then next == Answers(now.sent + reply, now.counters)
    else
      next == Answers(
        now.sent + reply
          + if step.ack then ControlBytes(TYPE_ACKNOWLEDGEMENT, Be32(step.counters.received)) else [],
        step.counters)
  }

  lemma AnsweredMore(now: Answers, next: Answers, start: Answers, window: uint32, clock: Clock,
                     parts: seq<seq<byte>>, k: nat)
    requires clock.Valid() && k < |parts|
    requires Answered(now, start, window, clock, parts[..k])
    requires AnswersRead(now, next, window, clock, Flatten(parts[..k]), parts[k])
    ensures Answered(next, start, window, clock, parts[..k + 1])
  {
    hide Acknowledge, ControlBytes, Replies, Flatten, Acknowledgements, ChunkReads, AckBytes;
    var before := Flatten(parts[..k]);
    var count := ChunkBytes(|before|, |parts[k]|);
    var run := Acknowledgements(start.counters, window, ChunkReads(parts[..k]));
    FlattenAt(parts, k);
    ChunkReadsAt(parts, k);
    RepliesDependOnC1(before, parts[k], clock);
    AcknowledgementsOneMore(start.counters, window, ChunkReads(parts[..k]), count);
    var step := Acknowledge(run.counters, window, count);
    NoAckBytes();
    AckBytesOneMore(run.acks, step.counters.received);
    NothingAdded(run.acks, ChunkReads(parts[..k]));
    var more := if count > 0 && step.ack then ControlBytes(TYPE_ACKNOWLEDGEMENT, Be32(step.counters.received)) else [];
    SentMore(start.sent, Replies(before, clock), AckBytes(run.acks), Replies(before + parts[k], clock), more);
  }

  lemma NoAckBytes()
    ensures AckBytes([]) == []
  {
  }

  lemma NothingAdded(acks: seq<uint32>, sizes: seq<nat>)
    ensures acks + [] == acks && sizes + [] == sizes
  {
  }

  /** The answer to C1 comes before every acknowledgement. */
  lemma SentMore(sent: seq<byte>, reply: seq<byte>, acks: seq<byte>, reply': seq<byte>, more: seq<byte>)
    ensures reply == acks == [] ==> sent + reply + acks + reply' + more == sent + reply' + (acks + more)
    ensures sent + reply + acks + [] + more == sent + reply + (acks + more)
    ensures reply == acks == [] ==> sent + reply + acks + reply' == sent + reply' + (acks + [])
    ensures sent + reply + acks + [] == sent + reply + (acks + [])
    ensures acks + [] == acks
  {
  }

  class ServerContext {
    // chunk stream writer
    const outPackets: array<Packet>
    var outChunkSize: nat
    var streamId: uint32
    var receiveAudio: bool
    var receiveVideo: bool
    // reader
    const payload: array<byte>
    var handshakeState: HandshakeState
    var handshakeBytes: nat
    var received: uint32
    var acknowledged: uint32
    var windowSize: uint32
    const clock: Clock
    /** Everything handed to the send handler, in order. */
    var sent: seq<byte>
    /** Everything handed to the chunk reader, in order. */
    var chunkInput: seq<byte>
    /** Everything received so far. */
    ghost var stream: seq<byte>

    ghost predicate Valid()
      reads this, outPackets, payload
    {
      && ValidSender()
      && ValidReader()
    }

    ghost predicate ValidSender()
      reads this, outPackets
    {
      outPackets.Length == N_CHUNK_STREAM && outChunkSize >= INITIAL_CHUNK_SIZE && Usable(AsSender())
    }

    /** State and buffer are a function of the bytes received, not of the reads they came in. */
    ghost predicate ValidReader()
      reads this, payload
    {
      && payload.Length == PAYLOAD_SIZE
      && clock.Valid()
      && handshakeState == StateAfter(|stream|)
      && handshakeBytes == BlockBytes(|stream|)
      && payload[..handshakeBytes] == stream[|stream| - handshakeBytes..]
      && chunkInput == ChunkPart(stream)
    }

    ghost function AsSender(): Sender
      reads this, outPackets
    {
      Sender(outPackets[..], outChunkSize, streamId, receiveAudio, receiveVideo)
    }

    constructor (clock: Clock)
      requires clock.Valid()
      ensures Valid() && fresh(outPackets) && fresh(payload)
      ensures AsSender() == INITIAL_SENDER
      ensures stream == [] && sent == [] && received == acknowledged == 0 && windowSize == 5000000
    {
      hide ValidSender, ValidReader, AsSender;
      var packets := NewPackets();
      outPackets := packets;
      outChunkSize := INITIAL_CHUNK_SIZE;
      streamId, receiveAudio, receiveVideo := 0, true, true;
      payload := new byte[PAYLOAD_SIZE];
      handshakeState, handshakeBytes := Uninit, 0;
      received, acknowledged, windowSize := 0, 0, 5000000;
      this.clock := clock;
      sent, chunkInput, stream := [], [], [];
      new;
      NewSender();
      NewReader();
    }

    static method NewPackets() returns (packets: array<Packet>)
      ensures fresh(packets) && packets[..] == INITIAL_PACKETS
    {
      packets := new Packet[N_CHUNK_STREAM](i requires 0 <= i < N_CHUNK_STREAM => INITIAL_PACKETS[i]);
      assert packets[..] == INITIAL_PACKETS;
    }

    lemma NewSender()
      requires outPackets[..] == INITIAL_PACKETS && outChunkSize == INITIAL_CHUNK_SIZE
      requires streamId == 0 && receiveAudio && receiveVideo
      ensures ValidSender() && AsSender() == INITIAL_SENDER
    {
      hide Usable;
      SenderIsUsable();
    }

    lemma NewReader()
      requires payload.Length == PAYLOAD_SIZE && clock.Valid() && handshakeState == Uninit && handshakeBytes == 0
      requires chunkInput == stream == []
      ensures ValidReader()
    {
    }

    static lemma SenderIsUsable()
      ensures Usable(INITIAL_SENDER)
    {
    }

    // ---- Writing messages ----

    method FindPacket(cid: uint32) returns (slot: Option<nat>)
      requires outPackets.Length == N_CHUNK_STREAM
      ensures slot == FindFrom(outPackets[..], cid, 0)
    {
      var i := 0;
      while i < N_CHUNK_STREAM
        invariant i <= N_CHUNK_STREAM
        invariant FindFrom(outPackets[..], cid, 0) == FindFrom(outPackets[..], cid, i)
      {
        var candidate := (i + cid) % N_CHUNK_STREAM;
        if outPackets[candidate].header.cid == cid {
          return Some(candidate);
        }
        i := i + 1;
      }
      slot := None;
    }

    /** Chooses the header format and updates the memory of the channel in place. */
    method CompressHeader(header: ChunkHeader) returns (h: Option<ChunkHeader>)
      requires ValidSender()
      modifies outPackets
      ensures
        match FindFrom(old(outPackets[..]), header.cid, 0)
        case None => h.None? && outPackets[..] == old(outPackets[..])
        case Some(slot) =>
          var z := Compress(old(outPackets[slot]), header);
          h == Some(z) && outPackets[..] == old(outPackets[..])[slot := Packet(z, header.timestamp)]
      ensures ValidSender()
      ensures h.Some? ==> h.value.cid == header.cid && h.value.length == header.length
    {
      var slot := FindPacket(header.cid);
      if slot.None? {
        return None;
      }
      var pkt := outPackets[slot.value];
      var z := header.(fmt := 0);
      if && header.fmt != 0
         && header.cid == pkt.header.cid
         && header.timestamp >= pkt.clock
         && header.timestamp - pkt.clock < FIELD_LIMIT
         && header.streamId == pkt.header.streamId
      {
        z := z.(fmt := 1, timestamp := header.timestamp - pkt.clock);
        if header.typeId == pkt.header.typeId && header.length == pkt.header.length {
          z := z.(fmt := 2);
          if z.timestamp == pkt.header.timestamp {
            z := z.(fmt := 3);
          }
        }
      }
      outPackets[slot.value] := Packet(z, header.timestamp);
      h := Some(z);
    }

    /** Sends one message, cut into chunks of the current size. */
    method WriteChunks(header: ChunkHeader, data: seq<byte>) returns (r: int)
      requires ValidSender()
      requires 2 <= header.cid < 65600 && header.length <= |data|
      modifies outPackets, this`sent
      ensures
        var w := Write(old(AsSender()), header, data);
        && AsSender() == w.sender
        && sent == old(sent) + w.bytes
        && r == w.result
      ensures ValidSender()
    {
      hide MessageBytes, Compress, FindFrom, Usable;
      var h := CompressHeader(header);
      if h.None? || h.value.length >= FIELD_LIMIT {
        return -EINVAL;
      }
      SendChunks(h.value, data);
      r := 0;
    }

    /** The chunk loop: a full header before the first piece, a format 3 header before the others. */
    method SendChunks(z: ChunkHeader, data: seq<byte>)
      requires 2 <= z.cid < 65600 && z.length <= |data| && z.length < FIELD_LIMIT && outChunkSize > 0
      modifies this`sent
      ensures sent == old(sent) + MessageBytes(z, data[..z.length], outChunkSize)
    {
      hide FirstHeader, ContinuationHeader, Chunks;
      var chunkHeader := FirstHeader(z);
      ghost var next := ContinuationHeader(z);
      var offset := 0;
      ghost var rest := data[..z.length];
      ghost var done := [];
      while z.length - offset > 0
        invariant offset <= z.length && rest == data[offset..z.length]
        invariant offset > 0 ==> chunkHeader == next
        invariant sent == old(sent) + done
        invariant done + Chunks(chunkHeader, next, rest, outChunkSize)
               == Chunks(FirstHeader(z), next, data[..z.length], outChunkSize)
      {
        var chunkSize := Min(z.length - offset, outChunkSize);
        NextPiece(done, chunkHeader, next, data, offset, z.length, outChunkSize);
        sent := sent + chunkHeader;
        sent := sent + data[offset..offset + chunkSize];
        done := done + chunkHeader + data[offset..offset + chunkSize];
        offset := offset + chunkSize;
        rest := data[offset..z.length];
        chunkHeader := ContinuationHeader(z);
      }
      NoPiece(chunkHeader, next, outChunkSize);
      NoPiece(FirstHeader(z), next, outChunkSize);
    }

    static lemma NextPiece(done: seq<byte>, head: seq<byte>, next: seq<byte>, data: seq<byte>,
                           offset: nat, length: nat, size: nat)
      requires size > 0 && offset < length <= |data|
      ensures
        var k := Min(length - offset, size);
        done + Chunks(head, next, data[offset..length], size)
        == done + head + data[offset..offset + k] + Chunks(next, next, data[offset + k..length], size)
    {
      var k := Min(length - offset, size);
      var rest := data[offset..length];
      assert rest[..k] == data[offset..offset + k] && rest[k..] == data[offset + k..length];
      Regroup(done, head, rest[..k], Chunks(next, next, rest[k..], size));
    }

    static lemma NoPiece(head: seq<byte>, next: seq<byte>, size: nat)
      requires size > 0
      ensures Chunks(head, next, [], size) == []
    {
    }

    method SendAudio(frame: Media) returns (r: int)
      requires ValidSender()
      modifies outPackets, this`sent
      ensures
        var step := StepEvent(old(AsSender()), Audio(frame));
        AsSender() == step.sender && sent == old(sent) + step.bytes
      ensures ValidSender()
    {
      if !receiveAudio {
        return 0;
      }
      r := WriteChunks(FrameHeader(COMPRESSION, CHANNEL_AUDIO, TYPE_AUDIO, streamId, frame), frame.data);
    }

    method SendVideo(frame: Media) returns (r: int)
      requires ValidSender()
      modifies outPackets, this`sent
      ensures
        var step := StepEvent(old(AsSender()), Video(frame));
        AsSender() == step.sender && sent == old(sent) + step.bytes
      ensures ValidSender()
    {
      if !receiveVideo {
        return 0;
      }
      r := WriteChunks(FrameHeader(COMPRESSION, CHANNEL_VIDEO, TYPE_VIDEO, streamId, frame), frame.data);
    }

    method SendScript(frame: Media) returns (r: int)
      requires ValidSender()
      modifies outPackets, this`sent
      ensures
        var step := StepEvent(old(AsSender()), Script(frame));
        AsSender() == step.sender && sent == old(sent) + step.bytes
      ensures ValidSender()
    {
      r := WriteChunks(FrameHeader(COMPRESSION, CHANNEL_INVOKE, TYPE_DATA, streamId, frame), frame.data);
    }

    method SendSampleAccess(message: seq<byte>) returns (r: int)
      requires ValidSender()
      modifies outPackets, this`sent
      ensures
        var step := StepEvent(old(AsSender()), SampleAccess(message));
        AsSender() == step.sender && sent == old(sent) + step.bytes
      ensures ValidSender()
    {
      r := WriteChunks(FrameHeader(NO_COMPRESSION, CHANNEL_INVOKE, TYPE_DATA, streamId, Media(0, message)), message);
    }

    /** The answer to a command, never compressed, on the message stream `id`. */
    method SendCommand(id: uint32, message: seq<byte>) returns (r: int)
      requires ValidSender()
      modifies outPackets, this`sent
      ensures
        var step := StepEvent(old(AsSender()), Command(id, message));
        AsSender() == step.sender && sent == old(sent) + step.bytes
      ensures ValidSender()
    {
      r := WriteChunks(FrameHeader(NO_COMPRESSION, CHANNEL_INVOKE, TYPE_INVOKE, id, Media(0, message)), message);
    }

    method SendSetChunkSize()
      requires ValidSender()
      modifies this`sent, this`outChunkSize
      ensures
        var step := StepEvent(old(AsSender()), SetChunkSize);
        AsSender() == step.sender && sent == old(sent) + step.bytes
      ensures ValidSender()
    {
      sent := sent + ControlBytes(TYPE_SET_CHUNK_SIZE, Be32(OUTPUT_CHUNK_SIZE));
      outChunkSize := OUTPUT_CHUNK_SIZE;
    }

    // ---- Receiving ----

    /** Counts a read and acknowledges when the window is exceeded. */
    method SendAcknowledgement(size: nat)
      modifies this`received, this`acknowledged, this`sent
      ensures
        var step := Acknowledge(old(Counters(received, acknowledged)), windowSize, size);
        && Counters(received, acknowledged) == step.counters
        && sent == old(sent) + if step.ack then ControlBytes(TYPE_ACKNOWLEDGEMENT, Be32(received)) else []
    {
      received := U32(received + U32(size));
      if windowSize != 0 && U32(received - acknowledged) > windowSize {
        sent := sent + ControlBytes(TYPE_ACKNOWLEDGEMENT, Be32(received));
        acknowledged := received;
      }
    }

    /** One read. After it, the state is that of the concatenation of all reads; the handshake is
        answered in the read that completes C1, and only there; and the bytes after C2 go to the
        chunk reader. */
    method Input(data: seq<byte>)
      requires ValidReader()
      modifies this`handshakeState, this`handshakeBytes, this`received, this`acknowledged,
               this`sent, this`chunkInput, this`stream, payload
      ensures ValidReader()
      ensures stream == old(stream) + data
      ensures
        var count := ChunkBytes(|old(stream)|, |data|);
        var step := Acknowledge(old(Counters(received, acknowledged)), windowSize, count);
        var reply := if |old(stream)| < AFTER_C1 then Replies(stream, clock) else [];
        if count == 0 then
          && Counters(received, acknowledged) == old(Counters(received, acknowledged))
          && sent == old(sent) + reply
        else
          && Counters(received, acknowledged) == step.counters
          && sent == old(sent) + reply
               + if step.ack then ControlBytes(TYPE_ACKNOWLEDGEMENT, Be32(received)) else []
    {
      hide Acknowledge, ControlBytes, Replies, ChunkPart, StateAfter, BlockBytes;
      var p := 0;
      ghost var before := stream;
      RepliesDependOnC1(stream, [], clock);
      while p < |data|
        invariant p <= |data|
        invariant stream == before + data[..p]
        invariant ValidReader()
        invariant |stream| <= AFTER_C2 || p == 0
        invariant sent == old(sent) + if |before| < AFTER_C1 then Replies(stream, clock) else []
        invariant unchanged(`received) && unchanged(`acknowledged)
        decreases |data| - p
      {
        StateIsAfter(|stream|);
        if handshakeState == Handshake2 {
          assert data[..p] + data[p..] == data;
          RepliesDependOnC1(stream, data[p..], clock);
          ReadChunks(data, p);
          return;
        }
        var p' := ReadHandshake(data, p);
        assert data[..p] + data[p..p'] == data[..p'];
        p := p';
      }
      assert data[..p] == data;
    }

    /** A connection from its first byte on, in any reads: the handshake is answered once, when C1 is whole and
        with that C1; after it come exactly the acknowledgements due for the reads that reach the chunk reader;
        and the chunk reader is given exactly what follows C2. */
    method InputAll(parts: seq<seq<byte>>)
      requires ValidReader() && stream == []
      modifies this`handshakeState, this`handshakeBytes, this`received, this`acknowledged,
               this`sent, this`chunkInput, this`stream, payload
      ensures ValidReader() && stream == Flatten(parts)
      ensures handshakeState == StateAfter(|stream|) && handshakeBytes == BlockBytes(|stream|)
      ensures
        var run := Acknowledgements(old(Counters(received, acknowledged)), windowSize, ChunkReads(parts));
        && Counters(received, acknowledged) == run.counters
        && sent == old(sent) + Replies(stream, clock) + AckBytes(run.acks)
        && ClientReads(sent[|old(sent)|..], stream, clock, run.acks)
      ensures |stream| < 1537 ==> sent == old(sent)
      ensures chunkInput == if |stream| <= 3073 then [] else stream[3073..]
    {
      hide Acknowledge, ControlBytes, Replies, ChunkPart, StateAfter, BlockBytes, Flatten, Acknowledgements, ChunkReads,
        AckBytes, ChunkBytes, ClientReads;
      ghost var start := Answers(sent, Counters(received, acknowledged));
      NoReplies(start.counters, windowSize);
      var k := 0;
      assert parts[..k] == [];
      while k < |parts|
        invariant k <= |parts| && ValidReader() && stream == Flatten(parts[..k])
        invariant Answered(Answers(sent, Counters(received, acknowledged)), start, windowSize, clock, parts[..k])
      {
        ghost var now := Answers(sent, Counters(received, acknowledged));
        FlattenAt(parts, k);
        Input(parts[k]);
        AnsweredMore(now, Answers(sent, Counters(received, acknowledged)), start, windowSize, clock, parts, k);
        k := k + 1;
      }
      assert parts[..k] == parts;
      ghost var acks := Acknowledgements(start.counters, windowSize, ChunkReads(parts)).acks;
      ClientReadsAll(stream, clock, acks);
      SentBehind(old(sent), Replies(stream, clock), AckBytes(acks));
      NoAckBytes();
      UpToC1(stream, clock);
    }

    static lemma SentBehind(sent: seq<byte>, reply: seq<byte>, acks: seq<byte>)
      ensures (sent + reply + acks)[|sent|..] == reply + acks
      ensures reply == acks == [] ==> sent + reply + acks == sent
    {
    }

    static lemma UpToC1(stream: seq<byte>, clock: Clock)
      requires clock.Valid()
      ensures ChunkPart(stream) == if |stream| <= 3073 then [] else stream[3073..]
      ensures |stream| < 1537 ==> Replies(stream, clock) == []
    {
    }

    lemma NoReplies(c: Counters, window: uint32)
      requires clock.Valid()
      ensures Replies([], clock) == [] && Flatten<byte>([]) == []
      ensures Acknowledgements(c, window, ChunkReads([])) == AckRun(c, []) && AckBytes([]) == []
    {
    }

    lemma StateIsAfter(n: nat)
      ensures StateAfter(n) == Handshake2 <==> n >= AFTER_C2
    {
    }

    /** Takes what the read has of the part of the handshake that comes next. */
    method ReadHandshake(data: seq<byte>, p: nat) returns (p': nat)
      requires ValidReader() && handshakeState != Handshake2 && p < |data|
      modifies payload, this`handshakeState, this`handshakeBytes, this`stream, this`sent
      ensures ValidReader()
      ensures p < p' <= |data| && stream == old(stream) + data[p..p'] && |stream| <= AFTER_C2
      ensures
        if |old(stream)| < AFTER_C1 then Replies(old(stream), clock) == [] && sent == old(sent) + Replies(stream, clock)
        else Replies(stream, clock) == Replies(old(stream), clock) && sent == old(sent)
    {
      hide Replies, ChunkPart, BlockBytes;
      RepliesDependOnC1(stream, [], clock);
      if handshakeState == Uninit {
        p' := ReadC0(data, p);
      } else if handshakeState == Handshake0 {
        p' := ReadC1(data, p);
      } else {
        p' := ReadC2(data, p);
      }
    }

    method ReadC0(data: seq<byte>, p: nat) returns (p': nat)
      requires ValidReader() && handshakeState == Uninit && p < |data|
      modifies this`handshakeState, this`handshakeBytes, this`stream
      ensures ValidReader()
      ensures p < p' <= |data| && stream == old(stream) + data[p..p'] && |stream| < AFTER_C1
      ensures Replies(stream, clock) == []
    {
      handshakeState := Handshake0;
      handshakeBytes := 0;
      stream := stream + data[p..p + 1];
      p' := p + 1;
    }

    /** Takes what the read has of C1, and answers C1 once it is complete. */
    method ReadC1(data: seq<byte>, p: nat) returns (p': nat)
      requires ValidReader() && handshakeState == Handshake0 && p < |data|
      modifies payload, this`handshakeState, this`handshakeBytes, this`stream, this`sent
      ensures ValidReader()
      ensures p < p' <= |data| && stream == old(stream) + data[p..p'] && |stream| <= AFTER_C1
      ensures sent == old(sent) + Replies(stream, clock)
      ensures Replies(old(stream), clock) == []
    {
      hide Reply;
      var n := Min(HANDSHAKE_SIZE - handshakeBytes, |data| - p);
      FillBlock(data, p, n);
      p' := p + n;
      if handshakeBytes == HANDSHAKE_SIZE {
        assert payload[..HANDSHAKE_SIZE] == stream[AFTER_C0..AFTER_C1];
        handshakeState := Handshake1;
        handshakeBytes := 0;
        sent := sent + Reply(payload[..HANDSHAKE_SIZE], clock);
      }
    }

    /** Takes what the read has of C2, whose content is not checked. */
    method ReadC2(data: seq<byte>, p: nat) returns (p': nat)
      requires ValidReader() && handshakeState == Handshake1 && p < |data|
      modifies payload, this`handshakeState, this`handshakeBytes, this`stream
      ensures ValidReader()
      ensures p < p' <= |data| && stream == old(stream) + data[p..p'] && AFTER_C1 < |stream| <= AFTER_C2
      ensures Replies(stream, clock) == Replies(old(stream), clock)
    {
      hide Reply, Replies;
      var n := Min(HANDSHAKE_SIZE - handshakeBytes, |data| - p);
      RepliesDependOnC1(stream, data[p..p + n], clock);
      FillBlock(data, p, n);
      p' := p + n;
      if handshakeBytes == HANDSHAKE_SIZE {
        handshakeState := Handshake2;
        handshakeBytes := 0;
      }
    }

    /** Counts the rest of the read and hands it to the chunk reader. */
    method ReadChunks(data: seq<byte>, p: nat)
      requires ValidReader() && handshakeState == Handshake2 && p < |data|
      modifies this`received, this`acknowledged, this`sent, this`chunkInput, this`stream
      ensures ValidReader()
      ensures stream == old(stream) + data[p..]
      ensures
        var step := Acknowledge(old(Counters(received, acknowledged)), windowSize, |data| - p);
        && Counters(received, acknowledged) == step.counters
        && sent == old(sent) + if step.ack then ControlBytes(TYPE_ACKNOWLEDGEMENT, Be32(received)) else []
    {
      stream := stream + data[p..];
      SendAcknowledgement(|data| - p);
      chunkInput := chunkInput + data[p..];
    }

    /** Copies the next `n` bytes of the read into the block buffer. */
    method FillBlock(data: seq<byte>, p: nat, n: nat)
      requires payload.Length == PAYLOAD_SIZE
      requires p + n <= |data| && handshakeBytes + n <= HANDSHAKE_SIZE <= PAYLOAD_SIZE
      requires handshakeBytes <= |stream|
      requires payload[..handshakeBytes] == stream[|stream| - handshakeBytes..]
      modifies payload, this`handshakeBytes, this`stream
      ensures stream == old(stream) + data[p..p + n]
      ensures handshakeBytes == old(handshakeBytes) + n
      ensures payload[..handshakeBytes] == stream[|stream| - handshakeBytes..]
    {
      var start := handshakeBytes;
      forall i | 0 <= i < n {
        payload[start + i] := data[p + i];
      }
      handshakeBytes := start + n;
      stream := stream + data[p..p + n];
      assert payload[..start] == old(payload[..start]);
    }
  }
}
