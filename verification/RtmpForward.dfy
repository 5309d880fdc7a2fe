/**
  A viewer over RTMP: the frames that the sink gives its channel, as messages of the chunk stream, in between
  whatever else the session sends.
 */
module RtmpForward {
  import opened Bytes
  import opened Options
  import opened Sequences
  import opened Frames
  import opened RtmpChunkStream
  import opened RtmpSender
  import opened RtmpInput
  import opened RtmpServerContext
  import RtmpSink
  import TcpConnection

  /** The event that a frame of the channel becomes; frames of other media are dropped. */
  function EventsOf(f: Frame): seq<Event> {
    var media := Media(f.pts, f.data);
    if f.media == VIDEO then [Video(media)]
    else if f.media == AUDIO then [Audio(media)]
    else if f.media == SCRIPT then [Script(media)]
    else []
  }

  predicate AllValid(es: seq<Event>) {
    forall e <- es :: e.Valid()
  }

  /** A run from a new sender on. */
  function RunOf(es: seq<Event>): Step
    requires AllValid(es)
  {
    ServerContext.SenderIsUsable();
    Run(INITIAL_SENDER, es)
  }

  // ---- The session ----

  class Session {
    const context: ServerContext
    /** All that has been sent but for the handshake. */
    ghost var events: seq<Event>

    ghost predicate Valid()
      reads this, context, context.outPackets, context.payload
    {
      && context.Valid() && AllValid(events)
      && context.AsSender() == RunOf(events).sender
      && context.sent == Replies(context.stream, context.clock) + RunOf(events).bytes
      && (|context.stream| < AFTER_C1 ==> events == [])
    }

    constructor (clock: Clock)
      requires clock.Valid()
      ensures Valid() && events == []
      ensures fresh(context) && fresh(context.outPackets) && fresh(context.payload)
    {
      context := new ServerContext(clock);
      events := [];
      new;
      NothingSent(clock);
    }

    /** What the channel of the session does with a frame, once the client plays; an error shuts the session down. */
    method ChannelOut(frame: Frame, ec: int) returns (shutdown: bool)
      requires Valid() && |context.stream| >= AFTER_C1
      modifies `events, context.outPackets, context`sent
      ensures Valid() && events == old(events) + if ec == 0 then EventsOf(frame) else []
      ensures shutdown <==> ec != 0
    {
      hide Run, StepEvent, Usable, Replies, StateAfter, BlockBytes, ChunkPart;
      shutdown := ec != 0;
      if shutdown {
        return;
      }
      ghost var before, more := RunOf(events), EventsOf(frame);
      OneEventMore(events, more, Replies(context.stream, context.clock));
      var media := Media(frame.pts, frame.data);
      if frame.media == VIDEO {
        var _ := context.SendVideo(media);
      } else if frame.media == AUDIO {
        var _ := context.SendAudio(media);
      } else if frame.media == SCRIPT {
        var _ := context.SendScript(media);
      }
      events := events + more;
    }

    /** What comes in goes to the context, which may answer the handshake or acknowledge. */
    method OnRead(data: seq<byte>)
      requires Valid()
      modifies `events, context`handshakeState, context`handshakeBytes, context`received, context`acknowledged,
               context`sent, context`chunkInput, context`stream, context.payload
      ensures Valid() && context.stream == old(context.stream) + data
      ensures
        var count := ChunkBytes(|old(context.stream)|, |data|);
        var step := Acknowledge(old(Counters(context.received, context.acknowledged)), context.windowSize, count);
        events == old(events) +
          if count > 0 && step.ack then [Control(TYPE_ACKNOWLEDGEMENT, Be32(step.counters.received))] else []
    {
      hide Run, StepEvent, Usable, Replies, Acknowledge, StateAfter, BlockBytes, ChunkPart, ControlBytes;
      ghost var count := ChunkBytes(|context.stream|, |data|);
      ghost var step := Acknowledge(Counters(context.received, context.acknowledged), context.windowSize, count);
      ghost var ack := Control(TYPE_ACKNOWLEDGEMENT, Be32(step.counters.received));
      ghost var more := if count > 0 && step.ack then [ack] else [];
      OneEventMore(events, more, Replies(context.stream + data, context.clock));
      RepliesDependOnC1(context.stream, data, context.clock);
      AckEvent(RunOf(events).sender, step.counters.received);
      ghost var sent := context.sent;
      NothingSent(context.clock);
      context.Input(data);
      SentBehindReply(sent, RunOf(events).bytes, Replies(context.stream, context.clock),
                      ControlBytes(TYPE_ACKNOWLEDGEMENT, Be32(step.counters.received)));
      events := events + more;
    }
  }

  lemma NothingSent(clock: Clock)
    requires clock.Valid()
    ensures RunOf([]) == Step(INITIAL_SENDER, [], []) && Replies([], clock) == []
  {
  }

  lemma SentBehindReply(sent: seq<byte>, run: seq<byte>, reply: seq<byte>, ack: seq<byte>)
    ensures sent + [] == sent
    ensures sent == run == [] ==> sent + reply == reply + run && sent + reply + ack == reply + run + ack
    ensures sent == reply + run ==> sent + [] + ack == reply + run + ack
  {
  }

  lemma AckEvent(s: Sender, count: uint32)
    requires Usable(s)
    ensures
      var ack := Control(TYPE_ACKNOWLEDGEMENT, Be32(count));
      ack.Valid() && StepEvent(s, ack).sender == s
      && StepEvent(s, ack).bytes == ControlBytes(TYPE_ACKNOWLEDGEMENT, Be32(count))
  {
  }

  lemma {:induction false} RunKeepsUsable(s: Sender, es: seq<Event>)
    requires Usable(s) && AllValid(es)
    ensures Usable(Run(s, es).sender)
    decreases |es|
  {
    hide Usable, StepEvent;
    if es != [] {
      StepKeepsUsable(s, es[0]);
      RunKeepsUsable(StepEvent(s, es[0]).sender, es[1..]);
    }
  }

  /** A run in two parts. */
  lemma {:induction false} RunAppend(s: Sender, a: seq<Event>, b: seq<Event>)
    requires Usable(s) && AllValid(a) && AllValid(b)
    ensures AllValid(a + b) && Usable(Run(s, a).sender)
    ensures
      var first := Run(s, a);
      var second := Run(first.sender, b);
      Run(s, a + b) == Step(second.sender, first.bytes + second.bytes, first.wanted + second.wanted)
    decreases |a|
  {
    hide Usable, StepEvent;
    RunKeepsUsable(s, a);
    if a == [] {
      assert a + b == b;
      NoRun(s);
    } else {
      assert (a + b)[0] == a[0] && (a + b)[1..] == a[1..] + b;
      StepKeepsUsable(s, a[0]);
      var first := StepEvent(s, a[0]);
      RunAppend(first.sender, a[1..], b);
      var rest := Run(first.sender, a[1..]);
      var second := Run(rest.sender, b);
      Associative(first.bytes, rest.bytes, second.bytes);
      Associative(first.wanted, rest.wanted, second.wanted);
    }
  }

  lemma NoRun(s: Sender)
    requires Usable(s)
    ensures Run(s, []) == Step(s, [], [])
  {
  }

  /** At most one more event, behind what has been sent. */
  lemma OneEventMore(es: seq<Event>, more: seq<Event>, sent: seq<byte>)
    requires AllValid(es) && AllValid(more) && |more| <= 1
    ensures AllValid(es + more)
    ensures more == [] ==> es + more == es
    ensures
      |more| == 1 ==>
        var before := RunOf(es);
        && Usable(before.sender)
        && RunOf(es + more).sender == StepEvent(before.sender, more[0]).sender
        && sent + RunOf(es + more).bytes == sent + before.bytes + StepEvent(before.sender, more[0]).bytes
  {
    hide Usable, StepEvent;
    ServerContext.SenderIsUsable();
    RunAppend(INITIAL_SENDER, es, more);
    if |more| == 1 {
      var before := RunOf(es);
      OneRun(before.sender, more[0]);
      assert more == [more[0]];
      Associative(sent, before.bytes, StepEvent(before.sender, more[0]).bytes);
    }
  }

  lemma OneRun(s: Sender, e: Event)
    requires Usable(s) && e.Valid()
    ensures
      var step := StepEvent(s, e);
      Run(s, [e]).sender == step.sender && Run(s, [e]).bytes == step.bytes
  {
    hide StepEvent, Usable;
    StepKeepsUsable(s, e);
    assert [e][1..] == [];
    NoRun(StepEvent(s, e).sender);
    assert StepEvent(s, e).bytes + [] == StepEvent(s, e).bytes;
  }

  // ---- What a viewer receives ----

  predicate IsMedia(e: Event) {
    e.Audio? || e.Video?
  }

  function MediaEvents(es: seq<Event>): seq<Event>
    decreases |es|
  {
    if es == [] then [] else (if IsMedia(es[0]) then [es[0]] else []) + MediaEvents(es[1..])
  }

  /** Messages on the channels of audio and video. */
  function MediaMessages(ms: seq<Message>): seq<Message>
    decreases |ms|
  {
    if ms == [] then []
    else (if ms[0].cid == CHANNEL_AUDIO || ms[0].cid == CHANNEL_VIDEO then [ms[0]] else []) + MediaMessages(ms[1..])
  }

  /** The message that a media event is to be. */
  function MessageOf(e: Event, id: uint32): Message
    requires IsMedia(e)
  {
    if e.Video? then Message(CHANNEL_VIDEO, U32(e.frame.pts), TYPE_VIDEO, id, e.frame.data)
    else Message(CHANNEL_AUDIO, U32(e.frame.pts), TYPE_AUDIO, id, e.frame.data)
  }

  function MessagesOf(es: seq<Event>, id: uint32): (ms: seq<Message>)
    requires forall e <- es :: IsMedia(e)
    ensures |ms| == |es|
  {
    seq(|es|, k requires 0 <= k < |es| => assert es[k] in es; MessageOf(es[k], id))
  }

  /** The frame as the client should have it: video on channel 5, audio on channel 4. */
  function FrameMessage(f: Frame, id: uint32): Message {
    if f.media == VIDEO then Message(5, U32(f.pts), 9, id, f.data) else Message(4, U32(f.pts), 8, id, f.data)
  }

  function FrameMessages(frames: seq<Frame>, id: uint32): (ms: seq<Message>)
    ensures |ms| == |frames| && forall k :: 0 <= k < |ms| ==> ms[k] == FrameMessage(frames[k], id)
  {
    seq(|frames|, k requires 0 <= k < |frames| => FrameMessage(frames[k], id))
  }

  function FrameEvents(frames: seq<Frame>): seq<Event>
    decreases |frames|
  {
    if frames == [] then [] else EventsOf(frames[0]) + FrameEvents(frames[1..])
  }

  /** The events of a client that goes on playing one stream with sound and picture. */
  predicate Playing(e: Event) {
    !e.ReceiveAudio? && !e.ReceiveVideo? && !e.SetStreamId?
  }

  predicate Shows(s: Sender, id: uint32) {
    s.receiveAudio && s.receiveVideo && s.streamId == id
  }

  lemma {:induction false} MediaMessagesAppend(a: seq<Message>, b: seq<Message>)
    ensures MediaMessages(a + b) == MediaMessages(a) + MediaMessages(b)
    decreases |a|
  {
    if a == [] {
      assert a + b == b;
    } else {
      assert (a + b)[0] == a[0] && (a + b)[1..] == a[1..] + b;
      MediaMessagesAppend(a[1..], b);
    }
  }

  /** One event: the media message it asks for, if any. */
  lemma StepMedia(s: Sender, e: Event)
    requires Usable(s) && e.Valid()
    ensures !IsMedia(e) ==> MediaMessages(StepEvent(s, e).wanted) == []
    ensures
      forall id :: Shows(s, id) && IsMedia(e) ==> MediaMessages(StepEvent(s, e).wanted) == [MessageOf(e, id)]
    ensures forall id :: Shows(s, id) && Playing(e) ==> Shows(StepEvent(s, e).sender, id)
  {
    hide Compress, FindFrom, MessageBytes, ControlBytes;
    OneMessage(StepEvent(s, e).wanted);
  }

  lemma OneMessage(ms: seq<Message>)
    ensures
      |ms| == 1 ==>
        MediaMessages(ms) == if ms[0].cid == CHANNEL_AUDIO || ms[0].cid == CHANNEL_VIDEO then [ms[0]] else []
    ensures ms == [] ==> MediaMessages(ms) == []
  {
    assert |ms| == 1 ==> ms[1..] == [];
  }

  lemma {:induction false} NoMediaWanted(s: Sender, es: seq<Event>)
    requires Usable(s) && AllValid(es) && MediaEvents(es) == []
    ensures MediaMessages(Run(s, es).wanted) == []
    decreases |es|
  {
    hide Usable, StepEvent, IsMedia;
    if es != [] {
      StepKeepsUsable(s, es[0]);
      StepMedia(s, es[0]);
      NoMediaWanted(StepEvent(s, es[0]).sender, es[1..]);
      MediaMessagesAppend(StepEvent(s, es[0]).wanted, Run(StepEvent(s, es[0]).sender, es[1..]).wanted);
    }
  }

  lemma {:induction false} MediaAre(es: seq<Event>)
    ensures forall e <- MediaEvents(es) :: IsMedia(e)
    decreases |es|
  {
    hide IsMedia;
    if es != [] {
      MediaAre(es[1..]);
    }
  }

  /** While the client goes on playing, the media messages asked for are those of the media events. */
  lemma {:induction false} MediaWanted(s: Sender, es: seq<Event>, id: uint32)
    requires Usable(s) && AllValid(es) && Shows(s, id) && forall e <- es :: Playing(e)
    ensures forall e <- MediaEvents(es) :: IsMedia(e)
    ensures MediaMessages(Run(s, es).wanted) == MessagesOf(MediaEvents(es), id)
    decreases |es|
  {
    hide Usable, StepEvent, IsMedia, Playing, Shows, MessageOf;
    MediaAre(es);
    if es != [] {
      StepKeepsUsable(s, es[0]);
      StepMedia(s, es[0]);
      MediaWanted(StepEvent(s, es[0]).sender, es[1..], id);
      MediaMessagesAppend(StepEvent(s, es[0]).wanted, Run(StepEvent(s, es[0]).sender, es[1..]).wanted);
      if IsMedia(es[0]) {
        assert MessagesOf(MediaEvents(es), id) == [MessageOf(es[0], id)] + MessagesOf(MediaEvents(es[1..]), id);
      }
    }
  }

  lemma {:induction false} FramesAreMessages(frames: seq<Frame>, id: uint32)
    requires forall f <- frames :: f.media == VIDEO || f.media == AUDIO
    ensures forall e <- FrameEvents(frames) :: IsMedia(e)
    ensures MessagesOf(FrameEvents(frames), id) == FrameMessages(frames, id)
    decreases |frames|
  {
    hide MessageOf, FrameMessage, IsMedia, EventsOf;
    if frames != [] {
      FramesAreMessages(frames[1..], id);
      assert frames[0] in frames;
      var e := FrameIsMessage(frames[0], id);
      assert FrameEvents(frames) == [e] + FrameEvents(frames[1..]);
      assert MessagesOf([e] + FrameEvents(frames[1..]), id) == [MessageOf(e, id)] + MessagesOf(FrameEvents(frames[1..]), id);
      assert FrameMessages(frames, id) == [FrameMessage(frames[0], id)] + FrameMessages(frames[1..], id);
    }
  }

  lemma FrameIsMessage(f: Frame, id: uint32) returns (e: Event)
    requires f.media == VIDEO || f.media == AUDIO
    ensures EventsOf(f) == [e] && IsMedia(e) && MessageOf(e, id) == FrameMessage(f, id)
  {
    e := EventsOf(f)[0];
  }

  /** What an event puts on the wire has a length that is sent. */
  predicate SendableEvent(e: Event) {
    match e
    case Audio(f) => Sendable(|f.data|)
    case Video(f) => Sendable(|f.data|)
    case Script(f) => Sendable(|f.data|)
    case SampleAccess(payload) => Sendable(|payload|)
    case Command(id, payload) => Sendable(|payload|)
    case _ => true
  }

  lemma StepSendable(s: Sender, e: Event)
    requires Usable(s) && e.Valid() && SendableEvent(e)
    ensures AllSendable(StepEvent(s, e).wanted)
  {
    hide Compress, FindFrom, MessageBytes, ControlBytes;
  }

  lemma {:induction false} RunSendable(s: Sender, es: seq<Event>)
    requires Usable(s) && AllValid(es) && forall e <- es :: SendableEvent(e)
    ensures AllSendable(Run(s, es).wanted)
    decreases |es|
  {
    hide Usable, StepEvent, SendableEvent, AllSendable;
    if es == [] {
      NothingWanted();
    } else {
      StepKeepsUsable(s, es[0]);
      assert es[0] in es;
      StepSendable(s, es[0]);
      RunSendable(StepEvent(s, es[0]).sender, es[1..]);
      AppendBodies(StepEvent(s, es[0]).wanted, [], Run(StepEvent(s, es[0]).sender, es[1..]).wanted, []);
    }
  }

  lemma NothingWanted()
    ensures AllSendable([])
  {
  }

  lemma {:induction false} MediaAreSendable(ms: seq<Message>)
    requires AllSendable(ms)
    ensures AllSendable(MediaMessages(ms))
    decreases |ms|
  {
    if ms != [] {
      assert ms[0] in ms && forall m <- ms[1..] :: m in ms;
      MediaAreSendable(ms[1..]);
    }
  }

  lemma {:induction false} FramesSendable(es: seq<Event>, frames: seq<Frame>)
    requires forall f <- frames :: (f.media == VIDEO || f.media == AUDIO) && Sendable(|f.data|)
    requires MediaEvents(es) == FrameEvents(frames) && forall e <- es :: IsMedia(e) || SendableEvent(e)
    ensures forall e <- es :: SendableEvent(e)
  {
    forall e <- es | IsMedia(e)
      ensures SendableEvent(e)
    {
      MediaHas(es, e);
      FramesGive(frames, e);
    }
  }

  lemma {:induction false} MediaHas(es: seq<Event>, e: Event)
    requires e in es && IsMedia(e)
    ensures e in MediaEvents(es)
    decreases |es|
  {
    if e != es[0] {
      MediaHas(es[1..], e);
    }
  }

  lemma {:induction false} FramesGive(frames: seq<Frame>, e: Event)
    requires forall f <- frames :: (f.media == VIDEO || f.media == AUDIO) && Sendable(|f.data|)
    requires e in FrameEvents(frames)
    ensures SendableEvent(e)
    decreases |frames|
  {
    assert frames[0] in frames;
    if e !in EventsOf(frames[0]) {
      FramesGive(frames[1..], e);
    }
  }

  /** What the client of a session gets as sound and picture, whatever else is sent in between: exactly the frames
      of the channel, with their times and on their message stream, if and only if each has a length that is
      sent. `setup` is what has been sent before the client plays. */
  lemma {:induction false} ViewerReceives(setup: seq<Event>, play: seq<Event>, id: uint32, frames: seq<Frame>)
    requires AllValid(setup) && AllValid(play)
    requires MediaEvents(setup) == [] && Shows(RunOf(setup).sender, id) && forall e <- play :: Playing(e)
    requires MediaEvents(play) == FrameEvents(frames) && forall f <- frames :: f.media == VIDEO || f.media == AUDIO
    requires forall e <- setup + play :: IsMedia(e) || SendableEvent(e)
    ensures AllValid(setup + play)
    ensures
      var d := Decode(NEW_RECEIVER, RunOf(setup + play).bytes);
      && d.rest == []
      && (MediaMessages(d.messages) == FrameMessages(frames, id) <==> forall f <- frames :: Sendable(|f.data|))
  {
    hide Decode, StepEvent, Usable, Shows, Playing, IsMedia, SendableEvent, InStep, Coupled, SameBodies, MessagesOf,
      FrameMessages, FrameEvents, MediaEvents, MediaMessages, AllSendable, Run;
    ServerContext.SenderIsUsable();
    var es := setup + play;
    RunAppend(INITIAL_SENDER, setup, play);
    var s := RunOf(setup).sender;
    NoMediaWanted(INITIAL_SENDER, setup);
    MediaWanted(s, play, id);
    FramesAreMessages(frames, id);
    MediaMessagesAppend(RunOf(setup).wanted, Run(s, play).wanted);
    FramingHolds(es);
    MessagesRecovered(es);
    var d := Decode(NEW_RECEIVER, RunOf(es).bytes);
    if forall f <- frames :: Sendable(|f.data|) {
      assert forall e <- play :: e in es;
      FramesSendable(play, frames);
      SetupSendable(setup, play);
      RunSendable(INITIAL_SENDER, es);
    }
    if MediaMessages(d.messages) == FrameMessages(frames, id) {
      MediaAreSendable(d.messages);
      MessagesSendable(frames, id);
    }
  }

  lemma SetupSendable(setup: seq<Event>, play: seq<Event>)
    requires MediaEvents(setup) == [] && forall e <- setup + play :: IsMedia(e) || SendableEvent(e)
    requires forall e <- play :: SendableEvent(e)
    ensures forall e <- setup + play :: SendableEvent(e)
  {
    hide IsMedia, SendableEvent, MediaEvents;
    forall e <- setup
      ensures SendableEvent(e)
    {
      assert e in setup + play;
      if IsMedia(e) {
        MediaHas(setup, e);
      }
    }
  }

  lemma MessagesSendable(frames: seq<Frame>, id: uint32)
    requires AllSendable(FrameMessages(frames, id))
    ensures forall f <- frames :: Sendable(|f.data|)
  {
    forall f <- frames
      ensures Sendable(|f.data|)
    {
      var k :| 0 <= k < |frames| && frames[k] == f;
      assert FrameMessages(frames, id)[k] in FrameMessages(frames, id);
    }
  }

  /** From the sink to the client: what a client that plays decodes from the wire, behind the greeting, is sound and picture of exactly the snapshot and every frame after it, if and only if each frame
      has a length that is sent. The connection `es` was handed all that the session sent, none of its writes
      has failed, and all have ended. */
  lemma {:induction false} ClientReceivesWhatTheSinkGave(
      before: seq<RtmpSink.Event>, after: seq<RtmpSink.Event>, c: RtmpSink.Channel,
      setup: seq<Event>, play: seq<Event>, id: uint32,
      stream: seq<byte>, clock: Clock, es: seq<TcpConnection.Event>)
    requires RtmpSink.NoneAbout(after, c) && RtmpSink.Received(before, c) == []
    requires AllValid(setup) && AllValid(play)
    requires MediaEvents(setup) == [] && Shows(RunOf(setup).sender, id) && forall e <- play :: Playing(e)
    requires
      var ds := RtmpSink.Snapshot(before) + RtmpSink.Live(after);
      && (forall d <- ds :: d.ec == 0 && (d.frame.media == VIDEO || d.frame.media == AUDIO))
      && MediaEvents(play) == FrameEvents(RtmpSink.FramesOf(ds))
    requires forall e <- setup + play :: IsMedia(e) || SendableEvent(e)
    requires clock.Valid() && |stream| >= AFTER_C1 && AllValid(setup + play)
    requires
      && TcpConnection.IsRun(es) && TcpConnection.NoFailure(es)
      && Flatten(TcpConnection.Submitted(es)) == Replies(stream, clock) + RunOf(setup + play).bytes
      && TcpConnection.After(es).begun == TcpConnection.After(es).ended
    ensures
      var frames := RtmpSink.FramesOf(RtmpSink.Received(before + [RtmpSink.Join(c)] + after, c));
      var wire := TcpConnection.After(es).wire;
      && ReadGreeting(wire) ==
         Some(Greeting(3, clock.time1, 0, clock.random, FromBe32(stream[1..5]), clock.time2, stream[9..1537]))
      && |wire| >= 3073
      && var d := Decode(NEW_RECEIVER, wire[3073..]);
         && d.rest == []
         && (MediaMessages(d.messages) == FrameMessages(frames, id) <==> forall f <- frames :: Sendable(|f.data|))
  {
    hide RtmpSink.Received, RtmpSink.Member, RtmpSink.Snapshot, RtmpSink.Live, TcpConnection.After, TcpConnection.IsRun,
      Decode, Run, Shows, Playing, IsMedia, SendableEvent, MediaEvents, FrameEvents, MediaMessages, FrameMessages, Reply,
      ReadGreeting, FromBe32;
    RtmpSink.StepOfOneMore(before, RtmpSink.Join(c), c);
    RtmpSink.MembersSeeAll(before + [RtmpSink.Join(c)], after, c);
    var ds := RtmpSink.Snapshot(before) + RtmpSink.Live(after);
    assert [] + RtmpSink.Snapshot(before) == RtmpSink.Snapshot(before);
    var frames := RtmpSink.FramesOf(ds);
    TcpConnection.EverythingIsWritten(es);
    var reply := Replies(stream, clock);
    ClientReadsGreeting(stream, clock, RunOf(setup + play).bytes);
    assert (reply + RunOf(setup + play).bytes)[|reply|..] == RunOf(setup + play).bytes;
    assert forall k :: 0 <= k < |ds| ==> ds[k] in ds;
    ViewerReceives(setup, play, id, frames);
  }
}
