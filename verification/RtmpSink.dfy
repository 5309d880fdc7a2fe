/**
  The fan-out of one stream to its viewers: every channel is sent what a late joiner needs when it
  joins, and every frame from then on until it leaves. The steps run one at a time on one executor, in
  any order.
 */
module RtmpSink {
  import opened Bytes
  import opened Options
  import opened Frames

  /** The identity of a channel. */
  type Channel = nat

  /** What a channel is given: a frame, and an error code that is 0 when there is none. */
  datatype Delivery = Delivery(frame: Frame, ec: int)

  datatype Event = OnFrame(frame: Frame, ec: int) | Join(ch: Channel) | Leave(ch: Channel)

  // ---- What the frames are ----

  /** The byte after the first one of the payload tells a configuration from a coded frame. */
  predicate IsConfiguration(f: Frame) {
    |f.data| > 1 && f.data[1] == 0
  }

  predicate VideoConfigFrame(f: Frame) {
    f.media == VIDEO && IsConfiguration(f)
  }

  predicate AudioConfigFrame(f: Frame) {
    f.media == AUDIO && (f.codec == AAC || f.codec == OPUS) && IsConfiguration(f)
  }

  predicate CodedFrame(f: Frame) {
    f.media == VIDEO && !IsConfiguration(f)
  }

  /** Frames of which that byte is looked at have it. */
  predicate Tagged(f: Frame) {
    f.media == VIDEO || (f.media == AUDIO && (f.codec == AAC || f.codec == OPUS)) ==> |f.data| > 1
  }

  predicate IsVideoConfig(e: Event) {
    e.OnFrame? && e.ec == 0 && VideoConfigFrame(e.frame)
  }

  predicate IsAudioConfig(e: Event) {
    e.OnFrame? && e.ec == 0 && AudioConfigFrame(e.frame)
  }

  predicate IsCoded(e: Event) {
    e.OnFrame? && e.ec == 0 && CodedFrame(e.frame)
  }

  predicate IsKey(e: Event) {
    IsCoded(e) && e.frame.flag == 1
  }

  /** In terms of the tags a payload is (sections E.4.2.1 and E.4.3.1 of the FLV specification): the configuration of a
      video frame is its sequence header, packet type 0, and any other is a coded frame; that of an audio frame is the
      sequence header of AAC, sound format 10, or Opus, 13. */
  lemma {:induction false} ConfigurationExactlyWhen(f: Frame, first: byte, packetType: byte, body: seq<byte>)
    requires f.data == [first, packetType] + body
    ensures VideoConfigFrame(f) <==> f.media == 1 && packetType == 0
    ensures CodedFrame(f) <==> f.media == 1 && packetType != 0
    ensures
      f.codec == first / 16 * 16 ==>
        (AudioConfigFrame(f) <==> f.media == 2 && (first / 16 == 10 || first / 16 == 13) && packetType == 0)
  {
    assert f.data[1] == packetType;
  }

  // ---- What a history says ----

  /** The place of the last event of a kind, -1 when there is none. */
  function LastAt(h: seq<Event>, kind: Event -> bool): (i: int)
    ensures -1 <= i < |h|
    ensures i >= 0 ==> kind(h[i])
    ensures forall k :: i < k < |h| ==> !kind(h[k])
  {
    if h == [] then -1
    else if kind(h[|h| - 1]) then |h| - 1
    else LastAt(h[..|h| - 1], kind)
  }

  function Latest(h: seq<Event>, kind: Event -> bool): Option<Frame>
    requires forall e :: kind(e) ==> e.OnFrame?
  {
    var i := LastAt(h, kind);
    if i < 0 then None else Some(h[i].frame)
  }

  function LatestVideoConfig(h: seq<Event>): Option<Frame> {
    Latest(h, IsVideoConfig)
  }

  function LatestAudioConfig(h: seq<Event>): Option<Frame> {
    Latest(h, IsAudioConfig)
  }

  /** The coded video frames of a history, in order. */
  function Coded(h: seq<Event>): seq<Frame> {
    if h == [] then []
    else Coded(h[..|h| - 1]) + if IsCoded(h[|h| - 1]) then [h[|h| - 1].frame] else []
  }

  /** The coded video frames from the last key frame on. */
  function Gop(h: seq<Event>): seq<Frame> {
    var i := LastAt(h, IsKey);
    if i < 0 then [] else Coded(h[i..])
  }

  function Deliveries(frames: seq<Frame>): (ds: seq<Delivery>)
    ensures |ds| == |frames| && forall k :: 0 <= k < |ds| ==> ds[k] == Delivery(frames[k], 0)
  {
    seq(|frames|, k requires 0 <= k < |frames| => Delivery(frames[k], 0))
  }

  function FramesOf(ds: seq<Delivery>): (frames: seq<Frame>)
    ensures |frames| == |ds|
  {
    seq(|ds|, k requires 0 <= k < |ds| => ds[k].frame)
  }

  function Optional(f: Option<Frame>): seq<Delivery> {
    if f.Some? then [Delivery(f.value, 0)] else []
  }

  /** What a channel that joins now is sent at once. */
  function Snapshot(h: seq<Event>): seq<Delivery> {
    Optional(LatestVideoConfig(h)) + Optional(LatestAudioConfig(h)) + Deliveries(Gop(h))
  }

  predicate Member(h: seq<Event>, c: Channel) {
    h != [] && (h[|h| - 1] == Join(c) || (h[|h| - 1] != Leave(c) && Member(h[..|h| - 1], c)))
  }

  /** All that channel `c` is given along a history. */
  function Received(h: seq<Event>, c: Channel): seq<Delivery> {
    if h == [] then []
    else
      var before, e := h[..|h| - 1], h[|h| - 1];
      Received(before, c) +
        if e == Join(c) then Snapshot(before)
        else if e.OnFrame? && Member(before, c) then [Delivery(e.frame, e.ec)]
        else []
  }

  lemma {:induction false} LastOfOneMore(h: seq<Event>, e: Event, kind: Event -> bool)
    ensures LastAt(h + [e], kind) == if kind(e) then |h| else LastAt(h, kind)
  {
    assert (h + [e])[..|h|] == h;
  }

  lemma {:induction false} CodedOfOneMore(h: seq<Event>, e: Event)
    ensures Coded(h + [e]) == Coded(h) + if IsCoded(e) then [e.frame] else []
  {
    assert (h + [e])[..|h|] == h;
  }

  /** A key frame begins the cached frames anew; another coded frame is added to them if there are any. */
  lemma {:induction false} GopOfOneMore(h: seq<Event>, e: Event)
    ensures
      Gop(h + [e]) ==
      if IsKey(e) then [e.frame]
      else if IsCoded(e) && Gop(h) != [] then Gop(h) + [e.frame]
      else Gop(h)
  {
    hide IsCoded;
    LastOfOneMore(h, e, IsKey);
    var i := LastAt(h, IsKey);
    if IsKey(e) {
      assert (h + [e])[|h|..] == [] + [e];
      CodedOfOneMore([], e);
      KeyIsCoded(e);
    } else if i >= 0 {
      assert (h + [e])[i..] == h[i..] + [e];
      CodedOfOneMore(h[i..], e);
      GopBeginsWithKey(h);
    }
  }

  lemma {:induction false} KeyIsCoded(e: Event)
    ensures IsKey(e) ==> IsCoded(e)
  {
  }

  lemma {:induction false} CodedFirst(h: seq<Event>)
    requires h != [] && IsCoded(h[0])
    ensures Coded(h) != [] && Coded(h)[0] == h[0].frame
  {
    if |h| > 1 {
      CodedFirst(h[..|h| - 1]);
    }
  }

  /** What a late joiner is sent begins with a key frame, if anything coded is sent. */
  lemma {:induction false} GopBeginsWithKey(h: seq<Event>)
    ensures LastAt(h, IsKey) >= 0 <==> Gop(h) != []
    ensures Gop(h) != [] ==> CodedFrame(Gop(h)[0]) && Gop(h)[0].flag == 1
  {
    var i := LastAt(h, IsKey);
    if i >= 0 {
      assert h[i..][0] == h[i];
      CodedFirst(h[i..]);
    }
  }

  lemma {:induction false} StepOfOneMore(h: seq<Event>, e: Event, c: Channel)
    ensures Member(h + [e], c) == (e == Join(c) || (e != Leave(c) && Member(h, c)))
    ensures
      Received(h + [e], c) == Received(h, c) +
        if e == Join(c) then Snapshot(h)
        else if e.OnFrame? && Member(h, c) then [Delivery(e.frame, e.ec)]
        else []
  {
    assert (h + [e])[..|h|] == h;
  }

  // ---- The sink ----

  class Sink {
    var chs: set<Channel>
    var videoConfig: Option<Frame>
    var audioConfig: Option<Frame>
    var gopCache: seq<Frame>
    /** All steps so far, and what each channel has been given. */
    ghost var history: seq<Event>
    ghost var received: Channel -> seq<Delivery>

    /** The state and all that was sent are functions of the history. */
    ghost predicate Valid()
      reads this
    {
      && (forall c :: c in chs <==> Member(history, c))
      && videoConfig == LatestVideoConfig(history)
      && audioConfig == LatestAudioConfig(history)
      && gopCache == Gop(history)
      && forall c :: received(c) == Received(history, c)
    }

    constructor ()
      ensures Valid() && history == []
    {
      chs, videoConfig, audioConfig, gopCache := {}, None, None, [];
      history, received := [], _ => [];
    }

    /** `channel::write`: one channel is given a frame. */
    method Write(ch: Channel, frame: Frame, ec: int)
      modifies `received
      ensures received(ch) == old(received)(ch) + [Delivery(frame, ec)]
      ensures forall c :: c != ch ==> received(c) == old(received)(c)
    {
      ghost var before := received;
      received := (c: Channel) => if c == ch then before(c) + [Delivery(frame, ec)] else before(c);
    }

    method WriteAll(frame: Frame, ec: int)
      modifies `received
      ensures forall c :: received(c) == old(received)(c) + if c in chs then [Delivery(frame, ec)] else []
    {
      var todo := chs;
      while todo != {}
        invariant todo <= chs
        invariant forall c :: received(c) == old(received)(c) + if c in chs - todo then [Delivery(frame, ec)] else []
        decreases |todo|
      {
        var ch :| ch in todo;
        Write(ch, frame, ec);
        todo := todo - {ch};
      }
    }

    method OnVideoFrame(frame: Frame)
      requires frame.media == VIDEO && |frame.data| > 1
      modifies `videoConfig, `gopCache
      ensures videoConfig == if VideoConfigFrame(frame) then Some(frame) else old(videoConfig)
      ensures
        gopCache ==
        if VideoConfigFrame(frame) then old(gopCache)
        else if frame.flag == 1 then [frame]
        else if old(gopCache) != [] then old(gopCache) + [frame]
        else []
    {
      if frame.data[1] == 0 {
        videoConfig := Some(frame);
        return;
      }
      if frame.flag == 1 {
        gopCache := [];
        gopCache := gopCache + [frame];
        return;
      }
      if gopCache != [] {
        gopCache := gopCache + [frame];
      }
    }

    method OnAudioFrame(frame: Frame)
      requires frame.media == AUDIO && Tagged(frame)
      modifies `audioConfig
      ensures audioConfig == if AudioConfigFrame(frame) then Some(frame) else old(audioConfig)
    {
      if (frame.codec == AAC || frame.codec == OPUS) && frame.data[1] == 0 {
        audioConfig := Some(frame);
      }
    }

    method OnFrame(frame: Frame, ec: int)
      requires Valid() && (ec == 0 ==> Tagged(frame))
      modifies this
      ensures Valid() && history == old(history) + [Event.OnFrame(frame, ec)]
    {
      hide Snapshot, Gop, Latest, Received, Member, IsKey, IsCoded, IsVideoConfig, IsAudioConfig, Tagged;
      ghost var e := Event.OnFrame(frame, ec);
      Kinds(frame, ec);
      if ec == 0 {
        if frame.media == VIDEO {
          OnVideoFrame(frame);
        } else if frame.media == AUDIO {
          OnAudioFrame(frame);
        }
      }
      WriteAll(frame, ec);
      forall c
        ensures c in chs <==> Member(history + [e], c)
        ensures received(c) == Received(history + [e], c)
      {
        StepOfOneMore(history, e, c);
      }
      GopOfOneMore(history, e);
      LatestOfOneMore(history, e);
      history := history + [e];
    }

    /** The frames cached since the last key frame, in order. */
    method WriteCache(ch: Channel)
      modifies `received
      ensures received(ch) == old(received)(ch) + Deliveries(gopCache)
      ensures forall c :: c != ch ==> received(c) == old(received)(c)
    {
      var k := 0;
      while k < |gopCache|
        invariant k <= |gopCache|
        invariant received(ch) == old(received)(ch) + Deliveries(gopCache)[..k]
        invariant forall c :: c != ch ==> received(c) == old(received)(c)
        modifies `received
      {
        Write(ch, gopCache[k], 0);
        k := k + 1;
      }
      assert Deliveries(gopCache)[..k] == Deliveries(gopCache);
    }

    method SafeAddChannel(ch: Channel)
      requires Valid()
      modifies this
      ensures Valid() && history == old(history) + [Join(ch)]
    {
      hide Gop, Latest, Received, Member, Deliveries;
      ghost var e := Join(ch);
      if videoConfig.Some? {
        Write(ch, videoConfig.value, 0);
      }
      if audioConfig.Some? {
        Write(ch, audioConfig.value, 0);
      }
      WriteCache(ch);
      assert received(ch) == old(received)(ch) + Snapshot(history);
      chs := chs + {ch};
      forall c
        ensures c in chs <==> Member(history + [e], c)
        ensures received(c) == Received(history + [e], c)
      {
        StepOfOneMore(history, e, c);
      }
      GopOfOneMore(history, e);
      LatestOfOneMore(history, e);
      history := history + [e];
    }

    method SafeDelChannel(ch: Channel)
      requires Valid()
      modifies this
      ensures Valid() && history == old(history) + [Leave(ch)]
    {
      hide Gop, Latest, Received, Member;
      ghost var e := Leave(ch);
      chs := chs - {ch};
      forall c
        ensures c in chs <==> Member(history + [e], c)
        ensures received(c) == Received(history + [e], c)
      {
        StepOfOneMore(history, e, c);
      }
      GopOfOneMore(history, e);
      LatestOfOneMore(history, e);
      history := history + [e];
    }
  }

  lemma {:induction false} Kinds(f: Frame, ec: int)
    ensures
      var e := OnFrame(f, ec);
      && (IsVideoConfig(e) <==> ec == 0 && VideoConfigFrame(f))
      && (IsAudioConfig(e) <==> ec == 0 && AudioConfigFrame(f))
      && (IsCoded(e) <==> ec == 0 && CodedFrame(f))
      && (IsKey(e) <==> ec == 0 && CodedFrame(f) && f.flag == 1)
      && (f.media == VIDEO && Tagged(f) ==> |f.data| > 1)
  {
  }

  lemma {:induction false} LatestOfOneMore(h: seq<Event>, e: Event)
    ensures LatestVideoConfig(h + [e]) == if IsVideoConfig(e) then Some(e.frame) else LatestVideoConfig(h)
    ensures LatestAudioConfig(h + [e]) == if IsAudioConfig(e) then Some(e.frame) else LatestAudioConfig(h)
  {
    LastOfOneMore(h, e, IsVideoConfig);
    LastOfOneMore(h, e, IsAudioConfig);
  }

  // ---- What a viewer sees ----

  /** All frames that are passed on along a history, with the errors. */
  function Live(h: seq<Event>): seq<Delivery> {
    if h == [] then []
    else
      var e := h[|h| - 1];
      Live(h[..|h| - 1]) + if e.OnFrame? then [Delivery(e.frame, e.ec)] else []
  }

  predicate IsAbout(e: Event, c: Channel) {
    e == Join(c) || e == Leave(c)
  }

  predicate NoneAbout(h: seq<Event>, c: Channel) {
    forall k :: 0 <= k < |h| ==> !IsAbout(h[k], c)
  }

  /** A member that neither leaves nor joins again is given every frame, once and in order; a channel that
      is not a member nothing. */
  lemma {:induction false} MembersSeeAll(before: seq<Event>, after: seq<Event>, c: Channel)
    requires NoneAbout(after, c)
    ensures Member(before + after, c) <==> Member(before, c)
    ensures Received(before + after, c) == Received(before, c) + if Member(before, c) then Live(after) else []
  {
    hide Received, Member, Snapshot;
    if after == [] {
      assert before + after == before;
    } else {
      var shorter, e := after[..|after| - 1], after[|after| - 1];
      assert before + after == (before + shorter) + [e];
      assert !IsAbout(e, c);
      MembersSeeAll(before, shorter, c);
      StepOfOneMore(before + shorter, e, c);
    }
  }

  /** A channel that joins is given the latest configurations, the frames since the last key frame, and
      then every frame; after it has left, nothing, until it joins again. */
  lemma {:induction false} JoinerSees(before: seq<Event>, after: seq<Event>, gone: seq<Event>, c: Channel)
    requires NoneAbout(after, c) && NoneAbout(gone, c)
    ensures
      Received(before + [Join(c)] + after + [Leave(c)] + gone, c) ==
      Received(before, c)
      + Optional(LatestVideoConfig(before)) + Optional(LatestAudioConfig(before)) + Deliveries(Gop(before))
      + Live(after)
  {
    hide Received, Member, LatestVideoConfig, LatestAudioConfig, Gop, Live, Deliveries, Optional, NoneAbout;
    var joined := before + [Join(c)];
    StepOfOneMore(before, Join(c), c);
    assert Received(joined, c) == Received(before, c) + Snapshot(before);
    MembersSeeAll(joined, after, c);
    assert Received(joined + after, c) == Received(before, c) + Snapshot(before) + Live(after);
    StepOfOneMore(joined + after, Leave(c), c);
    MembersSeeAll(joined + after + [Leave(c)], gone, c);
    JoinWithSnapshot(Received(before, c), before, Live(after));
  }

  lemma {:induction false} JoinWithSnapshot(a: seq<Delivery>, h: seq<Event>, b: seq<Delivery>)
    ensures
      a + Snapshot(h) + b ==
      a + Optional(LatestVideoConfig(h)) + Optional(LatestAudioConfig(h)) + Deliveries(Gop(h)) + b
  {
    hide LatestVideoConfig, LatestAudioConfig, Gop, Deliveries, Optional;
  }

  /** The coded video frames among deliveries. */
  predicate IsCodedDelivery(d: Delivery) {
    d.ec == 0 && CodedFrame(d.frame)
  }

  function CodedOf(ds: seq<Delivery>): seq<Frame> {
    if ds == [] then []
    else CodedOf(ds[..|ds| - 1]) + if IsCodedDelivery(ds[|ds| - 1]) then [ds[|ds| - 1].frame] else []
  }

  lemma {:induction false} CodedOfAppend(a: seq<Delivery>, b: seq<Delivery>)
    ensures CodedOf(a + b) == CodedOf(a) + CodedOf(b)
  {
    if b == [] {
      assert a + b == a;
    } else {
      assert (a + b)[..|a + b| - 1] == a + b[..|b| - 1];
      CodedOfAppend(a, b[..|b| - 1]);
    }
  }

  lemma {:induction false} CodedOfLive(h: seq<Event>)
    ensures CodedOf(Live(h)) == Coded(h)
  {
    if h != [] {
      var before, e := h[..|h| - 1], h[|h| - 1];
      CodedOfLive(before);
      if e.OnFrame? {
        var d := Delivery(e.frame, e.ec);
        assert Live(h) == Live(before) + [d];
        CodedOfAppend(Live(before), [d]);
        assert CodedOf([d]) == if IsCodedDelivery(d) then [e.frame] else [];
      } else {
        assert Live(h) == Live(before);
      }
    }
  }

  lemma {:induction false} AllCoded(h: seq<Event>)
    ensures forall f :: f in Coded(h) ==> CodedFrame(f)
  {
    if h != [] {
      AllCoded(h[..|h| - 1]);
    }
  }

  lemma {:induction false} CodedOfCoded(frames: seq<Frame>)
    requires forall f :: f in frames ==> CodedFrame(f)
    ensures CodedOf(Deliveries(frames)) == frames
  {
    if frames != [] {
      var shorter := frames[..|frames| - 1];
      CodedOfCoded(shorter);
      assert Deliveries(frames)[..|frames| - 1] == Deliveries(shorter);
      assert frames[|frames| - 1] in frames;
      assert frames == shorter + [frames[|frames| - 1]];
    }
  }

  lemma {:induction false} CodedAppend(a: seq<Event>, b: seq<Event>)
    ensures Coded(a + b) == Coded(a) + Coded(b)
  {
    if b == [] {
      assert a + b == a;
    } else {
      assert (a + b)[..|a + b| - 1] == a + b[..|b| - 1];
      CodedAppend(a, b[..|b| - 1]);
    }
  }

  lemma {:induction false} CodedOfSnapshot(h: seq<Event>)
    ensures CodedOf(Snapshot(h)) == Gop(h)
  {
    hide Gop;
    var v, a := LatestVideoConfig(h), LatestAudioConfig(h);
    GopIsCoded(h);
    CodedOfCoded(Gop(h));
    CodedOfAppend(Optional(v) + Optional(a), Deliveries(Gop(h)));
    CodedOfAppend(Optional(v), Optional(a));
  }

  lemma {:induction false} GopIsCoded(h: seq<Event>)
    ensures forall f :: f in Gop(h) ==> CodedFrame(f)
  {
    var i := LastAt(h, IsKey);
    if i >= 0 {
      AllCoded(h[i..]);
    }
  }

  /** What a channel that joined for the first time has been given of coded frames. */
  lemma {:induction false} LateCoded(before: seq<Event>, after: seq<Event>, c: Channel)
    requires NoneAbout(after, c) && Received(before, c) == []
    ensures CodedOf(Received(before + [Join(c)] + after, c)) == Gop(before) + Coded(after)
  {
    hide Gop, Received, Snapshot, Coded, CodedOf, Member;
    StepOfOneMore(before, Join(c), c);
    MembersSeeAll(before + [Join(c)], after, c);
    CodedOfSnapshot(before);
    CodedOfLive(after);
    assert Received(before + [Join(c)] + after, c) == Snapshot(before) + Live(after);
    CodedOfAppend(Snapshot(before), Live(after));
  }

  /** What a member has been given of coded frames. */
  lemma {:induction false} EarlyCoded(h: seq<Event>, rest: seq<Event>, e: Channel)
    requires Member(h, e) && NoneAbout(rest, e)
    ensures CodedOf(Received(h + rest, e)) == CodedOf(Received(h, e)) + Coded(rest)
  {
    hide Received, Coded, CodedOf, Member;
    MembersSeeAll(h, rest, e);
    CodedOfLive(rest);
    CodedOfAppend(Received(h, e), Live(rest));
  }

  predicate IsSuffix(s: seq<Frame>, of: seq<Frame>) {
    |s| <= |of| && of[|of| - |s|..] == s
  }

  /** What a late joiner `c` has missed of what an early viewer `e` was given. */
  lemma {:induction false} JoinerMissed(h: seq<Event>, watched: seq<Event>, after: seq<Event>, e: Channel, c: Channel)
      returns (missed: seq<Frame>)
    requires Member(h, e) && e != c && NoneAbout(watched, e) && NoneAbout(after, e) && NoneAbout(after, c)
    requires LastAt(h + watched, IsKey) >= |h|
    requires Received(h + watched, c) == []
    ensures
      var all := h + watched + [Join(c)] + after;
      var late := CodedOf(Received(all, c));
      CodedOf(Received(all, e)) == missed + late && late != [] && late[0].flag == 1
  {
    hide Gop, Received, Coded, CodedOf, Member;
    var before := h + watched;
    LateCoded(before, after, c);
    var rest := watched + [Join(c)] + after;
    EarlyCoded(h, rest, e);
    assert before + [Join(c)] + after == h + rest;
    CodedAppend(watched + [Join(c)], after);
    CodedOfOneMore(watched, Join(c));
    var i := LastAt(before, IsKey);
    var split := i - |h|;
    assert watched == watched[..split] + watched[split..];
    CodedAppend(watched[..split], watched[split..]);
    GopFrom(before, i);
    assert before[i..] == watched[split..];
    GopBeginsWithKey(before);
    missed := CodedOf(Received(h, e)) + Coded(watched[..split]);
  }

  /** A late joiner catches up with an early viewer: from a key frame on, both are given the same coded
      video frames. The early viewer `e` has been there since before that key frame. */
  lemma {:induction false} JoinerCatchesUp(h: seq<Event>, watched: seq<Event>, after: seq<Event>, e: Channel, c: Channel)
    requires Member(h, e) && e != c && NoneAbout(watched, e) && NoneAbout(after, e) && NoneAbout(after, c)
    requires LastAt(h + watched, IsKey) >= |h|
    requires Received(h + watched, c) == []
    ensures
      var all := h + watched + [Join(c)] + after;
      var late := CodedOf(Received(all, c));
      IsSuffix(late, CodedOf(Received(all, e))) && late != [] && late[0].flag == 1
  {
    hide Received, CodedOf, Member;
    var missed := JoinerMissed(h, watched, after, e, c);
  }

  lemma {:induction false} GopFrom(h: seq<Event>, i: nat)
    requires LastAt(h, IsKey) == i
    ensures Gop(h) == Coded(h[i..])
  {
  }

  // ---- Configurations come first ----

  /** The last video configuration among deliveries: the one a viewer decodes with. */
  function HeaderHeld(ds: seq<Delivery>): Option<Frame> {
    if ds == [] then None
    else
      var d := ds[|ds| - 1];
      if d.ec == 0 && VideoConfigFrame(d.frame) then Some(d.frame) else HeaderHeld(ds[..|ds| - 1])
  }

  /** No coded video frame comes before a configuration. */
  predicate HeaderFirst(ds: seq<Delivery>) {
    forall k :: 0 <= k < |ds| && IsCodedDelivery(ds[k]) ==> HeaderHeld(ds[..k]).Some?
  }

  predicate HistoryHeaderFirst(h: seq<Event>) {
    forall k :: 0 <= k < |h| && IsCoded(h[k]) ==> LatestVideoConfig(h[..k]).Some?
  }

  lemma {:induction false} HeldAppend(a: seq<Delivery>, b: seq<Delivery>)
    ensures HeaderHeld(a + b) == if HeaderHeld(b).Some? then HeaderHeld(b) else HeaderHeld(a)
  {
    if b == [] {
      assert a + b == a;
    } else {
      assert (a + b)[..|a + b| - 1] == a + b[..|b| - 1];
      HeldAppend(a, b[..|b| - 1]);
    }
  }

  lemma {:induction false} CodedHoldNoHeader(frames: seq<Frame>)
    requires forall f :: f in frames ==> CodedFrame(f)
    ensures HeaderHeld(Deliveries(frames)) == None
  {
    if frames != [] {
      var shorter := frames[..|frames| - 1];
      CodedHoldNoHeader(shorter);
      assert Deliveries(frames)[..|frames| - 1] == Deliveries(shorter);
      assert frames[|frames| - 1] in frames;
    }
  }

  /** What a joiner is sent first is the configuration in force. */
  lemma {:induction false} SnapshotHolds(h: seq<Event>)
    ensures HeaderHeld(Snapshot(h)) == LatestVideoConfig(h)
  {
    hide Gop;
    var v, a := LatestVideoConfig(h), LatestAudioConfig(h);
    GopIsCoded(h);
    CodedHoldNoHeader(Gop(h));
    HeldAppend(Optional(v) + Optional(a), Deliveries(Gop(h)));
    HeldAppend(Optional(v), Optional(a));
    LatestIsConfig(h);
  }

  lemma {:induction false} LatestIsConfig(h: seq<Event>)
    ensures
      var v, a := LatestVideoConfig(h), LatestAudioConfig(h);
      (v.Some? ==> VideoConfigFrame(v.value)) && (a.Some? ==> AudioConfigFrame(a.value))
  {
  }

  /** A member always holds the configuration in force, so that every frame it is given as it arrives is
      one it can decode. */
  lemma {:induction false} MembersHoldCurrent(h: seq<Event>, c: Channel)
    requires Member(h, c) && LatestVideoConfig(h).Some?
    ensures HeaderHeld(Received(h, c)) == LatestVideoConfig(h)
  {
    hide Snapshot, LatestVideoConfig, HeaderHeld, IsVideoConfig;
    var before, e := h[..|h| - 1], h[|h| - 1];
    assert h == before + [e];
    StepOfOneMore(before, e, c);
    LatestOfOneMore(before, e);
    if e == Join(c) {
      HeldAppend(Received(before, c), Snapshot(before));
      SnapshotHolds(before);
      ConfigIsFrame(e);
    } else if e.OnFrame? {
      var d := Delivery(e.frame, e.ec);
      HeldAppend(Received(before, c), [d]);
      HeldOne(d, e);
      if !IsVideoConfig(e) {
        MembersHoldCurrent(before, c);
      }
    } else {
      ConfigIsFrame(e);
      MembersHoldCurrent(before, c);
      assert Received(h, c) == Received(before, c);
    }
  }

  lemma {:induction false} ConfigIsFrame(e: Event)
    ensures IsVideoConfig(e) || IsCoded(e) ==> e.OnFrame?
  {
  }

  lemma {:induction false} HeldOne(d: Delivery, e: Event)
    requires e == OnFrame(d.frame, d.ec)
    ensures HeaderHeld([d]) == if IsVideoConfig(e) then Some(e.frame) else None
  {
    assert [d][..0] == [];
  }

  lemma {:induction false} HeaderFirstAppend(a: seq<Delivery>, b: seq<Delivery>)
    requires HeaderFirst(a)
    requires HeaderHeld(a).Some? || HeaderFirst(b)
    ensures HeaderFirst(a + b)
  {
    hide IsCodedDelivery, HeaderHeld;
    var ds := a + b;
    forall k | 0 <= k < |ds| && IsCodedDelivery(ds[k])
      ensures HeaderHeld(ds[..k]).Some?
    {
      if k < |a| {
        assert ds[..k] == a[..k];
      } else {
        assert ds[..k] == a + b[..k - |a|];
        HeldAppend(a, b[..k - |a|]);
      }
    }
  }

  lemma {:induction false} NothingCodedBefore(h: seq<Event>)
    requires HistoryHeaderFirst(h) && LatestVideoConfig(h).None?
    ensures Gop(h) == []
  {
    hide IsCoded;
    var i := LastAt(h, IsKey);
    if i >= 0 {
      KeyIsCoded(h[i]);
      var j := LastAt(h[..i], IsVideoConfig);
    }
  }

  lemma {:induction false} SnapshotHeaderFirst(h: seq<Event>)
    requires HistoryHeaderFirst(h)
    ensures HeaderFirst(Snapshot(h))
  {
    hide Gop, HeaderHeld, LatestVideoConfig, LatestAudioConfig, HistoryHeaderFirst;
    var v, a := Optional(LatestVideoConfig(h)), Optional(LatestAudioConfig(h));
    LatestIsConfig(h);
    HeaderFirstAppend(v, a);
    assert HeaderFirst(v + a);
    if LatestVideoConfig(h).Some? {
      HeldConfigs(h);
      HeaderFirstAppend(v + a, Deliveries(Gop(h)));
    } else {
      NothingCodedBefore(h);
      assert v + a + Deliveries(Gop(h)) == v + a;
    }
  }

  lemma {:induction false} HeldConfigs(h: seq<Event>)
    requires LatestVideoConfig(h).Some?
    ensures HeaderHeld(Optional(LatestVideoConfig(h)) + Optional(LatestAudioConfig(h))).Some?
  {
    hide LatestVideoConfig, LatestAudioConfig;
    LatestIsConfig(h);
    HeldAppend(Optional(LatestVideoConfig(h)), Optional(LatestAudioConfig(h)));
  }

  /** If configurations come first in what the encoder puts out, they come first for every channel,
      whenever it joins. */
  lemma {:induction false} HeadersComeFirst(h: seq<Event>, c: Channel)
    requires HistoryHeaderFirst(h)
    ensures HeaderFirst(Received(h, c))
  {
    hide Snapshot, LatestVideoConfig, HeaderHeld, IsCoded, IsCodedDelivery;
    if h != [] {
      var before, e := h[..|h| - 1], h[|h| - 1];
      assert h == before + [e];
      assert HistoryHeaderFirst(before) by {
        forall k | 0 <= k < |before| && IsCoded(before[k])
          ensures LatestVideoConfig(before[..k]).Some?
        {
          assert before[..k] == h[..k] && before[k] == h[k];
        }
      }
      HeadersComeFirst(before, c);
      StepOfOneMore(before, e, c);
      if e == Join(c) {
        SnapshotHeaderFirst(before);
        HeaderFirstAppend(Received(before, c), Snapshot(before));
      } else if e.OnFrame? && Member(before, c) {
        var d := Delivery(e.frame, e.ec);
        if IsCoded(e) {
          MembersHoldCurrent(before, c);
        } else {
          NotCoded(d, e);
        }
        HeaderFirstAppend(Received(before, c), [d]);
      } else {
        assert Received(h, c) == Received(before, c);
      }
    }
  }

  lemma {:induction false} NotCoded(d: Delivery, e: Event)
    requires e == OnFrame(d.frame, d.ec) && !IsCoded(e)
    ensures HeaderFirst([d])
  {
  }
}
