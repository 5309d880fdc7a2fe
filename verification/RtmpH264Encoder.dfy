/**
  The encoder that feeds the sink: access units in start-code form become the payloads of FLV video
  tags, a sequence header before everything else. The conversion itself and the decoder configuration
  record are the work of a library; what it returns is part of the input.
 */
module RtmpH264Encoder {
  import opened Bytes
  import opened Options
  import opened Frames
  import opened RtmpSink

  const SEQUENCE_HEADER: byte := 0
  const AVPACKET: byte := 1
  const VIDEO_TAG_SIZE := 5
  const BUFFER_SIZE := 4096

  /** What `h264_annexbtomp4` returns: the converted bytes, the kind of the access unit (0 no picture, 1
      IDR, 2 other), whether the parameter sets changed, and how many there are. */
  datatype Conversion = Conversion(ret: int, bytes: seq<byte>, vcl: int, update: int, nbSps: nat, nbPps: nat) {
    predicate Valid() {
      ret > 0 ==> |bytes| == ret
    }

    /** New parameter sets, of which a sequence header can be made. */
    predicate NewHeader() {
      update != 0 && nbSps > 0 && nbPps > 0
    }
  }

  /** What `mpeg4_avc_decoder_configuration_record_save` returns. */
  datatype Record = Record(ret: int, bytes: seq<byte>) {
    predicate Valid() {
      ret > 0 ==> |bytes| == ret <= BUFFER_SIZE - VIDEO_TAG_SIZE
    }
  }

  datatype Input = Input(frame: Frame, ec: int, lib: Conversion, record: Record) {
    predicate Valid() {
      lib.Valid() && record.Valid()
    }

    /** The library has converted the access unit and, where one is due, made the record. */
    predicate Usable() {
      ec == 0 && lib.ret > 0 && (lib.NewHeader() ==> record.ret > 0)
    }

    function Header(): Frame {
      Frame([0x17, SEQUENCE_HEADER, 0, 0, 0] + record.bytes, VIDEO, H264, 1, frame.pts, frame.dts)
    }

    function Picture(): Frame {
      Frame([if lib.vcl == 1 then 0x17 else 0x27, AVPACKET, 0, 0, 0] + lib.bytes, VIDEO, H264,
            if lib.vcl == 1 then 1 else 0, frame.pts, frame.dts)
    }
  }

  lemma {:induction false} FramesAreTagged(input: Input)
    ensures Tagged(input.Header()) && Tagged(input.Picture())
  {
  }

  /** Whether a sequence header has been put out after `in`. */
  function HeaderAfter(header: bool, input: Input): bool {
    header || (input.Usable() && input.lib.NewHeader())
  }

  /** What is put out for `input`: errors as they are; a sequence header for new parameter sets; a picture
      once there has been a sequence header. */
  function Emits(header: bool, input: Input): seq<Event> {
    if input.ec != 0 then [OnFrame(input.frame, input.ec)]
    else if !input.Usable() then []
    else
      (if input.lib.NewHeader() then [OnFrame(input.Header(), 0)] else [])
      + if input.lib.vcl != 0 && HeaderAfter(header, input) then [OnFrame(input.Picture(), 0)] else []
  }

  class H264Encoder {
    const sink: Sink
    var vcl: int
    var update: int
    var nbSps: nat
    var nbPps: nat
    var videoSequenceHeader: bool

    constructor (sink: Sink)
      ensures this.sink == sink && !videoSequenceHeader
    {
      this.sink := sink;
      vcl, update, nbSps, nbPps, videoSequenceHeader := 0, 0, 0, 0, false;
    }

    method Write(input: Input)
      requires sink.Valid() && input.Valid()
      modifies this, sink
      ensures sink.Valid()
      ensures videoSequenceHeader == HeaderAfter(old(videoSequenceHeader), input)
      ensures sink.history == old(sink.history) + Emits(old(videoSequenceHeader), input)
    {
      hide Sink.Valid, Input.Header, Input.Picture;
      FramesAreTagged(input);
      if input.ec != 0 {
        sink.OnFrame(input.frame, input.ec);
        return;
      }
      vcl, update, nbSps, nbPps := input.lib.vcl, input.lib.update, input.lib.nbSps, input.lib.nbPps;
      if input.lib.ret <= 0 {
        return;
      }
      ghost var first: seq<Event> := if input.lib.NewHeader() then [OnFrame(input.Header(), 0)] else [];
      if update != 0 && nbSps > 0 && nbPps > 0 {
        if input.record.ret <= 0 {
          return;
        }
        var config := BuildConfig(input);
        videoSequenceHeader := true;
        sink.OnFrame(config, 0);
      }
      assert sink.history == old(sink.history) + first && first + [] == first;
      if vcl != 0 && videoSequenceHeader {
        var encodeFrame := BuildPicture(input);
        sink.OnFrame(encodeFrame, 0);
      }
    }

    /** The sequence header, with the record the library has made. */
    static method BuildConfig(input: Input) returns (f: Frame)
      ensures f == input.Header()
    {
      var tag := TagBytes(1, SEQUENCE_HEADER);
      f := BuildFrame(tag + input.record.bytes, input.frame, 1);
    }

    /** The picture: the tag, and the access unit the library has converted. */
    static method BuildPicture(input: Input) returns (f: Frame)
      ensures f == input.Picture()
    {
      var keyframe: nat := if input.lib.vcl == 1 then 1 else 2;
      var tag := TagBytes(keyframe, AVPACKET);
      var avcFrame := BuildFrame(input.lib.bytes, input.frame, 0);
      var headerFrame := BuildFrame(tag, input.frame, 0);
      var encodeFrame := new FrameBuffer();
      encodeFrame.AppendFrame(headerFrame);
      encodeFrame.AppendFrame(avcFrame);
      encodeFrame.flag := if keyframe == 1 then 1 else 0;
      f := encodeFrame.Value();
    }

    /** The five bytes before the data of a video tag: frame type and codec, packet type, composition
        time 0. */
    static method TagBytes(frameType: nat, packetType: byte) returns (tag: seq<byte>)
      requires frameType < 16
      ensures tag == [frameType * 16 + H264, packetType, 0, 0, 0]
    {
      tag := [frameType * 16 + H264, packetType, 0, 0, 0];
    }

    static method BuildFrame(data: seq<byte>, times: Frame, flag: int) returns (f: Frame)
      ensures f == Frame(data, VIDEO, H264, flag, times.pts, times.dts)
    {
      var buffer := new FrameBuffer();
      buffer.Append(data);
      buffer.pts, buffer.dts := times.pts, times.dts;
      buffer.codec, buffer.media, buffer.flag := H264, VIDEO, flag;
      f := buffer.Value();
    }
  }

  // ---- Reading the payloads (E.4.3.1 of the FLV specification) ----

  /** The payload of a video tag. */
  datatype VideoTag = VideoTag(frameType: nat, codecId: nat, packetType: byte, compositionTime: nat, body: seq<byte>)

  function ReadVideoTag(data: seq<byte>): Option<VideoTag> {
    if |data| < 5 then None
    else Some(VideoTag(data[0] / 16, data[0] % 16, data[1], FromBe24(data[2..5]), data[5..]))
  }

  /** The two kinds of frames read back: a sequence header holds the record, and a picture the converted access unit,
      as a key frame exactly for an IDR picture and as an inter frame otherwise. */
  lemma {:induction false} PayloadsReadBack(input: Input)
    ensures
      var f := input.Header();
      && ReadVideoTag(f.data) == Some(VideoTag(1, 7, 0, 0, input.record.bytes))
      && f.media == 1 && f.codec == 7 && f.flag == 1 && f.pts == input.frame.pts && f.dts == input.frame.dts
    ensures
      var f := input.Picture();
      && ReadVideoTag(f.data) == Some(VideoTag(if input.lib.vcl == 1 then 1 else 2, 7, 1, 0, input.lib.bytes))
      && f.media == 1 && f.codec == 7 && f.flag == (if input.lib.vcl == 1 then 1 else 0)
      && f.pts == input.frame.pts && f.dts == input.frame.dts
  {
    var f, g := input.Header(), input.Picture();
    assert f.data[5..] == input.record.bytes && f.data[2..5] == [0, 0, 0];
    assert g.data[5..] == input.lib.bytes && g.data[2..5] == [0, 0, 0];
  }

  // ---- Encoder and sink together ----

  /** A step of the two: an input of the encoder, or any other step of the sink. */
  datatype Step = Encode(input: Input) | Other(event: Event)

  /** Other steps put no video frames into the sink: those come from the encoder. */
  predicate Proper(s: Step) {
    match s
    case Encode(input) => input.Valid()
    case Other(e) => e.OnFrame? && e.ec == 0 ==> e.frame.media != VIDEO
  }

  /** The state of the encoder and the history of the sink after a run. */
  function Run(steps: seq<Step>): (bool, seq<Event>) {
    if steps == [] then (false, [])
    else
      var (header, h) := Run(steps[..|steps| - 1]);
      match steps[|steps| - 1]
      case Encode(input) => (HeaderAfter(header, input), h + Emits(header, input))
      case Other(e) => (header, h + [e])
  }

  /** One more event: a configuration, or something that is none but keeps to the order. */
  lemma {:induction false} OneMore(h: seq<Event>, e: Event)
    requires HistoryHeaderFirst(h) && (IsCoded(e) ==> LatestVideoConfig(h).Some?)
    ensures HistoryHeaderFirst(h + [e])
    ensures LatestVideoConfig(h + [e]).Some? <==> IsVideoConfig(e) || LatestVideoConfig(h).Some?
  {
    hide IsCoded, LatestVideoConfig, IsVideoConfig;
    LatestOfOneMore(h, e);
    var h' := h + [e];
    forall k | 0 <= k < |h'| && IsCoded(h'[k])
      ensures LatestVideoConfig(h'[..k]).Some?
    {
      assert h'[..k] == if k < |h| then h[..k] else h;
    }
  }

  lemma {:induction false} EmitsInOrder(h: seq<Event>, header: bool, input: Input)
    requires HistoryHeaderFirst(h) && (header ==> LatestVideoConfig(h).Some?) && input.Valid()
    ensures HistoryHeaderFirst(h + Emits(header, input))
    ensures HeaderAfter(header, input) ==> LatestVideoConfig(h + Emits(header, input)).Some?
  {
    hide HistoryHeaderFirst, LatestVideoConfig;
    var es := Emits(header, input);
    if |es| == 0 {
      assert h + es == h;
    } else {
      OneMore(h, es[0]);
      if |es| == 1 {
        assert h + es == h + [es[0]];
      } else {
        OneMore(h + [es[0]], es[1]);
        assert h + es == h + [es[0]] + [es[1]];
      }
    }
  }

  lemma {:induction false} RunInOrder(steps: seq<Step>)
    requires forall k :: 0 <= k < |steps| ==> Proper(steps[k])
    ensures HistoryHeaderFirst(Run(steps).1)
    ensures Run(steps).0 ==> LatestVideoConfig(Run(steps).1).Some?
  {
    hide HistoryHeaderFirst, LatestVideoConfig, Emits, HeaderAfter;
    if steps == [] {
      EmptyInOrder();
    } else {
      var before, s := steps[..|steps| - 1], steps[|steps| - 1];
      RunInOrder(before);
      assert Proper(s);
      if s.Encode? {
        EmitsInOrder(Run(before).1, Run(before).0, s.input);
      } else {
        OneMore(Run(before).1, s.event);
      }
    }
  }

  lemma {:induction false} EmptyInOrder()
    ensures HistoryHeaderFirst([])
  {
  }

  /** On every run, no channel is given a coded video frame before a sequence header, whenever it joins. */
  lemma {:induction false} NoPictureBeforeHeader(steps: seq<Step>, c: Channel)
    requires forall k :: 0 <= k < |steps| ==> Proper(steps[k])
    ensures HeaderFirst(Received(Run(steps).1, c))
  {
    hide Run;
    RunInOrder(steps);
    HeadersComeFirst(Run(steps).1, c);
  }

  // ---- The header of a late joiner ----

  /** For every picture that a joiner is sent now, the sequence header it is sent is the one that was last put
      into the sink before that picture. */
  predicate SnapshotDecodes(h: seq<Event>) {
    var key := LastAt(h, IsKey);
    key >= 0 ==>
      forall i :: key <= i < |h| && IsCoded(h[i]) ==> LastAt(h[..i], IsVideoConfig) == LastAt(h, IsVideoConfig)
  }

  /** No configuration has come after the key frame the cached frames begin with. */
  predicate CacheIsCurrent(h: seq<Event>) {
    LastAt(h, IsKey) >= 0 ==> LastAt(h, IsVideoConfig) < LastAt(h, IsKey)
  }

  lemma {:induction false} DecodesWhenCurrent(h: seq<Event>)
    ensures SnapshotDecodes(h) <==> CacheIsCurrent(h)
  {
    hide IsCoded, IsVideoConfig;
    var key, config := LastAt(h, IsKey), LastAt(h, IsVideoConfig);
    if key >= 0 {
      KeyIsCoded(h[key]);
      if config < key {
        forall i | key <= i < |h|
          ensures LastAt(h[..i], IsVideoConfig) == config
        {
          LastWithin(h, i, IsVideoConfig);
        }
      } else {
        CodedIsNoConfig(h[key]);
        assert LastAt(h[..key], IsVideoConfig) < key;
      }
    }
  }

  lemma {:induction false} CodedIsNoConfig(e: Event)
    ensures IsCoded(e) ==> !IsVideoConfig(e)
  {
  }

  lemma {:induction false} LastWithin(h: seq<Event>, i: nat, kind: Event -> bool)
    requires LastAt(h, kind) < i <= |h|
    ensures LastAt(h[..i], kind) == LastAt(h, kind)
  {
    if i < |h| {
      LastWithin(h[..|h| - 1], i, kind);
      assert h[..|h| - 1][..i] == h[..i];
    } else {
      assert h[..i] == h;
    }
  }

  /** A step that puts a sequence header into the sink: an access unit is converted, with new parameter sets of both
      kinds, and the record of them is made. */
  predicate MakesHeader(s: Step) {
    && s.Encode? && s.input.ec == 0 && s.input.lib.ret > 0
    && s.input.lib.update != 0 && s.input.lib.nbSps > 0 && s.input.lib.nbPps > 0 && s.input.record.ret > 0
  }

  /** An access unit is converted, but the record of its new parameter sets cannot be made. */
  predicate RecordFails(s: Step) {
    && s.Encode? && s.input.ec == 0 && s.input.lib.ret > 0
    && s.input.lib.update != 0 && s.input.lib.nbSps > 0 && s.input.lib.nbPps > 0 && s.input.record.ret <= 0
  }

  predicate HeaderMade(steps: seq<Step>) {
    exists j :: 0 <= j < |steps| && MakesHeader(steps[j])
  }

  /** Step `k` puts a picture into the sink: an access unit with a picture is converted, without its record failing,
      and a sequence header has been made by then, perhaps in this step. */
  predicate PictureAt(steps: seq<Step>, k: nat)
    requires k < |steps|
  {
    && steps[k].Encode? && steps[k].input.ec == 0 && steps[k].input.lib.ret > 0 && steps[k].input.lib.vcl != 0
    && !RecordFails(steps[k]) && HeaderMade(steps[..k + 1])
  }

  /** Step `k` puts an IDR picture into the sink. */
  predicate IdrAt(steps: seq<Step>, k: nat)
    requires k < |steps|
  {
    PictureAt(steps, k) && steps[k].input.lib.vcl == 1
  }

  /** The last step that puts an IDR picture into the sink, -1 when there is none. */
  function LastIdr(steps: seq<Step>): (i: int)
    ensures -1 <= i < |steps|
    ensures i >= 0 ==> IdrAt(steps, i)
    ensures forall k :: i < k < |steps| ==> !IdrAt(steps, k)
  {
    if steps == [] then -1
    else
      var before := steps[..|steps| - 1];
      assert forall k :: 0 <= k < |before| ==> IdrAt(before, k) == IdrAt(steps, k) by {
        forall k | 0 <= k < |before|
          ensures IdrAt(before, k) == IdrAt(steps, k)
        {
          assert before[..k + 1] == steps[..k + 1];
        }
      }
      if IdrAt(steps, |steps| - 1) then |steps| - 1 else LastIdr(before)
  }

  /** No sequence header has been made after the last IDR picture, if there is one. */
  predicate NoHeaderSinceIdr(steps: seq<Step>) {
    var last := LastIdr(steps);
    last >= 0 ==> forall j :: last < j < |steps| ==> !MakesHeader(steps[j])
  }

  lemma {:induction false} HeaderMadeOneMore(steps: seq<Step>, s: Step)
    ensures HeaderMade(steps + [s]) <==> HeaderMade(steps) || MakesHeader(s)
  {
    hide MakesHeader;
    var more := steps + [s];
    if MakesHeader(s) {
      assert MakesHeader(more[|steps|]);
    }
    if HeaderMade(steps) {
      var j :| 0 <= j < |steps| && MakesHeader(steps[j]);
      assert MakesHeader(more[j]);
    }
  }

  /** The step at the end puts a picture into the sink; an IDR one. */
  predicate PictureNext(steps: seq<Step>, s: Step) {
    && s.Encode? && s.input.ec == 0 && s.input.lib.ret > 0 && s.input.lib.vcl != 0 && !RecordFails(s)
    && (HeaderMade(steps) || MakesHeader(s))
  }

  predicate IdrNext(steps: seq<Step>, s: Step) {
    PictureNext(steps, s) && s.input.lib.vcl == 1
  }

  lemma {:induction false} PictureOneMore(steps: seq<Step>, s: Step)
    ensures PictureAt(steps + [s], |steps|) <==> PictureNext(steps, s)
  {
    hide HeaderMade, MakesHeader, RecordFails;
    HeaderMadeOneMore(steps, s);
    assert (steps + [s])[..|steps| + 1] == steps + [s];
  }

  lemma {:induction false} LastIdrOneMore(steps: seq<Step>, s: Step)
    ensures LastIdr(steps + [s]) == if IdrNext(steps, s) then |steps| else LastIdr(steps)
  {
    hide PictureAt, PictureNext;
    var more := steps + [s];
    assert more[..|steps|] == steps;
    PictureOneMore(steps, s);
    assert IdrAt(more, |steps|) <==> IdrNext(steps, s);
  }

  lemma {:induction false} NoHeaderOneMore(steps: seq<Step>, s: Step)
    ensures
      NoHeaderSinceIdr(steps + [s])
      <==> IdrNext(steps, s) || (NoHeaderSinceIdr(steps) && (MakesHeader(s) ==> LastIdr(steps) < 0))
  {
    hide MakesHeader, LastIdr, IdrNext;
    LastIdrOneMore(steps, s);
    var more := steps + [s];
    assert forall j :: 0 <= j < |steps| ==> more[j] == steps[j];
    assert more[|steps|] == s;
  }

  /** What one more event does to the key frame and the header in force for it. */
  lemma {:induction false} CurrentOneMore(h: seq<Event>, e: Event)
    ensures LastAt(h + [e], IsKey) >= 0 <==> IsKey(e) || LastAt(h, IsKey) >= 0
    ensures
      CacheIsCurrent(h + [e]) <==>
      if IsKey(e) then true else if IsVideoConfig(e) then LastAt(h, IsKey) < 0 else CacheIsCurrent(h)
  {
    hide IsCoded, IsVideoConfig;
    KeyIsCoded(e);
    CodedIsNoConfig(e);
    LastOfOneMore(h, e, IsVideoConfig);
    LastOfOneMore(h, e, IsKey);
  }

  lemma {:induction false} EmitsCurrent(h: seq<Event>, header: bool, input: Input)
    requires input.Valid()
    ensures
      var h' := h + Emits(header, input);
      var made := input.Usable() && input.lib.NewHeader();
      var idr := input.Usable() && input.lib.vcl == 1 && HeaderAfter(header, input);
      && (LastAt(h', IsKey) >= 0 <==> idr || LastAt(h, IsKey) >= 0)
      && (CacheIsCurrent(h') <==> idr || (CacheIsCurrent(h) && (made ==> LastAt(h, IsKey) < 0)))
  {
    hide IsKey, IsVideoConfig, Emits, CacheIsCurrent, Input.Usable, Conversion.NewHeader, HeaderAfter;
    var es := Emits(header, input);
    EmitsShape(header, input);
    CurrentWithoutKey(h);
    if |es| == 0 {
      assert h + es == h;
    } else {
      CurrentOneMore(h, es[0]);
      if |es| == 1 {
        assert h + es == h + [es[0]];
      } else {
        CurrentOneMore(h + [es[0]], es[1]);
        assert h + es == h + [es[0]] + [es[1]];
      }
    }
  }

  lemma {:induction false} CurrentWithoutKey(h: seq<Event>)
    ensures LastAt(h, IsKey) < 0 ==> CacheIsCurrent(h)
  {
  }

  /** A sequence header first, if one is made; a key frame last, if the picture is an IDR one. */
  lemma {:induction false} EmitsShape(header: bool, input: Input)
    requires input.Valid()
    ensures
      var es := Emits(header, input);
      var made := input.Usable() && input.lib.NewHeader();
      var idr := input.Usable() && input.lib.vcl == 1 && HeaderAfter(header, input);
      && |es| <= 2
      && (made ==> |es| >= 1)
      && (idr ==> |es| >= 1)
      && (|es| == 1 ==> (IsVideoConfig(es[0]) <==> made) && (IsKey(es[0]) <==> idr))
      && (|es| == 2 ==> made && IsVideoConfig(es[0]) && !IsKey(es[0]) && !IsVideoConfig(es[1]) && (IsKey(es[1]) <==> idr))
  {
  }

  lemma {:induction false} RunIsCurrent(steps: seq<Step>)
    requires forall k :: 0 <= k < |steps| ==> Proper(steps[k])
    ensures Run(steps).0 <==> HeaderMade(steps)
    ensures LastAt(Run(steps).1, IsKey) >= 0 <==> LastIdr(steps) >= 0
    ensures CacheIsCurrent(Run(steps).1) <==> NoHeaderSinceIdr(steps)
  {
    hide CacheIsCurrent, NoHeaderSinceIdr, LastIdr, HeaderMade, Emits, IsKey, IsVideoConfig;
    if steps == [] {
      NoSteps();
    } else {
      var before, s := steps[..|steps| - 1], steps[|steps| - 1];
      assert steps == before + [s];
      RunIsCurrent(before);
      assert Proper(s);
      HeaderMadeOneMore(before, s);
      LastIdrOneMore(before, s);
      NoHeaderOneMore(before, s);
      var h := Run(before).1;
      if s.Encode? {
        EmitsCurrent(h, Run(before).0, s.input);
      } else {
        OtherIsNoVideo(s);
        CurrentOneMore(h, s.event);
      }
    }
  }

  lemma {:induction false} NoSteps()
    ensures CacheIsCurrent([]) && NoHeaderSinceIdr([]) && LastIdr([]) == -1 && !HeaderMade([])
  {
  }

  lemma {:induction false} OtherIsNoVideo(s: Step)
    requires Proper(s) && s.Other?
    ensures !IsKey(s.event) && !IsVideoConfig(s.event)
  {
  }

  /** All that a run puts into the sink, step by step: errors and the steps of others as they are; for an access unit
      its sequence header, if one is made, and then its picture, if it has one and a header has been made by then. */
  function PutIn(steps: seq<Step>): seq<Event> {
    if steps == [] then []
    else
      var k := |steps| - 1;
      PutIn(steps[..k]) +
        match steps[k]
        case Other(e) => [e]
        case Encode(input) =>
          if input.ec != 0 then [OnFrame(input.frame, input.ec)]
          else
            (if MakesHeader(steps[k]) then [OnFrame(input.Header(), 0)] else [])
            + if PictureAt(steps, k) then [OnFrame(input.Picture(), 0)] else []
  }

  /** The pictures that a run puts into the sink, in order. */
  function Pictures(steps: seq<Step>): seq<Frame> {
    if steps == [] then []
    else
      var k := |steps| - 1;
      Pictures(steps[..k]) + if PictureAt(steps, k) then [steps[k].input.Picture()] else []
  }

  /** On every run the sink is given exactly this: every picture once and in order as soon as a sequence header has been
      made, every sequence header right in front of the picture of its step, and nothing of access units that the
      library does not convert. */
  lemma {:induction false} AllIsPutIn(steps: seq<Step>)
    ensures Run(steps).1 == PutIn(steps)
    ensures Run(steps).0 <==> HeaderMade(steps)
  {
    hide MakesHeader, HeaderMade, PictureAt, PictureNext, Emits, HeaderAfter, Input.Header, Input.Picture;
    if steps == [] {
      NoSteps();
    } else {
      var before, s := steps[..|steps| - 1], steps[|steps| - 1];
      assert steps == before + [s];
      AllIsPutIn(before);
      HeaderMadeOneMore(before, s);
      PictureOneMore(before, s);
      OnlyConverted(before, s);
      if s.Encode? {
        EmitsAre(before, s, Run(before).0);
      }
    }
  }

  /** What the encoder puts out in one step. */
  lemma {:induction false} EmitsAre(steps: seq<Step>, s: Step, header: bool)
    requires s.Encode? && (header <==> HeaderMade(steps))
    ensures HeaderAfter(header, s.input) <==> header || MakesHeader(s)
    ensures
      Emits(header, s.input) ==
      if s.input.ec != 0 then [OnFrame(s.input.frame, s.input.ec)]
      else
        (if MakesHeader(s) then [OnFrame(s.input.Header(), 0)] else [])
        + if PictureNext(steps, s) then [OnFrame(s.input.Picture(), 0)] else []
  {
    hide HeaderMade, Input.Header, Input.Picture;
  }

  /** The coded pictures that the sink has been given are those of the encoder. */
  lemma {:induction false} PicturesComeOut(steps: seq<Step>)
    requires forall k :: 0 <= k < |steps| ==> Proper(steps[k])
    ensures Coded(Run(steps).1) == Pictures(steps)
  {
    hide MakesHeader, PictureAt, PictureNext, Input.Header, Input.Picture, IsCoded, Run;
    AllIsPutIn(steps);
    if steps != [] {
      var before, s := steps[..|steps| - 1], steps[|steps| - 1];
      PicturesComeOut(before);
      AllIsPutIn(before);
      assert Proper(s);
      assert steps == before + [s];
      PictureOneMore(before, s);
      OnlyConverted(before, s);
      var h := PutIn(before);
      if s.Other? {
        OtherIsNotCoded(s);
        CodedOfOneMore(h, s.event);
      } else {
        KindsOfFrames(s.input);
        CodedOfEmits(h, s.input, MakesHeader(s), PictureAt(steps, |steps| - 1));
      }
    }
  }

  lemma {:induction false} OnlyConverted(steps: seq<Step>, s: Step)
    ensures MakesHeader(s) || PictureNext(steps, s) ==> s.Encode? && s.input.ec == 0
  {
  }

  lemma {:induction false} CodedOfEmits(h: seq<Event>, input: Input, made: bool, picture: bool)
    requires input.ec != 0 ==> !picture && !made
    ensures
      var es :=
        if input.ec != 0 then [OnFrame(input.frame, input.ec)]
        else
          (if made then [OnFrame(input.Header(), 0)] else []) + if picture then [OnFrame(input.Picture(), 0)] else [];
      Coded(h + es) == Coded(h) + if picture then [input.Picture()] else []
  {
    hide Input.Header, Input.Picture, IsCoded, Coded;
    KindsOfFrames(input);
    var a, b := OnFrame(input.Header(), 0), OnFrame(input.Picture(), 0);
    CodedOfOneMore(h, OnFrame(input.frame, input.ec));
    CodedOfOneMore(h, a);
    CodedOfOneMore(h, b);
    CodedOfOneMore(h + [a], b);
    if input.ec == 0 {
      var first: seq<Event> := if made then [a] else [];
      var second: seq<Event> := if picture then [b] else [];
      assert h + (first + second) == h + first + second && h + [] == h && (h + [a]) + [] == h + [a];
    }
  }

  lemma {:induction false} KindsOfFrames(input: Input)
    ensures !IsCoded(OnFrame(input.Header(), 0)) && IsCoded(OnFrame(input.Picture(), 0))
    ensures input.ec != 0 ==> !IsCoded(OnFrame(input.frame, input.ec))
  {
  }

  lemma {:induction false} OtherIsNotCoded(s: Step)
    requires Proper(s) && s.Other?
    ensures !IsCoded(s.event)
  {
  }

  /** After any run of encoder and sink, a channel that joins is sent the header that was in force for every
      picture it is sent if and only if no sequence header has been made since the last IDR picture. */
  lemma {:induction false} JoinerDecodesExactlyWhen(steps: seq<Step>, c: Channel)
    requires forall k :: 0 <= k < |steps| ==> Proper(steps[k])
    ensures
      var h := Run(steps).1;
      && Received(h + [Join(c)], c) == Received(h, c) + Snapshot(h)
      && (SnapshotDecodes(h) <==> NoHeaderSinceIdr(steps))
  {
    hide CacheIsCurrent, NoHeaderSinceIdr, SnapshotDecodes, Snapshot, Run;
    RunIsCurrent(steps);
    DecodesWhenCurrent(Run(steps).1);
    StepOfOneMore(Run(steps).1, Join(c), c);
  }

  /** When new parameter sets come without an IDR picture, a late joiner is sent the new header with frames
      that were made under the old one. */
  lemma {:induction false} NewHeaderWithinGroup(first: Input, second: Input)
    requires first.Valid() && first.Usable() && first.lib.NewHeader() && first.lib.vcl == 1
    requires second.Valid() && second.Usable() && second.lib.NewHeader() && second.lib.vcl != 1
    ensures
      var steps := [Encode(first), Encode(second)];
      var h := Run(steps).1;
      && Snapshot(h) == [Delivery(second.Header(), 0), Delivery(first.Picture(), 0)]
                        + (if second.lib.vcl != 0 then [Delivery(second.Picture(), 0)] else [])
      && LastAt(h, IsKey) == 1 && LatestVideoConfig(h[..1]) == Some(first.Header())
      && !NoHeaderSinceIdr(steps) && !SnapshotDecodes(h)
  {
    hide LatestVideoConfig, Gop, IsKey, LatestAudioConfig, SnapshotDecodes, NoHeaderSinceIdr, Emits, Run,
      Input.Usable, Conversion.NewHeader, Input.Header, Input.Picture;
    var steps := [Encode(first), Encode(second)];
    var a, b, c := OnFrame(first.Header(), 0), OnFrame(first.Picture(), 0), OnFrame(second.Header(), 0);
    var d := OnFrame(second.Picture(), 0);
    GroupRun(first, second);
    GroupKinds(first, second);
    var h := Run(steps).1;
    var h3 := [] + [a] + [b] + [c];
    LatestOfOneMore([], a);
    LatestOfOneMore([] + [a], b);
    LatestOfOneMore([] + [a] + [b], c);
    LatestOfOneMore(h3, d);
    GopOfOneMore([] + [a], b);
    GopOfOneMore([] + [a] + [b], c);
    GopOfOneMore(h3, d);
    LastOfOneMore([] + [a], b, IsKey);
    LastOfOneMore([] + [a] + [b], c, IsKey);
    LastOfOneMore(h3, d, IsKey);
    assert h[..1] == [] + [a];
    NothingLatest();
    GroupIsBroken(first, second);
    JoinerDecodesExactlyWhen(steps, 0);
  }

  lemma {:induction false} GroupRun(first: Input, second: Input)
    requires first.Usable() && first.lib.NewHeader() && first.lib.vcl == 1
    requires second.Usable() && second.lib.NewHeader()
    ensures
      var h3 := [] + [OnFrame(first.Header(), 0)] + [OnFrame(first.Picture(), 0)] + [OnFrame(second.Header(), 0)];
      Run([Encode(first), Encode(second)]).1 ==
      if second.lib.vcl != 0 then h3 + [OnFrame(second.Picture(), 0)] else h3
  {
    hide Input.Header, Input.Picture;
    var a, b, c := OnFrame(first.Header(), 0), OnFrame(first.Picture(), 0), OnFrame(second.Header(), 0);
    var d := OnFrame(second.Picture(), 0);
    assert [Encode(first), Encode(second)][..1] == [Encode(first)] && [Encode(first)][..0] == [];
    assert Emits(false, first) == [a, b] && Emits(true, second) == if second.lib.vcl != 0 then [c, d] else [c];
    assert Run([Encode(first)]) == (true, [] + [a, b]);
  }

  lemma {:induction false} GroupKinds(first: Input, second: Input)
    requires first.lib.vcl == 1 && second.lib.vcl != 1
    ensures
      var a, b, c := OnFrame(first.Header(), 0), OnFrame(first.Picture(), 0), OnFrame(second.Header(), 0);
      var d := OnFrame(second.Picture(), 0);
      && IsVideoConfig(a) && IsVideoConfig(c) && !IsVideoConfig(b) && !IsVideoConfig(d)
      && !IsAudioConfig(a) && !IsAudioConfig(b) && !IsAudioConfig(c) && !IsAudioConfig(d)
      && !IsCoded(a) && !IsCoded(c) && IsCoded(b) && IsCoded(d)
      && !IsKey(a) && !IsKey(c) && IsKey(b) && !IsKey(d)
  {
  }

  lemma {:induction false} GroupIsBroken(first: Input, second: Input)
    requires first.Usable() && first.lib.NewHeader() && first.lib.vcl == 1
    requires second.Usable() && second.lib.NewHeader() && second.lib.vcl != 1
    ensures !NoHeaderSinceIdr([Encode(first), Encode(second)])
  {
    hide NoHeaderSinceIdr, LastIdr, HeaderMade;
    HeaderMadeOneMore([], Encode(first));
    LastIdrOneMore([], Encode(first));
    NoHeaderOneMore([Encode(first)], Encode(second));
    assert [] + [Encode(first)] == [Encode(first)];
    assert [Encode(first)] + [Encode(second)] == [Encode(first), Encode(second)];
  }

  lemma {:induction false} NothingLatest()
    ensures LatestAudioConfig([]) == None
  {
  }
}
