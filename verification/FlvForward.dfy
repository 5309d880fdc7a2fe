/**
  The HTTP-FLV side: the frames of a channel as a stream of FLV tags (Annex E of the Adobe Flash Video
  File Format Specification, version 10.1).
 */
module FlvForward {
  import opened Bytes
  import opened Options
  import opened Sequences
  import opened Frames
  import opened RtmpSink
  import TcpConnection

  const TYPE_AUDIO: byte := 8
  const TYPE_VIDEO: byte := 9
  const TAG_HEADER_SIZE := 11

  /** A tag: its type, its timestamp in milliseconds, and its data. */
  datatype Tag = Tag(kind: byte, timestamp: uint32, data: seq<byte>)

  // ---- Writing ----

  /** Signature, version 1, audio and video present, length of the header, and the back-pointer of no tag
      (section E.2). */
  const FILE_HEADER: seq<byte> := [0x46, 0x4C, 0x56, 1, 5, 0, 0, 0, 9, 0, 0, 0, 0]

  function TypeOf(media: int): byte {
    if media == AUDIO then TYPE_AUDIO else TYPE_VIDEO
  }

  /** Type, size of the data, lower 24 and upper 8 bits of the timestamp, stream 0 (section E.4.1). */
  function TagHeader(kind: byte, size: uint24, timestamp: uint32): seq<byte> {
    [kind] + Be24(size) + Be24(timestamp % TWO_TO_THE_24) + [timestamp / TWO_TO_THE_24] + [0, 0, 0]
  }

  function TagParts(f: Frame): seq<seq<byte>> {
    [TagHeader(TypeOf(f.media), |f.data| % TWO_TO_THE_24, U32(f.pts)), f.data, Be32(U32(|f.data| + TAG_HEADER_SIZE))]
  }

  /** All that is written for a list of frames. */
  function Written(frames: seq<Frame>): seq<seq<byte>> {
    if frames == [] then []
    else
      Written(frames[..|frames| - 1])
      + (if |frames| == 1 then [FILE_HEADER] else [])
      + TagParts(frames[|frames| - 1])
  }

  lemma WrittenOfOneMore(frames: seq<Frame>, f: Frame)
    ensures Written(frames + [f]) == Written(frames) + (if frames == [] then [FILE_HEADER] else []) + TagParts(f)
  {
    hide TagParts, FILE_HEADER;
    assert (frames + [f])[..|frames|] == frames;
  }

  class Session {
    var firstFrame: bool
    /** The frames handed to the connection, and the frames given to the session. */
    ghost var written: seq<seq<byte>>
    ghost var frames: seq<Frame>

    ghost predicate Valid()
      reads this
    {
      written == Written(frames) && (firstFrame <==> frames != [])
    }

    constructor ()
      ensures Valid() && frames == []
    {
      firstFrame, written, frames := false, Written([]), [];
    }

    method Write(data: seq<byte>)
      modifies `written
      ensures written == old(written) + [data]
    {
      written := written + [data];
    }

    /** What the channel of the session does with a frame; an error asks for the session to be shut down. */
    method ChannelOut(frame: Frame, ec: int) returns (shutdown: bool)
      requires Valid()
      modifies this
      ensures Valid() && frames == old(frames) + if ec == 0 then [frame] else []
      ensures shutdown <==> ec != 0
    {
      hide TagHeader, Written, Be32, FILE_HEADER, U32;
      if ec != 0 {
        return true;
      }
      var kind := TYPE_VIDEO;
      if frame.media == AUDIO {
        kind := TYPE_AUDIO;
      }
      if !firstFrame {
        firstFrame := true;
        Write(FILE_HEADER);
      }
      Write(TagHeader(kind, |frame.data| % TWO_TO_THE_24, U32(frame.pts)));
      Write(frame.data);
      Write(Be32(U32(|frame.data| + TAG_HEADER_SIZE)));
      WrittenOfOneMore(frames, frame);
      frames := frames + [frame];
      shutdown := false;
    }
  }

  // ---- Reading ----

  /** The tags of a stream, each with its back-pointer. */
  function ReadTags(s: seq<byte>): Option<seq<Tag>> {
    if s == [] then Some([])
    else if |s| < TAG_HEADER_SIZE || s[8..11] != [0, 0, 0] then None
    else
      var size := FromBe24(s[1..4]);
      if |s| < TAG_HEADER_SIZE + size + 4 || FromBe32(s[TAG_HEADER_SIZE + size..]) != TAG_HEADER_SIZE + size then None
      else
        var rest := ReadTags(s[TAG_HEADER_SIZE + size + 4..]);
        if rest.None? then None
        else
          var timestamp := s[7] as int * TWO_TO_THE_24 + FromBe24(s[4..7]);
          Some([Tag(s[0], timestamp, s[TAG_HEADER_SIZE..TAG_HEADER_SIZE + size])] + rest.value)
  }

  /** A file: whether it announces audio and video tags, and its tags. */
  datatype File = File(audio: bool, video: bool, tags: seq<Tag>)

  /** The header of a file (section E.2): in the byte of flags, bit 2 stands for audio and bit 0 for video, and the
      others are 0. Its length is that of version 1, and no tag comes before the first one. */
  function ReadFile(s: seq<byte>): Option<File> {
    if |s| >= 13 && s[..4] == [0x46, 0x4C, 0x56, 1] && s[4] / 8 == 0 && s[4] / 2 % 2 == 0
       && FromBe32(s[5..9]) == 9 && s[9..13] == [0, 0, 0, 0] && ReadTags(s[13..]).Some?
    then Some(File(s[4] / 4 % 2 == 1, s[4] % 2 == 1, ReadTags(s[13..]).value))
    else None
  }

  // ---- Round trip ----

  /** The types of tags (section E.4.1), 0 for what is none of them. */
  function TagKind(media: int): byte {
    match media
    case 2 => 8  // audio
    case 1 => 9  // video
    case 0 => 18 // script data
    case _ => 0
  }

  /** The tag a frame should be. */
  function TagOf(f: Frame): Tag {
    Tag(TagKind(f.media), U32(f.pts), f.data)
  }

  /** The tag that is written. */
  function WrittenTag(f: Frame): Tag {
    Tag(TypeOf(f.media), U32(f.pts), f.data)
  }

  function Tags(frames: seq<Frame>, tag: Frame -> Tag): (tags: seq<Tag>)
    ensures |tags| == |frames| && forall k :: 0 <= k < |tags| ==> tags[k] == tag(frames[k])
  {
    seq(|frames|, k requires 0 <= k < |frames| => tag(frames[k]))
  }

  /** The bytes of the tag of one frame. */
  function TagBytes(f: Frame): seq<byte> {
    Flatten(TagParts(f))
  }

  function AllTagBytes(frames: seq<Frame>): seq<byte> {
    if frames == [] then [] else TagBytes(frames[0]) + AllTagBytes(frames[1..])
  }

  lemma TagBytesAre(f: Frame)
    ensures
      var p := TagParts(f);
      TagBytes(f) == p[0] + p[1] + p[2]
  {
    hide TagHeader;
    var p := TagParts(f);
    FlattenOneMore([], p[0]);
    FlattenOneMore([] + [p[0]], p[1]);
    FlattenOneMore([] + [p[0]] + [p[1]], p[2]);
    assert p == [] + [p[0]] + [p[1]] + [p[2]];
  }

  lemma HeaderReadsBack(kind: byte, size: uint24, timestamp: uint32, tail: seq<byte>)
    ensures
      var s := TagHeader(kind, size, timestamp) + tail;
      && |TagHeader(kind, size, timestamp)| == TAG_HEADER_SIZE
      && s[0] == kind && FromBe24(s[1..4]) == size && s[8..11] == [0, 0, 0]
      && s[7] as int * TWO_TO_THE_24 + FromBe24(s[4..7]) == timestamp
  {
    var s := TagHeader(kind, size, timestamp) + tail;
    ReadBack24(size, []);
    ReadBack24(timestamp % TWO_TO_THE_24, []);
    assert s[1..4] == Be24(size) + [];
    assert s[4..7] == Be24(timestamp % TWO_TO_THE_24) + [];
  }

  /** Where the parts of a tag are. */
  lemma TagShape(f: Frame, tail: seq<byte>)
    requires |f.data| < TWO_TO_THE_24
    ensures
      var s, size := TagBytes(f) + tail, |f.data|;
      && |s| == TAG_HEADER_SIZE + size + 4 + |tail|
      && s[0] == TypeOf(f.media) && FromBe24(s[1..4]) == size && s[8..11] == [0, 0, 0]
      && s[7] as int * TWO_TO_THE_24 + FromBe24(s[4..7]) == U32(f.pts)
      && s[TAG_HEADER_SIZE..TAG_HEADER_SIZE + size] == f.data
      && s[TAG_HEADER_SIZE + size..] == Be32(size + TAG_HEADER_SIZE) + tail
      && s[TAG_HEADER_SIZE + size + 4..] == tail
  {
    hide TagHeader, Be32, FromBe24, TagBytes, TypeOf;
    var size: uint24, back := |f.data|, Be32(|f.data| + TAG_HEADER_SIZE);
    var header := TagHeader(TypeOf(f.media), size, U32(f.pts));
    TagBytesAre(f);
    HeaderReadsBack(TypeOf(f.media), size, U32(f.pts), f.data + back + tail);
    assert TagBytes(f) == header + f.data + back;
    assert TagBytes(f) + tail == header + (f.data + back + tail);
  }

  /** A tag of less than 2^24 bytes reads back, whatever follows. */
  lemma {:induction false} TagReadsBack(f: Frame, tail: seq<byte>)
    requires |f.data| < TWO_TO_THE_24
    ensures
      ReadTags(TagBytes(f) + tail) ==
      if ReadTags(tail).None? then None else Some([WrittenTag(f)] + ReadTags(tail).value)
  {
    hide Be32, FromBe32, FromBe24, TagBytes, TypeOf;
    TagShape(f, tail);
    ReadBackBe32(|f.data| + TAG_HEADER_SIZE, tail);
  }

  lemma {:induction false} AllReadBack(frames: seq<Frame>)
    requires forall f <- frames :: |f.data| < TWO_TO_THE_24
    ensures ReadTags(AllTagBytes(frames)) == Some(Tags(frames, WrittenTag))
  {
    hide ReadTags, TagBytes, WrittenTag;
    if frames == [] {
      NoTags();
    } else {
      var rest := frames[1..];
      assert frames[0] in frames;
      forall f <- rest
        ensures |f.data| < TWO_TO_THE_24
      {
        assert f in frames;
      }
      AllReadBack(rest);
      TagReadsBack(frames[0], AllTagBytes(rest));
      assert [WrittenTag(frames[0])] + Tags(rest, WrittenTag) == Tags(frames, WrittenTag);
    }
  }

  lemma NoTags()
    ensures ReadTags([]) == Some([])
  {
  }

  /** Whatever is read, the data of a tag is shorter than 2^24 bytes. */
  lemma {:induction false} TagsAreShort(s: seq<byte>)
    ensures ReadTags(s).Some? ==> forall k :: 0 <= k < |ReadTags(s).value| ==> |ReadTags(s).value[k].data| < TWO_TO_THE_24
    decreases |s|
  {
    if ReadTags(s).Some? && s != [] {
      var size := FromBe24(s[1..4]);
      TagsAreShort(s[TAG_HEADER_SIZE + size + 4..]);
    }
  }

  lemma {:induction false} AllBytesOfOneMore(frames: seq<Frame>, f: Frame)
    ensures AllTagBytes(frames + [f]) == AllTagBytes(frames) + TagBytes(f)
  {
    hide TagBytes;
    if frames == [] {
      assert [f][1..] == [] && frames + [f] == [f];
    } else {
      assert (frames + [f])[1..] == frames[1..] + [f];
      AllBytesOfOneMore(frames[1..], f);
    }
  }

  lemma {:induction false} WrittenBytes(frames: seq<Frame>)
    ensures Flatten(Written(frames)) == if frames == [] then [] else FILE_HEADER + AllTagBytes(frames)
  {
    hide TagParts, FILE_HEADER, Written, AllTagBytes, Flatten;
    NoBytes();
    if frames == [] {
      NothingWritten();
    } else {
      var before, f := frames[..|frames| - 1], frames[|frames| - 1];
      WrittenBytes(before);
      NothingWritten();
      assert frames == before + [f];
      WrittenOfOneMore(before, f);
      AllBytesOfOneMore(before, f);
      var begin := if before == [] then [FILE_HEADER] else [];
      FlattenAppend(Written(before) + begin, TagParts(f));
      FlattenAppend(Written(before), begin);
      assert TagBytes(f) == Flatten(TagParts(f));
      Associative(FILE_HEADER, AllTagBytes(before), TagBytes(f));
    }
  }

  lemma NoBytes()
    ensures Flatten<byte>([]) == [] && Flatten([FILE_HEADER]) == FILE_HEADER
  {
    hide FILE_HEADER;
    FlattenOneMore([], FILE_HEADER);
    assert [] + [FILE_HEADER] == [FILE_HEADER];
  }

  lemma NothingWritten()
    ensures Written([]) == [] && AllTagBytes([]) == []
  {
  }

  /** The frames a reader can tell: of less than 2^24 bytes, and audio or video. All others are written with the
      type of video. */
  predicate Taggable(f: Frame) {
    |f.data| < TWO_TO_THE_24 && (f.media == AUDIO || f.media == VIDEO)
  }

  /** What is written for a run of frames is a file header and a stream that reads back as exactly these
      frames, each as the tag it should be, if and only if all frames are ones a reader can tell. The header
      announces audio and video. */
  lemma {:induction false} StreamReadsBackExactlyWhen(frames: seq<Frame>)
    requires frames != []
    ensures
      ReadFile(Flatten(Written(frames))) == Some(File(true, true, Tags(frames, TagOf)))
      <==> forall k :: 0 <= k < |frames| ==> Taggable(frames[k])
  {
    hide Written, ReadTags, Tags, FILE_HEADER, AllTagBytes, Taggable, TagOf, WrittenTag;
    WrittenBytes(frames);
    FileHeaderReads(AllTagBytes(frames));
    if forall f <- frames :: |f.data| < TWO_TO_THE_24 {
      AllReadBack(frames);
      SameTags(frames);
    } else {
      TagsAreShort(AllTagBytes(frames));
      LongTag(frames);
    }
  }

  lemma SameTags(frames: seq<Frame>)
    requires forall f <- frames :: |f.data| < TWO_TO_THE_24
    ensures
      Tags(frames, TagOf) == Tags(frames, WrittenTag)
      <==> forall k :: 0 <= k < |frames| ==> Taggable(frames[k])
  {
    hide TagOf, WrittenTag;
    forall k | 0 <= k < |frames|
      ensures TagOf(frames[k]) == WrittenTag(frames[k]) <==> Taggable(frames[k])
    {
      assert frames[k] in frames;
      TagsDiffer(frames[k]);
    }
    var a, b := Tags(frames, TagOf), Tags(frames, WrittenTag);
    assert a == b <==> forall k :: 0 <= k < |a| ==> a[k] == b[k];
  }

  lemma LongTag(frames: seq<Frame>)
    requires !forall f <- frames :: |f.data| < TWO_TO_THE_24
    ensures !forall k :: 0 <= k < |Tags(frames, TagOf)| ==> |Tags(frames, TagOf)[k].data| < TWO_TO_THE_24
    ensures !forall k :: 0 <= k < |frames| ==> Taggable(frames[k])
  {
    var k :| 0 <= k < |frames| && |frames[k].data| >= TWO_TO_THE_24;
    assert !Taggable(frames[k]);
    assert Tags(frames, TagOf)[k].data == frames[k].data;
  }

  lemma TagsDiffer(f: Frame)
    ensures TagOf(f).data == f.data
    ensures TagOf(f) == WrittenTag(f) <==> f.media == AUDIO || f.media == VIDEO
  {
  }

  lemma FileHeaderReads(tail: seq<byte>)
    ensures
      ReadFile(FILE_HEADER + tail) ==
      if ReadTags(tail).None? then None else Some(File(true, true, ReadTags(tail).value))
  {
    hide ReadTags;
    var s := FILE_HEADER + tail;
    assert s[..4] == [0x46, 0x4C, 0x56, 1] && s[4] == 5 && s[5..9] == [0, 0, 0, 9] && s[9..13] == [0, 0, 0, 0] && s[13..] == tail;
  }

  // ---- From the sink to the wire ----

  /** What a viewer reads off the wire is what the sink has given its channel: the configurations, the
      frames since the last key frame, and every frame from then on, in order. The session hands its frames
      to the connection `es`, none of whose writes has failed and all of whose writes have ended. */
  lemma {:induction false} ViewerReadsWhatTheSinkGave(
      before: seq<RtmpSink.Event>, after: seq<RtmpSink.Event>, c: Channel, es: seq<TcpConnection.Event>)
    requires NoneAbout(after, c) && Received(before, c) == []
    requires
      var ds := Snapshot(before) + Live(after);
      && ds != [] && (forall k :: 0 <= k < |ds| ==> ds[k].ec == 0 && Taggable(ds[k].frame))
      && TcpConnection.IsRun(es) && TcpConnection.NoFailure(es)
      && TcpConnection.Submitted(es) == Written(FramesOf(ds))
      && TcpConnection.After(es).begun == TcpConnection.After(es).ended
    ensures FramesOf(Received(before + [Join(c)] + after, c)) == FramesOf(Snapshot(before) + Live(after))
    ensures
      var frames := FramesOf(Received(before + [Join(c)] + after, c));
      ReadFile(TcpConnection.After(es).wire) == Some(File(true, true, Tags(frames, TagOf)))
  {
    hide Received, Member, Snapshot, Live, Written, TagOf, ReadFile, TcpConnection.After, TcpConnection.IsRun;
    StepOfOneMore(before, Join(c), c);
    MembersSeeAll(before + [Join(c)], after, c);
    assert [] + Snapshot(before) == Snapshot(before);
    var ds := Snapshot(before) + Live(after);
    TcpConnection.EverythingIsWritten(es);
    StreamReadsBackExactlyWhen(FramesOf(ds));
  }
}
