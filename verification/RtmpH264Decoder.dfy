/**
  The decoder of the RTMP side: the NAL units of an access unit, each behind its length, become frames
  behind start codes, and the parameter sets are put out before the first IDR picture.
 */
module RtmpH264Decoder {
  import opened Bytes
  import opened Options
  import opened Frames
  import opened Sequences

  const IDR := 5
  const START_CODE: seq<byte> := [0, 0, 0, 1]

  /** What the last sequence header has set up: how many bytes a length takes, the parameter sets in
      byte-stream form, `None` when the library cannot make them, and whether they have been put out. */
  datatype Args = Args(width: nat, sets: Option<seq<byte>>, sent: bool)

  /** The payload of a video tag, as the library reads it. */
  datatype Packet =
    | Malformed
    | SequenceHeader(width: nat, sets: Option<seq<byte>>)
    | EndOfSequence
    | AvPacket(data: seq<byte>, cts: int, keyframe: bool)
    | Unknown

  /** What is put out: a frame, an error with the frame it came with, or the end of the stream. */
  datatype Output = Put(frame: Frame) | Failed(frame: Frame, ec: int) | EndOfStream

  // ---- Lengths ----

  /** The big-endian number in the first `width` bytes. */
  function Number(s: seq<byte>, width: nat): nat
    requires width <= |s|
  {
    if width == 0 then 0 else Number(s, width - 1) * 0x100 + s[width - 1] as int
  }

  function Power(width: nat): nat {
    if width == 0 then 1 else 0x100 * Power(width - 1)
  }

  function NumberBytes(n: nat, width: nat): (s: seq<byte>)
    requires n < Power(width)
    ensures |s| == width
  {
    if width == 0 then [] else NumberBytes(n / 0x100, width - 1) + [n % 0x100]
  }

  lemma {:induction false} NumberReadsBack(n: nat, width: nat, tail: seq<byte>)
    requires n < Power(width)
    ensures Number(NumberBytes(n, width) + tail, width) == n
  {
    if width > 0 {
      NumberReadsBack(n / 0x100, width - 1, [n % 0x100] + tail);
      assert NumberBytes(n, width) + tail == NumberBytes(n / 0x100, width - 1) + ([n % 0x100] + tail);
    }
  }

  // ---- Access units ----

  /** The units of an access unit, up to its end or to a length of zero. */
  function Units(data: seq<byte>, width: nat, offset: nat): seq<Nal>
    requires InBounds(data, width, offset)
    decreases |data| - offset
  {
    if offset >= |data| then []
    else
      var size := Number(data[offset..], width);
      var begin := offset + width;
      if size == 0 then [] else [data[begin..begin + size]] + Units(data, width, begin + size)
  }

  /** Every length, and what it announces, lies within the access unit. */
  predicate InBounds(data: seq<byte>, width: nat, offset: nat)
    decreases |data| - offset
  {
    offset < |data| ==>
      && offset + width <= |data|
      && var size := Number(data[offset..], width);
         size == 0 || (offset + width + size <= |data| && InBounds(data, width, offset + width + size))
  }

  predicate IsIdr(n: Nal) {
    n != [] && n[0] % 32 == IDR
  }

  function Coded(n: Nal): seq<byte> {
    START_CODE + n
  }

  function CodedAll(nals: seq<Nal>): seq<seq<byte>> {
    seq(|nals|, k requires 0 <= k < |nals| => Coded(nals[k]))
  }

  /** The payloads put out for a list of units, and whether all units were: putting out the parameter sets
      may fail, and then the rest of the units is dropped. */
  function Payloads(nals: seq<Nal>, args: Args): (seq<seq<byte>>, bool) {
    if nals == [] then ([], true)
    else
      var (before, whole) := Payloads(nals[..|nals| - 1], args);
      var n := nals[|nals| - 1];
      if !whole then (before, false)
      else if IsIdr(n) && !SentAfter(nals[..|nals| - 1], args) then
        if args.sets.None? then (before, false) else (before + [args.sets.value, Coded(n)], true)
      else (before + [Coded(n)], true)
  }

  /** Whether the parameter sets have been put out after these units. */
  predicate SentAfter(nals: seq<Nal>, args: Args) {
    args.sent || (args.sets.Some? && exists k :: 0 <= k < |nals| && IsIdr(nals[k]))
  }

  function FrameOf(payload: seq<byte>, timestamp: int, cts: int, keyframe: bool): Frame {
    Frame(payload, VIDEO, H264, if keyframe then 1 else 0, timestamp + cts, timestamp)
  }

  function FramesOf(payloads: seq<seq<byte>>, timestamp: int, cts: int, keyframe: bool): seq<Output> {
    seq(|payloads|, k requires 0 <= k < |payloads| => Put(FrameOf(payloads[k], timestamp, cts, keyframe)))
  }

  lemma PayloadsOfOneMore(nals: seq<Nal>, n: Nal, args: Args)
    ensures
      var (before, whole) := Payloads(nals, args);
      Payloads(nals + [n], args) ==
      if !whole then (before, false)
      else if IsIdr(n) && !SentAfter(nals, args) then
        if args.sets.None? then (before, false) else (before + [args.sets.value, Coded(n)], true)
      else (before + [Coded(n)], true)
    ensures SentAfter(nals + [n], args) <==> SentAfter(nals, args) || (args.sets.Some? && IsIdr(n))
  {
    hide IsIdr, Coded;
    assert (nals + [n])[..|nals|] == nals;
    if args.sets.Some? && IsIdr(n) {
      assert IsIdr((nals + [n])[|nals|]);
    }
    forall k | 0 <= k < |nals| && IsIdr(nals[k])
      ensures IsIdr((nals + [n])[k])
    {
    }
  }

  lemma {:induction false} FailedStays(nals: seq<Nal>, more: seq<Nal>, args: Args)
    requires !Payloads(nals, args).1
    ensures Payloads(nals + more, args) == (Payloads(nals, args).0, false)
  {
    if more == [] {
      assert nals + more == nals;
    } else {
      var shorter := more[..|more| - 1];
      FailedStays(nals, shorter, args);
      assert nals + more == (nals + shorter) + [more[|more| - 1]];
      PayloadsOfOneMore(nals + shorter, more[|more| - 1], args);
    }
  }

  /** Frames put out one for each payload: H.264 video (number 7, media 1) with the decoding time of the access unit,
      the presentation time its composition time later, and its mark of key frames. */
  predicate Timed(outputs: seq<Output>, payloads: seq<seq<byte>>, timestamp: int, cts: int, keyframe: bool) {
    && |outputs| == |payloads|
    && forall k :: 0 <= k < |outputs| ==>
         && outputs[k].Put?
         && var f := outputs[k].frame;
            && f.data == payloads[k] && f.media == 1 && f.codec == 7
            && f.dts == timestamp && f.pts - f.dts == cts && (f.flag == 1 <==> keyframe) && 0 <= f.flag <= 1
  }

  /** Nothing else is in the frames put out, and they are the only ones so timed. */
  lemma {:induction false} TimedExactlyWhen(outputs: seq<Output>, payloads: seq<seq<byte>>, timestamp: int, cts: int,
                                            keyframe: bool)
    ensures Timed(outputs, payloads, timestamp, cts, keyframe) <==> outputs == FramesOf(payloads, timestamp, cts, keyframe)
  {
    var frames := FramesOf(payloads, timestamp, cts, keyframe);
    if Timed(outputs, payloads, timestamp, cts, keyframe) {
      forall k | 0 <= k < |outputs|
        ensures outputs[k] == frames[k]
      {
      }
    }
  }

  // ---- The decoder ----

  class Decoder {
    var args: Option<Args>
    /** What has been handed to the channel. */
    var out: seq<Output>

    constructor ()
      ensures args == None && out == []
    {
      args, out := None, [];
    }

    method OnFrame(payload: seq<byte>, timestamp: int, cts: int, keyframe: bool)
      modifies `out
      ensures out == old(out) + [Put(FrameOf(payload, timestamp, cts, keyframe))]
    {
      out := out + [Put(FrameOf(payload, timestamp, cts, keyframe))];
    }

    /** Splits an access unit: its units are put out each behind a start code, in order, and the parameter
        sets once, before the first IDR picture. */
    method DemuxAvPacket(data: seq<byte>, timestamp: int, cts: int, keyframe: bool)
      requires args.Some? && InBounds(data, args.value.width, 0)
      modifies this
      ensures
        var a := old(args).value;
        var nals := Units(data, a.width, 0);
        && out == old(out) + FramesOf(Payloads(nals, a).0, timestamp, cts, keyframe)
        && args == Some(a.(sent := SentAfter(nals, a)))
    {
      hide Payloads, SentAfter, IsIdr, Units, InBounds;
      ghost var a := args.value;
      ghost var nals := Units(data, a.width, 0);
      ghost var done: seq<Nal> := [];
      NothingDone(a);
      var width, offset := args.value.width, 0;
      while offset < |data|
        invariant args.Some? && args.value == a.(sent := SentAfter(done, a)) && width == a.width
        invariant InBounds(data, width, offset) && nals == done + Units(data, width, offset)
        invariant Payloads(done, a).1
        invariant out == old(out) + FramesOf(Payloads(done, a).0, timestamp, cts, keyframe)
        decreases |data| - offset
      {
        NextUnit(data, width, offset);
        var naluSize := ReadSize(data, offset, width);
        if naluSize == 0 {
          assert nals == done;
          return;
        }
        var n := data[offset + width..offset + width + naluSize];
        ghost var rest := Units(data, width, offset + width + naluSize);
        PayloadsOfOneMore(done, n, a);
        assert done + ([n] + rest) == (done + [n]) + rest;
        var naluType := data[offset + width] % 32;
        TypeOf(data, offset + width, naluSize);
        if naluType == IDR && !args.value.sent {
          if args.value.sets.None? {
            FailedStays(done + [n], rest, a);
            StillUnsent(done, a);
            StillUnsent(nals, a);
            return;
          }
          OnFrame(args.value.sets.value, timestamp, cts, keyframe);
          args := Some(args.value.(sent := true));
        }
        OnFrame(START_CODE + n, timestamp, cts, keyframe);
        done := done + [n];
        offset := offset + width + naluSize;
      }
      NoUnits(data, width, offset);
      assert nals == done;
    }

    static method ReadSize(data: seq<byte>, offset: nat, width: nat) returns (size: nat)
      requires offset + width <= |data|
      ensures size == Number(data[offset..], width)
    {
      size := 0;
      for i := 0 to width
        invariant size == Number(data[offset..], i)
      {
        size := size * 0x100 + data[offset + i] as int;
      }
    }

    /** A video tag: a sequence header starts anew; pictures are split, once there has been one. */
    method Write(frame: Frame, ec: int, packet: Packet)
      requires args.Some? && packet.AvPacket? ==> InBounds(packet.data, args.value.width, 0)
      modifies this
      ensures
        if ec != 0 then args == old(args) && out == old(out) + [Failed(frame, ec)]
        else if packet.SequenceHeader? then args == Some(Args(packet.width, packet.sets, false)) && out == old(out)
        else if old(args).Some? && packet.EndOfSequence? then args == old(args) && out == old(out) + [EndOfStream]
        else if old(args).Some? && packet.AvPacket? then
          var a := old(args).value;
          var nals := Units(packet.data, a.width, 0);
          && out == old(out) + FramesOf(Payloads(nals, a).0, frame.pts, packet.cts, packet.keyframe)
          && args == Some(a.(sent := SentAfter(nals, a)))
        else args == old(args) && out == old(out)
    {
      if ec != 0 {
        out := out + [Failed(frame, ec)];
        return;
      }
      if packet.Malformed? {
        return;
      }
      if packet.SequenceHeader? {
        args := Some(Args(packet.width, packet.sets, false));
        return;
      }
      if args.None? {
        return;
      }
      if packet.EndOfSequence? {
        out := out + [EndOfStream];
        return;
      }
      if !packet.AvPacket? {
        return;
      }
      DemuxAvPacket(packet.data, frame.pts, packet.cts, packet.keyframe);
    }
  }

  lemma NothingDone(a: Args)
    ensures Payloads([], a) == ([], true) && (SentAfter([], a) <==> a.sent)
  {
  }

  lemma NextUnit(data: seq<byte>, width: nat, offset: nat)
    requires offset < |data| && InBounds(data, width, offset)
    ensures offset + width <= |data|
    ensures
      var size := Number(data[offset..], width);
      var begin := offset + width;
      if size == 0 then Units(data, width, offset) == []
      else
        && begin + size <= |data| && InBounds(data, width, begin + size)
        && Units(data, width, offset) == [data[begin..begin + size]] + Units(data, width, begin + size)
  {
  }

  lemma NoUnits(data: seq<byte>, width: nat, offset: nat)
    requires offset >= |data| && InBounds(data, width, offset)
    ensures Units(data, width, offset) == []
  {
  }

  lemma TypeOf(data: seq<byte>, begin: nat, size: nat)
    requires 0 < size && begin + size <= |data|
    ensures IsIdr(data[begin..begin + size]) <==> data[begin] % 32 == IDR
  {
  }

  lemma StillUnsent(nals: seq<Nal>, a: Args)
    requires a.sets.None?
    ensures SentAfter(nals, a) <==> a.sent
  {
  }

  // ---- What a run puts out ----

  /** The place of the first IDR picture, -1 if there is none. */
  function FirstIdr(nals: seq<Nal>): (i: int)
    ensures -1 <= i < |nals|
    ensures i >= 0 ==> IsIdr(nals[i])
    ensures forall k :: 0 <= k < (if i < 0 then |nals| else i) ==> !IsIdr(nals[k])
  {
    if nals == [] then -1
    else
      var i := FirstIdr(nals[..|nals| - 1]);
      if i >= 0 then i else if IsIdr(nals[|nals| - 1]) then |nals| - 1 else -1
  }

  /** All units behind start codes, with the parameter sets right before the first IDR picture. */
  function WithSets(nals: seq<Nal>, sets: seq<byte>): seq<seq<byte>> {
    var i := FirstIdr(nals);
    if i < 0 then CodedAll(nals) else CodedAll(nals[..i]) + [sets] + CodedAll(nals[i..])
  }

  lemma CodedAllAppend(a: seq<Nal>, b: seq<Nal>)
    ensures CodedAll(a + b) == CodedAll(a) + CodedAll(b)
  {
  }

  lemma CodedAllShort(n: Nal)
    ensures CodedAll([]) == [] && CodedAll([n]) == [Coded(n)]
  {
  }

  lemma FirstIdrAppend(a: seq<Nal>, b: seq<Nal>)
    ensures FirstIdr(a + b) == if FirstIdr(a) >= 0 then FirstIdr(a) else if FirstIdr(b) >= 0 then |a| + FirstIdr(b) else -1
  {
    hide IsIdr;
    var i, c := FirstIdr(a + b), a + b;
    if FirstIdr(a) >= 0 {
      assert IsIdr(c[FirstIdr(a)]);
    } else if FirstIdr(b) >= 0 {
      assert IsIdr(c[|a| + FirstIdr(b)]);
    }
    assert i >= |a| ==> c[i] == b[i - |a|];
  }

  lemma WithSetsAt(nals: seq<Nal>, sets: seq<byte>, i: nat)
    requires FirstIdr(nals) == i
    ensures i <= |nals| && WithSets(nals, sets) == CodedAll(nals[..i]) + [sets] + CodedAll(nals[i..])
  {
  }

  lemma WithSetsNever(nals: seq<Nal>, sets: seq<byte>)
    requires FirstIdr(nals) < 0
    ensures WithSets(nals, sets) == CodedAll(nals)
  {
  }

  lemma WithSetsBefore(a: seq<Nal>, b: seq<Nal>, sets: seq<byte>)
    requires FirstIdr(a) >= 0
    ensures WithSets(a + b, sets) == WithSets(a, sets) + CodedAll(b)
  {
    hide *;
    FirstIdrAppend(a, b);
    var i := FirstIdr(a);
    WithSetsAt(a, sets, i);
    WithSetsAt(a + b, sets, i);
    SlicesOfAppend(a, b, i);
    CodedAllAppend(a[i..], b);
    Associative(CodedAll(a[..i]) + [sets], CodedAll(a[i..]), CodedAll(b));
  }

  lemma WithSetsAfter(a: seq<Nal>, b: seq<Nal>, sets: seq<byte>)
    requires FirstIdr(a) < 0
    ensures WithSets(a + b, sets) == CodedAll(a) + WithSets(b, sets)
  {
    hide *;
    FirstIdrAppend(a, b);
    CodedAllAppend(a, b);
    var j := FirstIdr(b);
    if j < 0 {
      WithSetsNever(b, sets);
      WithSetsNever(a + b, sets);
    } else {
      WithSetsAt(b, sets, j);
      WithSetsAt(a + b, sets, |a| + j);
      SlicesOfAppend(a, b, |a| + j);
      CodedAllAppend(a, b[..j]);
      Regroup(CodedAll(a), CodedAll(b[..j]), [sets], CodedAll(b[j..]));
    }
  }

  lemma WithSetsAppend(a: seq<Nal>, b: seq<Nal>, sets: seq<byte>)
    ensures WithSets(a + b, sets) == WithSets(a, sets) + if FirstIdr(a) >= 0 then CodedAll(b) else WithSets(b, sets)
  {
    hide IsIdr, FirstIdr, CodedAll;
    if FirstIdr(a) >= 0 {
      WithSetsBefore(a, b, sets);
    } else {
      WithSetsAfter(a, b, sets);
    }
  }

  lemma WithSetsOfOne(n: Nal, sets: seq<byte>)
    ensures WithSets([], sets) == [] && WithSets([n], sets) == if IsIdr(n) then [sets, Coded(n)] else [Coded(n)]
  {
    hide IsIdr, Coded;
    CodedAllShort(n);
    assert [n][..0] == [] && [n][0..] == [n];
  }

  /** Every unit of an access unit is put out once, in order, behind a start code, and the parameter sets
      once, before the first IDR picture, if they have not been before. */
  lemma {:induction false} UnitsInOrder(nals: seq<Nal>, args: Args)
    requires args.sets.Some?
    ensures Payloads(nals, args) == (if args.sent then CodedAll(nals) else WithSets(nals, args.sets.value), true)
    ensures SentAfter(nals, args) <==> args.sent || FirstIdr(nals) >= 0
  {
    hide IsIdr, Coded, CodedAll, WithSets, FirstIdr, SentAfter;
    if nals == [] {
      NothingDone(args);
      CodedAllShort([]);
      WithSetsOfOne([], args.sets.value);
    } else {
      var shorter, n := nals[..|nals| - 1], nals[|nals| - 1];
      assert nals == shorter + [n];
      UnitsInOrder(shorter, args);
      PayloadsOfOneMore(shorter, n, args);
      WithSetsAppend(shorter, [n], args.sets.value);
      WithSetsOfOne(n, args.sets.value);
      FirstIdrAppend(shorter, [n]);
      FirstIdrOfOne(n);
      CodedAllAppend(shorter, [n]);
      CodedAllShort(n);
    }
  }

  lemma FirstIdrOfOne(n: Nal)
    ensures FirstIdr([n]) == if IsIdr(n) then 0 else -1
  {
  }

  /** When the library cannot make the parameter sets, exactly the units before the first IDR picture of
      every access unit are put out. */
  lemma {:induction false} WithoutSets(nals: seq<Nal>, args: Args)
    requires args.sets.None? && !args.sent
    ensures
      var i := FirstIdr(nals);
      Payloads(nals, args) == (CodedAll(nals[..if i < 0 then |nals| else i]), i < 0)
  {
    hide IsIdr, Coded, CodedAll, FirstIdr;
    CodedAllShort([]);
    if nals != [] {
      var shorter, n := nals[..|nals| - 1], nals[|nals| - 1];
      assert nals == shorter + [n];
      WithoutSets(shorter, args);
      StillUnsent(shorter, args);
      FirstIdrAppend(shorter, [n]);
      FirstIdrOfOne(n);
      CodedAllAppend(shorter, [n]);
      CodedAllShort(n);
      var i := FirstIdr(nals);
      assert shorter[..|shorter|] == shorter && nals[..|nals|] == nals;
      assert 0 <= i ==> nals[..i] == shorter[..i];
    }
  }

  /** The payloads put out for a run of access units since a sequence header. */
  function RunPayloads(units: seq<seq<Nal>>, args: Args): seq<seq<byte>> {
    if units == [] then []
    else
      var before := units[..|units| - 1];
      RunPayloads(before, args)
      + Payloads(units[|units| - 1], args.(sent := SentAfter(Flatten(before), args))).0
  }

  /** Over a whole run after a sequence header, every unit of every access unit is put out once and in
      order, and the parameter sets exactly once, right before the first IDR picture of the run. */
  lemma {:induction false} SetsOnceInRun(units: seq<seq<Nal>>, width: nat, sets: seq<byte>)
    ensures RunPayloads(units, Args(width, Some(sets), false)) == WithSets(Flatten(units), sets)
  {
    hide IsIdr, Coded, FirstIdr, CodedAll, WithSets, SentAfter, Payloads;
    var args := Args(width, Some(sets), false);
    if units == [] {
      WithSetsOfOne([], sets);
    } else {
      var before, last := units[..|units| - 1], units[|units| - 1];
      SetsOnceInRun(before, width, sets);
      UnitsInOrder(Flatten(before), args);
      UnitsInOrder(last, args.(sent := SentAfter(Flatten(before), args)));
      WithSetsAppend(Flatten(before), last, sets);
    }
  }

  // ---- Reading the lengths back ----

  /** Units behind their lengths. */
  function Pack(nals: seq<Nal>, width: nat): seq<byte>
    requires forall n <- nals :: |n| < Power(width)
  {
    if nals == [] then []
    else
      assert nals[0] in nals;
      NumberBytes(|nals[0]|, width) + nals[0] + Pack(nals[1..], width)
  }

  lemma {:induction false} UnitsReadBack(before: seq<byte>, nals: seq<Nal>, width: nat)
    requires forall n <- nals :: 0 < |n| < Power(width)
    ensures
      var data := before + Pack(nals, width);
      InBounds(data, width, |before|) && Units(data, width, |before|) == nals
    decreases |nals|
  {
    hide Power, Number, NumberBytes, Units, InBounds;
    if nals == [] {
      AtEnd(before, width);
      assert before + Pack(nals, width) == before;
    } else {
      var n := nals[0];
      assert n in nals;
      var size, rest := NumberBytes(|n|, width), Pack(nals[1..], width);
      UnitsReadBack(before + size + n, nals[1..], width);
      OneReadsBack(before, n, width, rest);
      Regroup(before, size, n, rest);
      UnitStep(before + size + n + rest, width, |before|, n);
    }
  }

  lemma AtEnd(data: seq<byte>, width: nat)
    ensures InBounds(data, width, |data|) && Units(data, width, |data|) == []
  {
  }

  lemma UnitStep(data: seq<byte>, width: nat, offset: nat, n: Nal)
    requires n != [] && offset + width + |n| <= |data|
    requires Number(data[offset..], width) == |n| && data[offset + width..offset + width + |n|] == n
    requires InBounds(data, width, offset + width + |n|)
    ensures InBounds(data, width, offset) && Units(data, width, offset) == [n] + Units(data, width, offset + width + |n|)
  {
    hide Number;
  }

  /** The first length and its unit. */
  lemma OneReadsBack(before: seq<byte>, n: Nal, width: nat, rest: seq<byte>)
    requires 0 < |n| < Power(width)
    ensures
      var data := before + NumberBytes(|n|, width) + n + rest;
      && |before| + width + |n| <= |data|
      && Number(data[|before|..], width) == |n|
      && data[|before| + width..|before| + width + |n|] == n
  {
    hide Power, Number, NumberBytes;
    var size := NumberBytes(|n|, width);
    var data := before + size + n + rest;
    assert data[|before|..] == size + (n + rest);
    NumberReadsBack(|n|, width, n + rest);
  }

  lemma {:induction false} UnitsAreNotEmpty(data: seq<byte>, width: nat, offset: nat)
    requires InBounds(data, width, offset)
    ensures forall n <- Units(data, width, offset) :: n != []
    decreases |data| - offset
  {
    hide Number;
    if offset < |data| {
      NextUnit(data, width, offset);
      var size := Number(data[offset..], width);
      if size > 0 {
        UnitsAreNotEmpty(data, width, offset + width + size);
      }
    }
  }

  /** Splitting an access unit gives back the units it was made of exactly when none of them is empty: a
      length of zero ends the access unit. */
  lemma {:induction false} PackReadsBackExactlyWhen(nals: seq<Nal>, width: nat)
    requires forall n <- nals :: |n| < Power(width)
    ensures
      InBounds(Pack(nals, width), width, 0) && Units(Pack(nals, width), width, 0) == nals
      <==> forall n <- nals :: n != []
  {
    hide Power, Units, InBounds;
    var data := Pack(nals, width);
    assert [] + data == data;
    if forall n <- nals :: n != [] {
      UnitsReadBack([], nals, width);
    }
    if InBounds(data, width, 0) {
      UnitsAreNotEmpty(data, width, 0);
    }
  }
}
