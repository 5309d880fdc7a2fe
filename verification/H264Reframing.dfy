/**
  From RTMP to RTSP: what the decoder puts out behind start codes, the scanner takes apart again.
 */
module H264Reframing {
  import opened Bytes
  import opened Options
  import opened Frames
  import opened Sequences
  import opened RtmpH264Decoder
  import opened RtspH264Encoder

  /** The parameter sets as the library puts them into one frame. */
  function SetsPayload(sets: seq<Nal>): seq<byte> {
    Flatten(CodedAll(sets))
  }

  /** A run of units with the parameter sets before the first IDR picture. */
  function Inserted(nals: seq<Nal>, sets: seq<Nal>): seq<Nal> {
    var i := FirstIdr(nals);
    if i < 0 then nals else nals[..i] + sets + nals[i..]
  }

  /** Payloads behind start codes of four bytes are a byte stream. */
  lemma {:induction false} CodedIsStream(nals: seq<Nal>)
    ensures Flatten(CodedAll(nals)) == Stream(Long(|nals|), nals)
  {
    if nals == [] {
      CodedAllShort([]);
    } else {
      var first, rest := nals[0], nals[1..];
      assert nals == [first] + rest;
      CodedAllAppend([first], rest);
      CodedAllShort(first);
      FlattenAppend(CodedAll([first]), CodedAll(rest));
      FlattenOneMore([], Coded(first));
      assert [] + [Coded(first)] == CodedAll([first]);
      CodedIsStream(rest);
      assert Long(|nals|)[1..] == Long(|rest|);
    }
  }

  /** Taken frame by frame: the scanner gives back the unit of a frame exactly when it can be told apart. */
  lemma {:induction false} FrameReadsBack(n: Nal)
    requires n != []
    ensures Nals(Coded(n)) == [n] <==> Distinct(n, true)
  {
    hide Nals, Distinct;
    ScanExactlyWhen([true], [n]);
    assert Stream([true], [n]) == Coded(n);
    assert AllDistinct([n]) <==> Distinct([n][0], true);
  }

  // ---- A run, frame by frame ----

  /** The units found in each of a list of frames. */
  function Scans(payloads: seq<seq<byte>>): (scans: seq<seq<Nal>>)
    ensures |scans| == |payloads|
  {
    seq(|payloads|, k requires 0 <= k < |payloads| => Nals(payloads[k]))
  }

  /** The units found in a list of frames, each scanned by itself. */
  function ScanEach(payloads: seq<seq<byte>>): seq<Nal> {
    Flatten(Scans(payloads))
  }

  lemma ScanEachOneMore(payloads: seq<seq<byte>>, payload: seq<byte>)
    ensures ScanEach([]) == [] && ScanEach(payloads + [payload]) == ScanEach(payloads) + Nals(payload)
  {
    hide Nals, Flatten;
    assert Scans(payloads + [payload]) == Scans(payloads) + [Nals(payload)];
    FlattenOneMore(Scans(payloads), Nals(payload));
    assert Scans([]) == [];
    NothingFlattened();
  }

  lemma NothingFlattened()
    ensures Flatten<Nal>([]) == []
  {
  }

  /** Every unit can be told apart when it is alone in its frame. */
  predicate EachDistinct(nals: seq<Nal>) {
    forall n <- nals :: Distinct(n, true)
  }

  function Singles(nals: seq<Nal>): (singles: seq<seq<Nal>>)
    ensures |singles| == |nals|
  {
    seq(|nals|, k requires 0 <= k < |nals| => [nals[k]])
  }

  lemma {:induction false} FlattenSingles(nals: seq<Nal>)
    ensures Flatten(Singles(nals)) == nals
  {
    if nals != [] {
      var n := |nals| - 1;
      assert Singles(nals)[..n] == Singles(nals[..n]);
      FlattenSingles(nals[..n]);
    }
  }

  /** The frames of a list of units, each scanned by itself. */
  lemma CodedScans(nals: seq<Nal>)
    requires forall n <- nals :: n != []
    ensures |Scans(CodedAll(nals))| == |nals| && forall k :: 0 <= k < |nals| ==> |Scans(CodedAll(nals))[k]| >= 1
    ensures Scans(CodedAll(nals)) == Singles(nals) <==> EachDistinct(nals)
  {
    hide Nals, Distinct;
    var found := Scans(CodedAll(nals));
    forall k | 0 <= k < |nals|
      ensures |found[k]| >= 1 && (found[k] == [nals[k]] <==> Distinct(nals[k], true))
    {
      assert nals[k] in nals;
      FrameReadsBack(nals[k]);
      OneIsFound(nals[k]);
    }
    if found == Singles(nals) {
      forall n <- nals
        ensures Distinct(n, true)
      {
        var k :| 0 <= k < |nals| && nals[k] == n;
        assert found[k] == Singles(nals)[k];
      }
    }
    if EachDistinct(nals) {
      forall k | 0 <= k < |nals|
        ensures found[k] == Singles(nals)[k]
      {
        assert nals[k] in nals;
      }
    }
  }

  lemma OneIsFound(n: Nal)
    requires n != []
    ensures |Nals(Coded(n))| >= 1
  {
    hide Nals;
    AtLeastAsMany([n]);
    assert Stream(RtspH264Encoder.Long(1), [n]) == Coded(n);
  }

  /** The frame of parameter sets. */
  lemma SetsScan(sets: seq<Nal>)
    requires forall n <- sets :: n != []
    ensures |Nals(SetsPayload(sets))| >= |sets|
    ensures Nals(SetsPayload(sets)) == sets <==> AllDistinct(sets)
  {
    hide Nals, AllDistinct, Stream;
    CodedIsStream(sets);
    AtLeastAsMany(sets);
    ScanExactlyWhen(Long(|sets|), sets);
  }

  lemma ScansAppend(a: seq<seq<byte>>, b: seq<seq<byte>>)
    ensures Scans(a + b) == Scans(a) + Scans(b)
  {
    hide Nals;
  }

  /** Units in frames of their own, with the parameter sets in one frame before the first IDR picture. */
  lemma ScanWithSets(nals: seq<Nal>, sets: seq<Nal>)
    requires (forall n <- nals :: n != []) && (forall n <- sets :: n != [])
    ensures
      ScanEach(WithSets(nals, SetsPayload(sets))) == Inserted(nals, sets)
      <==> EachDistinct(nals) && (FirstIdr(nals) >= 0 ==> AllDistinct(sets))
  {
    hide Nals, Distinct, AllDistinct, FirstIdr, CodedAll, SetsPayload, EachDistinct, Singles, Flatten, Scans;
    var i := FirstIdr(nals);
    if i < 0 {
      CodedScans(nals);
      SinglesAre(nals);
      FlattenSingles(nals);
      FlattenSame(Scans(CodedAll(nals)), Singles(nals));
    } else {
      var a, b := nals[..i], nals[i..];
      assert nals == a + b;
      ScanParts(a, b, sets);
      EachDistinctAppend(a, b);
    }
  }

  lemma SinglesAre(nals: seq<Nal>)
    ensures forall k :: 0 <= k < |nals| ==> |Singles(nals)[k]| == 1
  {
  }

  lemma EachDistinctAppend(a: seq<Nal>, b: seq<Nal>)
    ensures EachDistinct(a + b) <==> EachDistinct(a) && EachDistinct(b)
  {
    hide Distinct;
    assert forall n <- a :: n in a + b;
    assert forall n <- b :: n in a + b;
  }

  lemma ScanParts(a: seq<Nal>, b: seq<Nal>, sets: seq<Nal>)
    requires (forall n <- a + b :: n != []) && (forall n <- sets :: n != [])
    ensures
      ScanEach(CodedAll(a) + [SetsPayload(sets)] + CodedAll(b)) == a + sets + b
      <==> EachDistinct(a) && EachDistinct(b) && AllDistinct(sets)
  {
    hide Nals, Distinct, AllDistinct, CodedAll, SetsPayload, EachDistinct, Singles, Flatten, Scans;
    assert forall n <- a :: n in a + b;
    assert forall n <- b :: n in a + b;
    CodedScans(a);
    CodedScans(b);
    SetsScan(sets);
    SinglesAre(a);
    SinglesAre(b);
    var sa, sb := Scans(CodedAll(a)), Scans(CodedAll(b));
    var found, wanted := sa + [Nals(SetsPayload(sets))] + sb, Singles(a) + [sets] + Singles(b);
    ScansAppend(CodedAll(a) + [SetsPayload(sets)], CodedAll(b));
    ScansAppend(CodedAll(a), [SetsPayload(sets)]);
    OneScan(SetsPayload(sets));
    FlattenThree(Singles(a), sets, Singles(b));
    FlattenSingles(a);
    FlattenSingles(b);
    FlattenSame(found, wanted);
    SameParts(sa, Nals(SetsPayload(sets)), sb, Singles(a), sets, Singles(b));
  }

  lemma OneScan(payload: seq<byte>)
    ensures Scans([payload]) == [Nals(payload)]
  {
    hide Nals;
  }

  lemma FlattenThree<T>(a: seq<seq<T>>, part: seq<T>, b: seq<seq<T>>)
    ensures Flatten(a + [part] + b) == Flatten(a) + part + Flatten(b)
  {
    hide Flatten;
    FlattenAppend(a + [part], b);
    FlattenOneMore(a, part);
  }

  lemma SameParts<T>(a: seq<T>, x: T, b: seq<T>, a': seq<T>, x': T, b': seq<T>)
    requires |a| == |a'| && |b| == |b'|
    ensures a + [x] + b == a' + [x'] + b' <==> a == a' && x == x' && b == b'
  {
    if a + [x] + b == a' + [x'] + b' {
      EndsMatch(a + [x], b, a' + [x'], b');
      EndsMatch(a, [x], a', [x']);
      assert x == [x][0];
    }
  }

  /** A whole run: access units of units behind their lengths go through the decoder, and the scanner, looking
      at each frame that comes out by itself, finds exactly these units, with the parameter sets before the
      first IDR picture, if and only if every unit can be told apart in a frame of its own and, once there is
      an IDR picture, the parameter sets can in theirs. */
  lemma {:induction false} ReframingExactlyWhen(units: seq<seq<Nal>>, width: nat, sets: seq<Nal>)
    requires forall u <- units :: forall n <- u :: 0 < |n| < Power(width)
    requires sets != [] && forall n <- sets :: n != []
    ensures
      forall u <- units :: InBounds(Pack(u, width), width, 0) && RtmpH264Decoder.Units(Pack(u, width), width, 0) == u
    ensures
      var all := Flatten(units);
      ScanEach(RunPayloads(units, Args(width, Some(SetsPayload(sets)), false))) == Inserted(all, sets)
      <==> EachDistinct(all) && (FirstIdr(all) >= 0 ==> AllDistinct(sets))
  {
    hide Nals, Distinct, AllDistinct, RunPayloads, WithSets, Power, InBounds, Units, FirstIdr, EachDistinct, ScanEach,
      Inserted;
    forall u <- units
      ensures InBounds(Pack(u, width), width, 0) && RtmpH264Decoder.Units(Pack(u, width), width, 0) == u
    {
      PackReadsBackExactlyWhen(u, width);
    }
    SetsOnceInRun(units, width, SetsPayload(sets));
    NotEmptyFlattened(units);
    ScanWithSets(Flatten(units), sets);
  }

  /** What the decoder puts out goes to the scanner frame by frame, errors and the end as errors. */
  method Forward(outputs: seq<Output>, eof: int, encoder: Encoder)
    requires eof != 0 && forall o <- outputs :: o.Failed? ==> o.ec != 0
    modifies encoder
    ensures encoder.found == old(encoder.found) + ScanEach(PayloadsOf(outputs))
    ensures encoder.sps == LastOfType(ScanEach(PayloadsOf(outputs)), SPS, old(encoder.sps))
    ensures encoder.pps == LastOfType(ScanEach(PayloadsOf(outputs)), PPS, old(encoder.pps))
  {
    hide Nals, ScanEach, LastOfType, PayloadsOf;
    NonePut(encoder.sps, encoder.pps);
    for k := 0 to |outputs|
      invariant encoder.found == old(encoder.found) + ScanEach(PayloadsOf(outputs[..k]))
      invariant encoder.sps == LastOfType(ScanEach(PayloadsOf(outputs[..k])), SPS, old(encoder.sps))
      invariant encoder.pps == LastOfType(ScanEach(PayloadsOf(outputs[..k])), PPS, old(encoder.pps))
    {
      OneMorePut(outputs, k, old(encoder.sps), old(encoder.pps));
      if outputs[k].Put? {
        Associative(old(encoder.found), ScanEach(PayloadsOf(outputs[..k])), Nals(outputs[k].frame.data));
        encoder.Write(Some(outputs[k].frame), 0);
      } else if outputs[k].Failed? {
        encoder.Write(Some(outputs[k].frame), outputs[k].ec);
      } else {
        encoder.Write(None, eof);
      }
    }
    assert outputs[..|outputs|] == outputs;
  }

  /** The payloads among the outputs of the decoder. */
  function PayloadsOf(outputs: seq<Output>): seq<seq<byte>> {
    if outputs == [] then []
    else
      var last := outputs[|outputs| - 1];
      PayloadsOf(outputs[..|outputs| - 1]) + if last.Put? then [last.frame.data] else []
  }

  lemma NonePut(sps: Option<Nal>, pps: Option<Nal>)
    ensures ScanEach(PayloadsOf([])) == [] && LastOfType([], SPS, sps) == sps && LastOfType([], PPS, pps) == pps
  {
    assert Scans([]) == [];
  }

  lemma OneMorePut(outputs: seq<Output>, k: nat, sps: Option<Nal>, pps: Option<Nal>)
    requires k < |outputs|
    ensures
      var before, after := ScanEach(PayloadsOf(outputs[..k])), ScanEach(PayloadsOf(outputs[..k + 1]));
      if outputs[k].Put? then
        var nals := Nals(outputs[k].frame.data);
        && after == before + nals
        && LastOfType(after, SPS, sps) == LastOfType(nals, SPS, LastOfType(before, SPS, sps))
        && LastOfType(after, PPS, pps) == LastOfType(nals, PPS, LastOfType(before, PPS, pps))
      else after == before
  {
    hide Nals, ScanEach, LastOfType;
    assert outputs[..k + 1][..k] == outputs[..k];
    assert PayloadsOf(outputs[..k]) + [] == PayloadsOf(outputs[..k]);
    if outputs[k].Put? {
      var nals := Nals(outputs[k].frame.data);
      var before := ScanEach(PayloadsOf(outputs[..k]));
      ScanEachOneMore(PayloadsOf(outputs[..k]), outputs[k].frame.data);
      LastOfTypeAppend(before, nals, SPS, sps);
      LastOfTypeAppend(before, nals, PPS, pps);
    }
  }

  /** The whole way: a sequence header and access units through a decoder, and what it puts out, frame by
      frame, into the scanner. */
  method Reframe(units: seq<seq<Nal>>, packets: seq<Packet>, frames: seq<Frame>, width: nat, sets: seq<Nal>)
    returns (encoder: Encoder)
    requires forall u <- units :: forall n <- u :: 0 < |n| < Power(width)
    requires sets != [] && forall n <- sets :: n != []
    requires |units| == |packets| == |frames|
    requires forall k :: 0 <= k < |units| ==> units[k] in units && IsAccessUnit(packets[k], units[k], width)
    ensures fresh(encoder)
    ensures
      var all := Flatten(units);
      encoder.found == Inserted(all, sets) <==> EachDistinct(all) && (FirstIdr(all) >= 0 ==> AllDistinct(sets))
  {
    hide Nals, Distinct, AllDistinct, RunPayloads, Power, InBounds, FirstIdr, EachDistinct, ScanEach, Inserted,
      Payloads, SentAfter, PayloadsOf, FramesOf, SetsPayload, IsAccessUnit, LastOfType;
    ghost var args := Args(width, Some(SetsPayload(sets)), false);
    var decoder := new Decoder();
    decoder.Write(EMPTY_FRAME, 0, SequenceHeader(width, Some(SetsPayload(sets))));
    NothingYet(args);
    assert units[..0] == [];
    for k := 0 to |units|
      invariant decoder.args == Some(args.(sent := SentAfter(Flatten(units[..k]), args)))
      invariant PayloadsOf(decoder.out) == RunPayloads(units[..k], args)
      invariant forall o <- decoder.out :: o.Put?
    {
      assert units[k] in units;
      AccessUnitIsRead(packets[k], units[k], width);
      RunPayloadsAt(units, k, args);
      PutPayloads(decoder.out, Payloads(units[k], args.(sent := SentAfter(Flatten(units[..k]), args))).0,
                  frames[k].pts, packets[k].cts, packets[k].keyframe);
      decoder.Write(frames[k], 0, packets[k]);
    }
    assert units[..|units|] == units;
    encoder := new Encoder();
    Forward(decoder.out, 1, encoder);
    assert [] + ScanEach(PayloadsOf(decoder.out)) == ScanEach(PayloadsOf(decoder.out));
    ReframingExactlyWhen(units, width, sets);
  }

  predicate IsAccessUnit(packet: Packet, nals: seq<Nal>, width: nat)
    requires forall n <- nals :: 0 < |n| < Power(width)
  {
    packet.AvPacket? && packet.data == Pack(nals, width)
  }

  lemma AccessUnitIsRead(packet: Packet, nals: seq<Nal>, width: nat)
    requires (forall n <- nals :: 0 < |n| < Power(width)) && IsAccessUnit(packet, nals, width)
    ensures packet.AvPacket? && InBounds(packet.data, width, 0)
    ensures RtmpH264Decoder.Units(packet.data, width, 0) == nals
  {
    hide Power, InBounds, Units, Pack;
    PackReadsBackExactlyWhen(nals, width);
  }

  lemma NothingYet(args: Args)
    requires !args.sent
    ensures PayloadsOf([]) == RunPayloads([], args) == [] && !SentAfter(Flatten([]), args)
  {
  }

  lemma RunPayloadsAt(units: seq<seq<Nal>>, k: nat, args: Args)
    requires k < |units|
    ensures
      var now := args.(sent := SentAfter(Flatten(units[..k]), args));
      && RunPayloads(units[..k + 1], args) == RunPayloads(units[..k], args) + Payloads(units[k], now).0
      && SentAfter(Flatten(units[..k + 1]), args) == SentAfter(units[k], now)
  {
    hide Payloads, IsIdr, Flatten;
    assert units[..k + 1][..k] == units[..k];
    FlattenAt(units, k);
    var a, b := Flatten(units[..k]), units[k];
    assert forall i :: 0 <= i < |a| ==> (a + b)[i] == a[i];
    assert forall i :: 0 <= i < |b| ==> (a + b)[|a| + i] == b[i];
  }

  lemma {:induction false} PutPayloads(outputs: seq<Output>, payloads: seq<seq<byte>>, timestamp: int, cts: int,
                                       keyframe: bool)
    ensures PayloadsOf(outputs + FramesOf(payloads, timestamp, cts, keyframe)) == PayloadsOf(outputs) + payloads
    ensures forall o <- FramesOf(payloads, timestamp, cts, keyframe) :: o.Put?
  {
    var frames := FramesOf(payloads, timestamp, cts, keyframe);
    if payloads == [] {
      assert outputs + frames == outputs;
    } else {
      var n := |payloads| - 1;
      PutPayloads(outputs, payloads[..n], timestamp, cts, keyframe);
      assert (outputs + frames)[..|outputs| + n] == outputs + FramesOf(payloads[..n], timestamp, cts, keyframe);
    }
  }

  lemma {:induction false} NotEmptyFlattened(units: seq<seq<Nal>>)
    requires forall u <- units :: forall n <- u :: 0 < |n|
    ensures forall n <- Flatten(units) :: n != []
  {
    if units != [] {
      var shorter := units[..|units| - 1];
      assert units[|units| - 1] in units;
      forall u <- shorter
        ensures forall n <- u :: 0 < |n|
      {
        assert u in units;
      }
      NotEmptyFlattened(shorter);
    }
  }

  // ---- Types of units ----

  /** A unit (section 7.3.1 of ITU-T H.264): a zero bit, two bits of nal_ref_idc, five bits of nal_unit_type, and the
      rest. */
  function UnitOf(refIdc: nat, unitType: nat, rest: seq<byte>): Nal
    requires refIdc < 4 && unitType < 32
  {
    [refIdc * 32 + unitType] + rest
  }

  /** Both sides read the type of a unit whatever its nal_ref_idc: 5 is an IDR picture (table 7-1), 7 a sequence and
      8 a picture parameter set. */
  lemma {:induction false} TypesAreRead(refIdc: nat, unitType: nat, rest: seq<byte>, before: Option<Nal>)
    requires refIdc < 4 && unitType < 32
    ensures
      var u := UnitOf(refIdc, unitType, rest);
      && (IsIdr(u) <==> unitType == 5)
      && LastOfType([u], SPS, before) == (if unitType == 7 then Some(u) else before)
      && LastOfType([u], PPS, before) == (if unitType == 8 then Some(u) else before)
  {
    var u := UnitOf(refIdc, unitType, rest);
    LastOfOneMore([], u, SPS, before);
    LastOfOneMore([], u, PPS, before);
    assert [] + [u] == [u];
  }

  // ---- The track ----

  lemma {:induction false} LastOfTypeAppend(a: seq<Nal>, b: seq<Nal>, t: nat, before: Option<Nal>)
    ensures LastOfType(a + b, t, before) == LastOfType(b, t, LastOfType(a, t, before))
  {
    if b == [] {
      assert a + b == a;
    } else {
      var shorter, n := b[..|b| - 1], b[|b| - 1];
      assert a + b == (a + shorter) + [n] && b == shorter + [n];
      LastOfTypeAppend(a, shorter, t, before);
      LastOfOneMore(a + shorter, n, t, before);
    }
  }

  lemma {:induction false} LastOfOtherType(a: seq<Nal>, t: nat, before: Option<Nal>)
    requires forall n <- a :: n != [] && NalType(n) != t
    ensures LastOfType(a, t, before) == before
  {
    if a != [] {
      var shorter := a[..|a| - 1];
      assert a[|a| - 1] in a;
      forall n <- shorter
        ensures n != [] && NalType(n) != t
      {
        assert n in a;
      }
      LastOfOtherType(shorter, t, before);
    }
  }

  /** The scanner takes the last of each kind out of the frame of parameter sets. */
  lemma {:induction false} SetsAreTaken(spss: seq<Nal>, ppss: seq<Nal>, before: Option<Nal>)
    requires spss != [] && ppss != [] && AllDistinct(spss + ppss)
    requires forall n <- spss :: n != [] && n[0] % 32 == 7
    requires forall n <- ppss :: n != [] && n[0] % 32 == 8
    ensures
      var found := Nals(SetsPayload(spss + ppss));
      && LastOfType(found, SPS, before) == Some(spss[|spss| - 1])
      && LastOfType(found, PPS, before) == Some(ppss[|ppss| - 1])
  {
    hide Nals, Distinct, AllDistinct;
    CodedIsStream(spss + ppss);
    ScanExactlyWhen(Long(|spss + ppss|), spss + ppss);
    LastOfTypeAppend(spss, ppss, SPS, before);
    LastOfTypeAppend(spss, ppss, PPS, before);
    LastOfOtherType(ppss, SPS, LastOfType(spss, SPS, before));
    assert spss[|spss| - 1] in spss && ppss[|ppss| - 1] in ppss;
  }
}
