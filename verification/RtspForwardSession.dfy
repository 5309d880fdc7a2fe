/**
  The interleaved writer of an RTSP session: RTP packets and RTCP reports, each behind a four-byte header,
  on the connection of the session (section 10.12 of RFC 2326).
 */
module RtspForwardSession {
  import opened HttpParser
  import opened RtspServerContext
  import opened RtspRoundTrip
  import opened Sequences

  const RTP_VIDEO: nat := 0
  const RTCP_VIDEO: nat := 1
  const RTP_AUDIO: nat := 2
  const RTCP_AUDIO: nat := 3

  datatype Media = Video | Audio | OtherMedia

  /** An interleaved frame: its channel and its bytes. */
  datatype Packet = Packet(channel: nat, payload: text)

  /** The frames on the wire. */
  function Bytes(packets: seq<Packet>): text
    requires forall p <- packets :: p.channel < 256
  {
    if packets == [] then []
    else
      var p := packets[|packets| - 1];
      assert p in packets;
      assert forall q <- packets[..|packets| - 1] :: q in packets;
      Bytes(packets[..|packets| - 1]) + FrameHeader(p.channel, |p.payload|) + p.payload
  }

  /** The report that goes before a packet, if one is due. */
  function Report(due: bool, channel: nat, report: text): seq<Packet> {
    if due then [Packet(channel, report)] else []
  }

  predicate IsDue(last: nat, interval: nat, now: nat) {
    last == 0 || last + interval * 1000 <= now
  }

  /** A packet to be sent: the time, and the interval between reports at that time in milliseconds. */
  datatype Tick = Tick(now: nat, interval: nat)

  /** The time of the last report once the packets `ticks` have been sent, 0 if there was none. */
  function LastReport(ticks: seq<Tick>): nat {
    if ticks == [] then 0
    else
      var last, t := LastReport(ticks[..|ticks| - 1]), ticks[|ticks| - 1];
      if IsDue(last, t.interval, t.now) then t.now else last
  }

  /** A report goes out before packet `k`. */
  predicate Reported(ticks: seq<Tick>, k: nat)
    requires k < |ticks|
  {
    IsDue(LastReport(ticks[..k]), ticks[k].interval, ticks[k].now)
  }

  /** The clock runs, in microseconds, and never goes back. */
  predicate Ticking(ticks: seq<Tick>) {
    && (forall k :: 0 <= k < |ticks| ==> ticks[k].now > 0)
    && forall j, k :: 0 <= j < k < |ticks| ==> ticks[j].now <= ticks[k].now
  }

  /** The last report was that of the last packet with one. */
  lemma {:induction false} LastReportIs(ticks: seq<Tick>, n: nat)
    requires Ticking(ticks) && n <= |ticks|
    ensures forall j :: 0 <= j < n && Reported(ticks, j) ==> ticks[j].now <= LastReport(ticks[..n])
    ensures LastReport(ticks[..n]) > 0 ==> exists j :: 0 <= j < n && Reported(ticks, j) && ticks[j].now == LastReport(ticks[..n])
    ensures LastReport(ticks[..n]) == 0 ==> n == 0
  {
    hide IsDue;
    if n > 0 {
      LastReportIs(ticks, n - 1);
      assert ticks[..n][..n - 1] == ticks[..n - 1];
      if Reported(ticks, n - 1) {
        assert LastReport(ticks[..n]) == ticks[n - 1].now;
      } else {
        NeverIsDue(ticks[n - 1].interval, ticks[n - 1].now);
        assert LastReport(ticks[..n]) == LastReport(ticks[..n - 1]);
      }
    }
  }

  lemma NeverIsDue(interval: nat, now: nat)
    ensures IsDue(0, interval, now)
  {
  }

  /** A report goes out before a packet exactly when its interval has passed since every report so far: so one goes
      before the first packet, and no two are closer than the interval. */
  lemma {:induction false} ReportedExactlyWhen(ticks: seq<Tick>, k: nat)
    requires Ticking(ticks) && k < |ticks|
    ensures
      Reported(ticks, k) <==>
      forall j :: 0 <= j < k && Reported(ticks, j) ==> ticks[k].now - ticks[j].now >= ticks[k].interval * 1000
  {
    hide LastReport;
    LastReportIs(ticks, k);
  }

  class Session {
    var videoRtcpTime: nat
    var audioRtcpTime: nat
    /** The frames handed to the connection, and the packets they make up. */
    ghost var written: seq<text>
    ghost var packets: seq<Packet>
    /** When the packets of each medium were sent. */
    ghost var videoTicks: seq<Tick>
    ghost var audioTicks: seq<Tick>

    ghost predicate Valid()
      reads this
    {
      && (forall p <- packets :: p.channel < 256) && Flatten(written) == Bytes(packets)
      && videoRtcpTime == LastReport(videoTicks) && audioRtcpTime == LastReport(audioTicks)
    }

    constructor ()
      ensures Valid() && packets == [] && videoTicks == audioTicks == []
    {
      videoRtcpTime, audioRtcpTime, written, packets := 0, 0, [], [];
      videoTicks, audioTicks := [], [];
    }

    /** A `$`, the channel, and the size of the frame in two bytes, as far as they hold it. */
    method MakeFrameHeader(channel: nat, frame: text) returns (header: text)
      requires channel < 256
      ensures |header| == 4 && header[0] == '$' && header[1] as int == channel
      ensures header[2] as int * 256 + header[3] as int == |frame| % 65536
    {
      var bytes := |frame|;
      header := ['$', channel as char, (bytes / 256 % 256) as char, (bytes % 256) as char];
    }

    /** Hands a header and a frame to the connection. */
    method WriteFrames(channel: nat, frame: text)
      requires Valid() && channel < 256
      modifies `written, `packets
      ensures Valid() && packets == old(packets) + [Packet(channel, frame)]
    {
      hide FrameHeader;
      var header := MakeFrameHeader(channel, frame);
      SameHeader(header, channel, |frame|);
      FlattenOneMore(written, header);
      FlattenOneMore(written + [header], frame);
      written := written + [header] + [frame];
      assert (packets + [Packet(channel, frame)])[..|packets|] == packets;
      packets := packets + [Packet(channel, frame)];
    }

    method SendVideoRtcp(now: nat, interval: nat, report: text)
      requires Valid()
      modifies `videoRtcpTime, `videoTicks, `written, `packets
      ensures Valid() && videoTicks == old(videoTicks) + [Tick(now, interval)]
      ensures packets == old(packets) + Report(Reported(videoTicks, |old(videoTicks)|), RTCP_VIDEO, report)
    {
      ghost var ticks := videoTicks + [Tick(now, interval)];
      assert ticks[..|videoTicks|] == videoTicks;
      videoTicks := ticks;
      if videoRtcpTime == 0 || videoRtcpTime + interval * 1000 <= now {
        videoRtcpTime := now;
        WriteFrames(RTCP_VIDEO, report);
      }
    }

    method SendAudioRtcp(now: nat, interval: nat, report: text)
      requires Valid()
      modifies `audioRtcpTime, `audioTicks, `written, `packets
      ensures Valid() && audioTicks == old(audioTicks) + [Tick(now, interval)]
      ensures packets == old(packets) + Report(Reported(audioTicks, |old(audioTicks)|), RTCP_AUDIO, report)
    {
      ghost var ticks := audioTicks + [Tick(now, interval)];
      assert ticks[..|audioTicks|] == audioTicks;
      audioTicks := ticks;
      if audioRtcpTime == 0 || audioRtcpTime + interval * 1000 <= now {
        audioRtcpTime := now;
        WriteFrames(RTCP_AUDIO, report);
      }
    }

    /** What the channel of the session does with an RTP packet: video on channels 0 and 1, audio on 2 and 3, as answered
        to SETUP. The time, the interval between reports and the report itself come from the RTP library. */
    method ChannelOut(media: Media, frame: text, ec: int, now: nat, interval: nat, report: text)
      returns (shutdown: bool)
      requires Valid()
      modifies this
      ensures Valid() && (shutdown <==> ec != 0)
      ensures videoTicks == old(videoTicks) + if ec == 0 && media == Video then [Tick(now, interval)] else []
      ensures audioTicks == old(audioTicks) + if ec == 0 && media == Audio then [Tick(now, interval)] else []
      ensures
        packets == old(packets) +
          if ec != 0 || media == OtherMedia then []
          else if media == Video then
            Report(Reported(videoTicks, |old(videoTicks)|), 1, report) + [Packet(0, frame)]
          else
            Report(Reported(audioTicks, |old(audioTicks)|), 3, report) + [Packet(2, frame)]
    {
      hide LastReport;
      shutdown := ec != 0;
      if shutdown {
        return;
      }
      if media == Video {
        SendVideoRtcp(now, interval, report);
        WriteFrames(RTP_VIDEO, frame);
      } else if media == Audio {
        SendAudioRtcp(now, interval, report);
        WriteFrames(RTP_AUDIO, frame);
      }
    }
  }

  /** Four bytes with these values are the header. */
  lemma SameHeader(header: text, channel: nat, size: nat)
    requires channel < 256 && |header| == 4 && header[0] == '$' && header[1] as int == channel
    requires header[2] as int * 256 + header[3] as int == size % 65536
    ensures header == FrameHeader(channel, size)
  {
    hide FrameHeader;
    HeaderBytes(channel, size);
    var h := FrameHeader(channel, size);
    assert header[2] as int == h[2] as int;
    assert header[3] as int == h[3] as int;
  }

  predicate Sizeable(p: Packet) {
    p.channel < 256 && 12 <= |p.payload| <= 65535
  }

  function Items(packets: seq<Packet>): (items: seq<Item>)
    ensures |items| == |packets|
    ensures forall k :: 0 <= k < |items| ==> items[k] == FrameItem(packets[k].channel, packets[k].payload)
  {
    seq(|packets|, k requires 0 <= k < |packets| => FrameItem(packets[k].channel, packets[k].payload))
  }

  function Interleaveds(packets: seq<Packet>): (ds: seq<Delivery>)
    ensures |ds| == |packets|
    ensures forall k :: 0 <= k < |ds| ==> ds[k] == Interleaved(packets[k].channel, packets[k].payload)
  {
    seq(|packets|, k requires 0 <= k < |packets| => Interleaved(packets[k].channel, packets[k].payload))
  }

  lemma {:induction false} EncodeAllOfOneMore(items: seq<Item>, item: Item)
    requires (forall i <- items :: ValidItem(i)) && ValidItem(item)
    ensures EncodeAll(items + [item]) == EncodeAll(items) + Encode(item)
  {
    hide Encode, PrintRequest;
    assert items != [] ==> items[0] in items;
    if items == [] {
      assert [] + [item] == [item] && [item][1..] == [];
    } else {
      assert (items + [item])[1..] == items[1..] + [item];
      EncodeAllOfOneMore(items[1..], item);
      Associative(Encode(items[0]), EncodeAll(items[1..]), Encode(item));
    }
  }

  lemma {:induction false} BytesAreEncoded(packets: seq<Packet>)
    requires forall p <- packets :: Sizeable(p)
    ensures (forall p <- packets :: p.channel < 256) && forall i <- Items(packets) :: ValidItem(i)
    ensures Bytes(packets) == EncodeAll(Items(packets))
  {
    hide FrameHeader, Items, Sizeable, ValidItem, EncodeAll;
    ItemsAreValid(packets);
    if packets != [] {
      var before, p := packets[..|packets| - 1], packets[|packets| - 1];
      assert p in packets && packets == before + [p];
      forall q <- before
        ensures Sizeable(q)
      {
        assert q in packets;
      }
      BytesAreEncoded(before);
      LastItem(before, p);
      EncodeAllOfOneMore(Items(before), FrameItem(p.channel, p.payload));
    } else {
      NoItems();
    }
  }

  lemma NoItems()
    ensures Items([]) == [] && EncodeAll([]) == []
  {
  }

  lemma LastItem(before: seq<Packet>, p: Packet)
    requires Sizeable(p)
    ensures Items(before + [p]) == Items(before) + [FrameItem(p.channel, p.payload)]
    ensures ValidItem(FrameItem(p.channel, p.payload))
    ensures Encode(FrameItem(p.channel, p.payload)) == FrameHeader(p.channel, |p.payload|) + p.payload
  {
  }

  lemma ItemsAreValid(packets: seq<Packet>)
    requires forall p <- packets :: Sizeable(p)
    ensures forall i <- Items(packets) :: ValidItem(i)
  {
    forall i <- Items(packets)
      ensures ValidItem(i)
    {
      var k :| 0 <= k < |packets| && i == Items(packets)[k];
      assert packets[k] in packets;
    }
  }

  lemma {:induction false} ItemsDeliver(packets: seq<Packet>)
    ensures DeliverAll(Items(packets)) == Interleaveds(packets)
  {
    if packets != [] {
      assert Items(packets)[1..] == Items(packets[1..]);
      ItemsDeliver(packets[1..]);
    }
  }

  /** What a session writes comes out of the framing of the other side as exactly the packets it was given,
      with its reports, in order, as long as all have a size the format allows. */
  lemma {:induction false} SessionReadsBack(session: Session)
    requires session.Valid() && forall p <- session.packets :: Sizeable(p)
    ensures Frames(Flatten(session.written)) == Framing(Interleaveds(session.packets), [], false)
  {
    hide Frames, Bytes;
    BytesAreEncoded(session.packets);
    StreamRoundTrip(Items(session.packets));
    ItemsDeliver(session.packets);
  }
}
