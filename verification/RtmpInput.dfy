/**
  The receiving side of the RTMP server as functions of the bytes received: the handshake
  (section 5.2) and the acknowledgement window (section 5.4.3).
 */
module RtmpInput {
  import opened Bytes
  import opened Options
  import opened Sequences

  const RTMP_VERSION := 3
  const HANDSHAKE_SIZE := 1536

  // ---- Handshake ----

  datatype HandshakeState =
    | Uninit      // nothing received
    | Handshake0  // C0 received, C1 arriving
    | Handshake1  // C1 received and answered, C2 arriving
    | Handshake2  // C2 received, chunks arriving

  const AFTER_C0 := 1
  const AFTER_C1 := AFTER_C0 + HANDSHAKE_SIZE
  const AFTER_C2 := AFTER_C1 + HANDSHAKE_SIZE

  /** The state after `n` bytes, whatever reads they came in. */
  function StateAfter(n: nat): HandshakeState {
    if n < AFTER_C0 then Uninit
    else if n < AFTER_C1 then Handshake0
    else if n < AFTER_C2 then Handshake1
    else Handshake2
  }

  /** How many bytes of the block now arriving have been received after `n` bytes. */
  function BlockBytes(n: nat): nat {
    match StateAfter(n)
    case Handshake0 => n - AFTER_C0
    case Handshake1 => n - AFTER_C1
    case _ => 0
  }

  /** The values the server takes from its environment when it answers C1. */
  datatype Clock = Clock(time1: uint32, time2: uint32, random: seq<byte>) {
    predicate Valid() {
      |random| == HANDSHAKE_SIZE - 8
    }
  }

  /** S0, S1 and S2 (sections 5.2.2 to 5.2.4): S2 echoes C1 around the time it was read. */
  function Reply(c1: seq<byte>, clock: Clock): (s: seq<byte>)
    requires |c1| == HANDSHAKE_SIZE && clock.Valid()
    ensures |s| == 1 + HANDSHAKE_SIZE + HANDSHAKE_SIZE
  {
    [RTMP_VERSION] +
    (Be32(clock.time1) + Be32(0) + clock.random) +
    (c1[..4] + Be32(clock.time2) + c1[8..])
  }

  /** Everything sent for the handshake once `stream` has been received. */
  function Replies(stream: seq<byte>, clock: Clock): seq<byte>
    requires clock.Valid()
  {
    if |stream| < AFTER_C1 then [] else Reply(stream[AFTER_C0..AFTER_C1], clock)
  }

  /** The answer is given once: bytes after C1 change nothing about it. */
  lemma RepliesDependOnC1(stream: seq<byte>, more: seq<byte>, clock: Clock)
    requires clock.Valid()
    ensures |stream| < AFTER_C1 ==> Replies(stream, clock) == []
    ensures |stream| >= AFTER_C1 ==> Replies(stream + more, clock) == Replies(stream, clock)
  {
    if |stream| >= AFTER_C1 {
      assert (stream + more)[AFTER_C0..AFTER_C1] == stream[AFTER_C0..AFTER_C1];
    }
  }

  /** What a client reads from the server before chunks: a version (section 5.2.2); the server's time, a zero and
      its random bytes (section 5.2.3); the client's time, the time at which it was read, and the client's random bytes
      (section 5.2.4). */
  datatype Greeting = Greeting(
    version: byte,
    time1: uint32, zero: uint32, random: seq<byte>,
    echoedTime: uint32, time2: uint32, echo: seq<byte>)

  function ReadGreeting(s: seq<byte>): Option<Greeting> {
    if |s| < 3073 then None
    else
      Some(Greeting(
        s[0],
        FromBe32(s[1..5]), FromBe32(s[5..9]), s[9..1537],
        FromBe32(s[1537..1541]), FromBe32(s[1541..1545]), s[1545..3073]))
  }

  /** What a client reads once C1, which stands behind the version in what it has sent, is answered: version 3, the
      time of the server and a zero, and its own time and random bytes as it sent them, whatever follows. */
  lemma {:induction false} ClientReadsGreeting(stream: seq<byte>, clock: Clock, tail: seq<byte>)
    requires clock.Valid() && |stream| >= 1537
    ensures
      ReadGreeting(Replies(stream, clock) + tail) ==
      Some(Greeting(3, clock.time1, 0, clock.random, FromBe32(stream[1..5]), clock.time2, stream[9..1537]))
  {
    hide Be32, FromBe32;
    var c1 := stream[1..1537];
    var s1, s2 := Be32(clock.time1) + Be32(0) + clock.random, c1[..4] + Be32(clock.time2) + c1[8..];
    var s: seq<byte> := [3] + s1 + s2 + tail;
    ReadBackBe32(clock.time1, []);
    ReadBackBe32(0, []);
    ReadBackBe32(clock.time2, []);
    assert s[1..1537] == s1 && s[1537..3073] == s2;
    assert s[1..5] == Be32(clock.time1) + [] && s[5..9] == Be32(0) + [] && s[9..1537] == clock.random;
    assert s[1537..1541] == c1[..4] == stream[1..5] && s[1541..1545] == Be32(clock.time2) + [];
    assert s[1545..3073] == c1[8..] == stream[9..1537];
  }

  /** The bytes that belong to the chunk stream. */
  function ChunkPart(stream: seq<byte>): seq<byte> {
    if |stream| <= AFTER_C2 then [] else stream[AFTER_C2..]
  }

  /** How many bytes of a read of `size` bytes, after `n` earlier ones, belong to the chunk stream. */
  function ChunkBytes(n: nat, size: nat): nat {
    if n >= AFTER_C2 then size else if n + size <= AFTER_C2 then 0 else n + size - AFTER_C2
  }

  // ---- Acknowledgement window ----

  /** The two 32-bit counters: bytes received, and the count last acknowledged. */
  datatype Counters = Counters(received: uint32, acknowledged: uint32)

  datatype AckStep = AckStep(counters: Counters, ack: bool)

  /** One read of `size` bytes: an acknowledgement is due when more than `window` bytes are
      unacknowledged, in 32-bit arithmetic; a window of 0 turns acknowledgements off. */
  function Acknowledge(c: Counters, window: uint32, size: nat): AckStep {
    var received := U32(c.received + U32(size));
    if window != 0 && U32(received - c.acknowledged) > window
    then AckStep(Counters(received, received), true)
    else AckStep(Counters(received, c.acknowledged), false)
  }

  /** The same with unbounded counters: `total` bytes received, `acked` of them acknowledged. */
  datatype Totals = Totals(total: nat, acked: nat)

  function IdealAcknowledge(t: Totals, window: uint32, size: nat): (r: Totals) {
    var total := t.total + size;
    if window != 0 && total - t.acked > window then Totals(total, total) else Totals(total, t.acked)
  }

  predicate Represents(c: Counters, t: Totals) {
    t.acked <= t.total && c == Counters(U32(t.total), U32(t.acked))
  }

  lemma AddMod(a: nat, b: nat)
    ensures U32(U32(a) + U32(b)) == U32(a + b)
  {
    var qa, qb := a / TWO_TO_THE_32, b / TWO_TO_THE_32;
    assert a + b == (qa + qb) * TWO_TO_THE_32 + (U32(a) + U32(b));
  }

  lemma SubMod(a: nat, b: nat)
    requires b <= a
    ensures U32(U32(a) - U32(b)) == U32(a - b)
  {
    var qa, qb := a / TWO_TO_THE_32, b / TWO_TO_THE_32;
    assert a - b == (qa - qb) * TWO_TO_THE_32 + (U32(a) - U32(b));
  }

  /** For one read, exactly when the 32-bit counters follow the unbounded ones: not when the
      unacknowledged count passes 2^32 and its remainder is within the window. */
  lemma {:induction false} AcknowledgeExactlyWhen(c: Counters, t: Totals, window: uint32, size: nat)
    requires Represents(c, t) && window != 0 && t.total - t.acked <= window
    ensures
      var pending := t.total - t.acked + size;
      var step := Acknowledge(c, window, size);
      && step.counters.received == U32(t.total + size)
      && (Represents(step.counters, IdealAcknowledge(t, window, size)) && (step.ack <==> pending > window)
          <==> !(pending >= TWO_TO_THE_32 && U32(pending) <= window))
  {
    AddMod(t.total, size);
    SubMod(t.total + size, t.acked);
  }

  datatype AckRun = AckRun(counters: Counters, acks: seq<uint32>)

  function Acknowledgements(c: Counters, window: uint32, sizes: seq<nat>): AckRun
    decreases |sizes|
  {
    if sizes == [] then AckRun(c, [])
    else
      var step := Acknowledge(c, window, sizes[0]);
      var more := Acknowledgements(step.counters, window, sizes[1..]);
      more.(acks := (if step.ack then [step.counters.received] else []) + more.acks)
  }

  /** One more read at the end of a run. */
  lemma {:induction false} AcknowledgementsOneMore(c: Counters, window: uint32, sizes: seq<nat>, size: nat)
    ensures
      var run := Acknowledgements(c, window, sizes);
      var step := Acknowledge(run.counters, window, size);
      Acknowledgements(c, window, sizes + [size])
      == AckRun(step.counters, run.acks + if step.ack then [step.counters.received] else [])
    decreases |sizes|
  {
    hide Acknowledge;
    if sizes == [] {
      assert [] + [size] == [size] && [size][1..] == [];
    } else {
      assert (sizes + [size])[1..] == sizes[1..] + [size];
      AcknowledgementsOneMore(Acknowledge(c, window, sizes[0]).counters, window, sizes[1..], size);
    }
  }

  /** A window of 0 turns acknowledgements off; the bytes are counted all the same. */
  lemma {:induction false} NoWindowNoAcknowledgement(c: Counters, sizes: seq<nat>)
    ensures Acknowledgements(c, 0, sizes) == AckRun(Counters(U32(c.received + Sum(sizes)), c.acknowledged), [])
    decreases |sizes|
  {
    hide U32;
    if sizes == [] {
      NoChange(c.received);
    } else {
      var received := U32(c.received + U32(sizes[0]));
      NoWindowNoAcknowledgement(Counters(received, c.acknowledged), sizes[1..]);
      SumsWrap(c.received, sizes[0], Sum(sizes[1..]));
    }
  }

  lemma NoChange(n: uint32)
    ensures U32(n) == n
  {
  }

  lemma SumsWrap(n: uint32, a: nat, b: nat)
    ensures U32(U32(n + U32(a)) + b) == U32(n + (a + b))
  {
    AddMod(n, a);
    NoChange(n);
    AddMod(n + a, b);
    var m := U32(n + a);
    AddMod(m, b);
    NoChange(m);
  }

  /** How many bytes each read hands to the chunk stream, for the reads that reach it. */
  function ChunkReads(parts: seq<seq<byte>>): seq<nat> {
    if parts == [] then []
    else
      var before, last := parts[..|parts| - 1], parts[|parts| - 1];
      var count := ChunkBytes(|Flatten(before)|, |last|);
      ChunkReads(before) + if count == 0 then [] else [count]
  }

  lemma ChunkReadsAt(parts: seq<seq<byte>>, k: nat)
    requires k < |parts|
    ensures
      var count := ChunkBytes(|Flatten(parts[..k])|, |parts[k]|);
      ChunkReads(parts[..k + 1]) == ChunkReads(parts[..k]) + if count == 0 then [] else [count]
  {
    hide ChunkBytes;
    assert parts[..k + 1][..k] == parts[..k];
  }

  lemma {:induction false} SumOneMore(sizes: seq<nat>, size: nat)
    ensures Sum(sizes + [size]) == Sum(sizes) + size
  {
    if sizes == [] {
      assert [] + [size] == [size] && [size][1..] == [];
    } else {
      assert (sizes + [size])[1..] == sizes[1..] + [size];
      SumOneMore(sizes[1..], size);
    }
  }

  /** The reads counted hold exactly the bytes of the chunk stream, and none of them is empty. */
  lemma {:induction false} ChunkReadsAreCounted(parts: seq<seq<byte>>)
    ensures Sum(ChunkReads(parts)) == |ChunkPart(Flatten(parts))|
    ensures forall n <- ChunkReads(parts) :: n > 0
  {
    hide Sum;
    if parts == [] {
      NothingCounted();
    } else {
      var before, last := parts[..|parts| - 1], parts[|parts| - 1];
      assert parts == before + [last];
      FlattenOneMore(before, last);
      ChunkReadsAreCounted(before);
      var count := ChunkBytes(|Flatten(before)|, |last|);
      if count == 0 {
        assert ChunkReads(before) + [] == ChunkReads(before);
      } else {
        SumOneMore(ChunkReads(before), count);
      }
    }
  }

  lemma NothingCounted()
    ensures Sum(ChunkReads([])) == 0 && ChunkPart(Flatten([])) == []
  {
  }

  datatype IdealRun = IdealRun(totals: Totals, acks: seq<nat>)

  function IdealAcknowledgements(t: Totals, window: uint32, sizes: seq<nat>): IdealRun
    decreases |sizes|
  {
    if sizes == [] then IdealRun(t, [])
    else
      var next := IdealAcknowledge(t, window, sizes[0]);
      var more := IdealAcknowledgements(next, window, sizes[1..]);
      more.(acks := (if next.acked != t.acked then [next.total] else []) + more.acks)
  }

  /** A read after which the wrapped counters hide what is unacknowledged. */
  predicate Wraps(t: Totals, window: uint32, size: nat) {
    var pending := t.total - t.acked + size;
    pending >= TWO_TO_THE_32 && U32(pending) <= window
  }

  predicate NoneWraps(t: Totals, window: uint32, sizes: seq<nat>)
    decreases |sizes|
  {
    sizes != [] ==> !Wraps(t, window, sizes[0]) && NoneWraps(IdealAcknowledge(t, window, sizes[0]), window, sizes[1..])
  }

  function Wrapped(acks: seq<nat>): (r: seq<uint32>)
    ensures |r| == |acks|
  {
    seq(|acks|, i requires 0 <= i < |acks| => U32(acks[i]))
  }

  /** While no more than the window seems unacknowledged at count `r`, the first acknowledgement is not of `r`. */
  lemma {:induction false} FirstAckMoves(c: Counters, window: uint32, sizes: seq<nat>, r: uint32)
    requires window != 0 && U32(r - c.acknowledged) <= window
    ensures var acks := Acknowledgements(c, window, sizes).acks; acks != [] ==> acks[0] != r
    decreases |sizes|
  {
    if sizes != [] {
      var step := Acknowledge(c, window, sizes[0]);
      if !step.ack {
        FirstAckMoves(step.counters, window, sizes[1..], r);
      }
    }
  }

  /** On any run of reads of any sizes: the acknowledgements carry the true numbers of bytes received, modulo 2^32,
      exactly when no read wraps; then the counters are the true ones modulo 2^32 afterwards. */
  lemma {:induction false} TrueExactlyWhen(c: Counters, t: Totals, window: uint32, sizes: seq<nat>)
    requires Represents(c, t) && window != 0 && t.total - t.acked <= window
    ensures
      var run := Acknowledgements(c, window, sizes);
      var ideal := IdealAcknowledgements(t, window, sizes);
      && (run.acks == Wrapped(ideal.acks) <==> NoneWraps(t, window, sizes))
      && (NoneWraps(t, window, sizes) ==> Represents(run.counters, ideal.totals))
    decreases |sizes|
  {
    hide Wrapped, Wraps, U32, Acknowledge, IdealAcknowledge, Represents;
    if sizes == [] {
      NoneWrapped();
    } else {
      var size, rest := sizes[0], sizes[1..];
      var step, next := Acknowledge(c, window, size), IdealAcknowledge(t, window, size);
      var more, ideal := Acknowledgements(step.counters, window, rest).acks, IdealAcknowledgements(next, window, rest).acks;
      OneRead(c, t, window, size);
      WrappedFirst(t.total + size, ideal);
      NothingBefore(more);
      NothingBefore(ideal);
      if Wraps(t, window, size) {
        FirstAckMoves(step.counters, window, rest, step.counters.received);
        FirstOf(U32(t.total + size), Wrapped(ideal));
      } else {
        TrueExactlyWhen(step.counters, next, window, rest);
        SameFirst(step.counters.received, more, Wrapped(ideal));
      }
    }
  }

  lemma NoneWrapped()
    ensures Wrapped([]) == []
  {
  }

  lemma FirstOf<T>(x: T, s: seq<T>)
    ensures [x] + s != [] && ([x] + s)[0] == x
  {
  }

  /** One read: what is acknowledged, wrapping or not. */
  lemma OneRead(c: Counters, t: Totals, window: uint32, size: nat)
    requires Represents(c, t) && window != 0 && t.total - t.acked <= window
    ensures
      var step, next := Acknowledge(c, window, size), IdealAcknowledge(t, window, size);
      && next.total - next.acked <= window && step.counters.received == U32(t.total + size)
      && next.total == t.total + size
      && if Wraps(t, window, size) then
           !step.ack && next.acked != t.acked && U32(step.counters.received - step.counters.acknowledged) <= window
         else Represents(step.counters, next) && (step.ack <==> next.acked != t.acked)
  {
    AcknowledgeExactlyWhen(c, t, window, size);
    SubMod(t.total + size, t.acked);
  }

  lemma WrappedFirst(n: nat, acks: seq<nat>)
    ensures Wrapped([n] + acks) == [U32(n)] + Wrapped(acks)
  {
  }

  lemma NothingBefore<T>(s: seq<T>)
    ensures [] + s == s
  {
  }

  lemma SameFirst<T>(x: T, a: seq<T>, b: seq<T>)
    ensures [x] + a == [x] + b <==> a == b
  {
    assert ([x] + a)[1..] == a && ([x] + b)[1..] == b;
  }

  /** The largest window there is, and reads of 65536 bytes. */
  const FULL_WINDOW: uint32 := 0xFFFF_FFFF
  const READ_SIZE: nat := 0x1_0000

  function Reads(k: nat): (sizes: seq<nat>)
    ensures |sizes| == k
  {
    seq(k, _ => READ_SIZE)
  }

  lemma {:induction false} ReadsUpToWrap(k: nat)
    requires 0 < k <= 0x1_0000
    ensures
      var total := (0x1_0000 - k) * READ_SIZE;
      && Acknowledgements(Counters(total, 0), FULL_WINDOW, Reads(k)) == AckRun(Counters(0, 0), [])
      && IdealAcknowledgements(Totals(total, 0), FULL_WINDOW, Reads(k)).acks == [TWO_TO_THE_32]
  {
    assert Reads(k)[1..] == Reads(k - 1);
    if k > 1 {
      ReadsUpToWrap(k - 1);
    }
  }

  /** 65536 reads of 65536 bytes: all 2^32 bytes go unacknowledged, although the window is smaller. */
  lemma {:induction false} AcknowledgementIsMissed()
    ensures Acknowledgements(Counters(0, 0), FULL_WINDOW, Reads(0x1_0000)).acks == []
    ensures IdealAcknowledgements(Totals(0, 0), FULL_WINDOW, Reads(0x1_0000)).acks == [TWO_TO_THE_32]
  {
    ReadsUpToWrap(0x1_0000);
  }

  function Sum(sizes: seq<nat>): nat {
    if sizes == [] then 0 else sizes[0] + Sum(sizes[1..])
  }

  /** On every run of reads that each fit in 32 bits together with the window: every acknowledgement
      carries the true number of bytes received, modulo 2^32; the true numbers strictly increase;
      and after the run at most `window` bytes are unacknowledged. */
  lemma {:induction false} AcknowledgementsAreTrue(c: Counters, t: Totals, window: uint32, sizes: seq<nat>)
    requires Represents(c, t) && window != 0 && t.total - t.acked <= window
    requires forall n <- sizes :: window + n < TWO_TO_THE_32
    ensures
      var run := Acknowledgements(c, window, sizes);
      var ideal := IdealAcknowledgements(t, window, sizes);
      && |run.acks| == |ideal.acks|
      && (forall i :: 0 <= i < |run.acks| ==> run.acks[i] == U32(ideal.acks[i]))
      && (forall i :: 0 <= i < |ideal.acks| ==> t.acked < ideal.acks[i])
      && (forall i, j :: 0 <= i < j < |ideal.acks| ==> ideal.acks[i] < ideal.acks[j])
      && Represents(run.counters, ideal.totals)
      && ideal.totals.total == t.total + Sum(sizes)
      && ideal.totals.total - ideal.totals.acked <= window
    decreases |sizes|
  {
    if sizes != [] {
      var size := sizes[0];
      assert size in sizes && forall n <- sizes[1..] :: n in sizes;
      AcknowledgeExactlyWhen(c, t, window, size);
      var step := Acknowledge(c, window, size);
      var next := IdealAcknowledge(t, window, size);
      AcknowledgementsAreTrue(step.counters, next, window, sizes[1..]);
    }
  }
}
