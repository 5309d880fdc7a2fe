/**
  The write side of a connection: frames wait in one queue while a batch of earlier ones, in a second
  queue, is being written. All steps run on one executor, one at a time.
 */
module TcpConnection {
  import opened Bytes
  import opened Sequences

  /** The two queues, whether a write callback is set, and what has happened: the frames submitted, those
      whose write has ended, the bytes that reached the socket, and the writes begun and ended. */
  datatype State = State(
    pending: seq<seq<byte>>, writing: seq<seq<byte>>, callback: bool,
    submitted: seq<seq<byte>>, settled: seq<seq<byte>>, wire: seq<byte>, begun: nat, ended: nat)

  /** `Submit` is a frame to write, `Done` the end of a write, with or without an error, after so many
      bytes; `Callback` sets or, at shutdown, clears the callback. */
  datatype Event = Submit(frame: seq<byte>) | Done(failed: bool, bytes: nat) | Callback(present: bool)

  const INITIAL := State([], [], false, [], [], [], 0, 0)

  /** A write ends only if one has begun; one without an error has written everything. */
  predicate Possible(s: State, e: Event) {
    e.Done? ==>
      && s.ended < s.begun
      && e.bytes <= |Flatten(s.writing)|
      && (!e.failed ==> e.bytes == |Flatten(s.writing)|)
  }

  function BeginWrite(s: State): State {
    if s.writing != [] || s.pending == [] then s
    else s.(writing := s.pending, pending := [], begun := s.begun + 1)
  }

  function EndWrite(s: State, bytes: nat): State
    requires bytes <= |Flatten(s.writing)|
  {
    s.(writing := [], settled := s.settled + s.writing, wire := s.wire + Flatten(s.writing)[..bytes], ended := s.ended + 1)
  }

  function Next(s: State, e: Event): State
    requires Possible(s, e)
  {
    match e
    case Submit(frame) => BeginWrite(s.(pending := s.pending + [frame], submitted := s.submitted + [frame]))
    case Done(failed, bytes) =>
      var s' := EndWrite(s, bytes);
      if failed && !s.callback then s' else BeginWrite(s')
    case Callback(present) => s.(callback := present)
  }

  // ---- The connection ----

  class Connection {
    var writeQueue: seq<seq<byte>>
    var writingQueue: seq<seq<byte>>
    var writeCallback: bool
    ghost var submitted: seq<seq<byte>>
    ghost var settled: seq<seq<byte>>
    ghost var wire: seq<byte>
    ghost var begun: nat
    ghost var ended: nat

    ghost function Value(): State
      reads this
    {
      State(writeQueue, writingQueue, writeCallback, submitted, settled, wire, begun, ended)
    }

    constructor ()
      ensures Value() == INITIAL
    {
      writeQueue, writingQueue, writeCallback := [], [], false;
      submitted, settled, wire, begun, ended := [], [], [], 0, 0;
    }

    method SafeWriteFrame(frame: seq<byte>)
      modifies this
      ensures Value() == Next(old(Value()), Submit(frame))
    {
      writeQueue := writeQueue + [frame];
      submitted := submitted + [frame];
      SafeDoWrite();
    }

    /** Hands all waiting frames to the socket in one write, unless a write is under way. */
    method SafeDoWrite()
      modifies this
      ensures Value() == BeginWrite(old(Value()))
    {
      if writingQueue != [] {
        return;
      }
      if writeQueue == [] {
        return;
      }
      writingQueue, writeQueue := writeQueue, writingQueue;
      begun := begun + 1;
    }

    method SafeOnWrite(failed: bool, bytes: nat)
      requires Possible(Value(), Done(failed, bytes))
      modifies this
      ensures Value() == Next(old(Value()), Done(failed, bytes))
    {
      settled, wire := settled + writingQueue, wire + Flatten(writingQueue)[..bytes];
      ended := ended + 1;
      writingQueue := [];
      if !writeCallback && failed {
        return;
      }
      SafeDoWrite();
    }

    method SetCallback(present: bool)
      modifies this
      ensures Value() == Next(old(Value()), Callback(present))
    {
      writeCallback := present;
    }
  }

  // ---- Runs ----

  /** The events can happen in this order. */
  predicate IsRun(es: seq<Event>)
    decreases |es|, 0
  {
    es == [] || (IsRun(es[..|es| - 1]) && Possible(After(es[..|es| - 1]), es[|es| - 1]))
  }

  function After(es: seq<Event>): State
    requires IsRun(es)
    decreases |es|, 1
  {
    if es == [] then INITIAL else Next(After(es[..|es| - 1]), es[|es| - 1])
  }

  /** The frames submitted in a run, in order. */
  function Submitted(es: seq<Event>): seq<seq<byte>> {
    if es == [] then []
    else
      var e := es[|es| - 1];
      Submitted(es[..|es| - 1]) + if e.Submit? then [e.frame] else []
  }

  /** First in, first out, and nothing lost or written twice: the frames whose write has ended, then those
      being written, then those waiting are at all times the frames submitted. At most one write is under
      way, and one is exactly when frames are being written. */
  lemma {:induction false} FirstInFirstOut(es: seq<Event>)
    requires IsRun(es)
    ensures
      var s := After(es);
      && s.settled + s.writing + s.pending == Submitted(es)
      && s.begun == s.ended + if s.writing == [] then 0 else 1
  {
    if es != [] {
      FirstInFirstOut(es[..|es| - 1]);
    }
  }

  /** A write that begins takes all frames that wait: nothing waits any more, and what is being written is what
      waited, with the frame just submitted at its end. None begins while another is under way. */
  lemma {:induction false} BatchTakesAll(es: seq<Event>, e: Event)
    requires IsRun(es) && Possible(After(es), e) && Next(After(es), e).begun != After(es).begun
    ensures
      var s, s' := After(es), Next(After(es), e);
      && s'.begun == s.begun + 1 && s'.begun == s'.ended + 1
      && s'.pending == [] && s'.writing == s.pending + (if e.Submit? then [e.frame] else []) && s'.writing != []
      && (s.begun > s.ended ==> e.Done?)
  {
    FirstInFirstOut(es);
  }

  predicate NoFailure(es: seq<Event>) {
    forall k :: 0 <= k < |es| && es[k].Done? ==> !es[k].failed
  }

  lemma {:induction false} WireIsSettled(es: seq<Event>)
    requires IsRun(es) && NoFailure(es)
    ensures After(es).wire == Flatten(After(es).settled)
    ensures After(es).writing == [] ==> After(es).pending == []
  {
    if es != [] {
      var before, e := es[..|es| - 1], es[|es| - 1];
      WireIsSettled(before);
      if e.Done? {
        FlattenAppend(After(before).settled, After(before).writing);
      }
    }
  }

  /** Without failures, the bytes on the wire are the bytes of the frames submitted, as far as they have
      been written, and when no write is under way all of them have: no wake-up is lost. */
  lemma {:induction false} EverythingIsWritten(es: seq<Event>)
    requires IsRun(es) && NoFailure(es)
    ensures After(es).wire <= Flatten(Submitted(es))
    ensures After(es).begun == After(es).ended ==> After(es).wire == Flatten(Submitted(es))
  {
    hide After;
    var s := After(es);
    FirstInFirstOut(es);
    WireIsSettled(es);
    FlattenAppend(s.settled + s.writing, s.pending);
    FlattenAppend(s.settled, s.writing);
  }

  /** A write that fails leaves a part of that on the wire, and nothing else. */
  lemma {:induction false} FailureCutsShort(es: seq<Event>, bytes: nat)
    requires IsRun(es) && NoFailure(es) && Possible(After(es), Done(true, bytes))
    ensures Next(After(es), Done(true, bytes)).wire <= Flatten(Submitted(es))
  {
    hide After, IsRun;
    var s := After(es);
    FirstInFirstOut(es);
    WireIsSettled(es);
    FlattenAppend(s.settled + s.writing, s.pending);
    FlattenAppend(s.settled, s.writing);
  }

  /** The last write ended with an error, no callback was set then, and frames were waiting; none has been
      submitted since. */
  predicate Abandoned(es: seq<Event>)
    requires IsRun(es)
  {
    es != [] &&
    var before, e := es[..|es| - 1], es[|es| - 1];
    match e
    case Submit(_) => false
    case Done(failed, _) => failed && !After(before).callback && After(before).pending != []
    case Callback(_) => Abandoned(before)
  }

  /** Frames wait with no write under way exactly when they have been abandoned so. */
  lemma {:induction false} StalledExactlyWhen(es: seq<Event>)
    requires IsRun(es)
    ensures After(es).begun == After(es).ended && After(es).pending != [] <==> Abandoned(es)
  {
    FirstInFirstOut(es);
    if es != [] {
      FirstInFirstOut(es[..|es| - 1]);
      StalledExactlyWhen(es[..|es| - 1]);
    }
  }
}
