/**
  The error that is reported for data cut into buffers, at the header limit too, and the parser object fed with any
  buffers.
 */
module HttpLimits {
  import opened HttpParser
  import opened HttpExecute
  import opened HttpSplits
  import opened Sequences

  // ---- At the header limit ----

  /** The end of the buffer that holds byte `n`. */
  function NextCut(parts: seq<seq<octet>>, n: nat): (e: nat)
    ensures e <= |Flatten(parts)| && (n < |Flatten(parts)| ==> n < e)
  {
    if parts == [] then 0
    else
      var before := parts[..|parts| - 1];
      if n < |Flatten(before)| then NextCut(before, n) else |Flatten(parts)|
  }

  /** The error reported when the automaton passes the limit at byte `n`, in a buffer from `c` to `e`. */
  function AtLimitBetween(p: Parser, data: seq<octet>, n: nat, c: nat, e: nat): Errno
    requires c <= n <= e <= |data|
  {
    var start := Max(c, ScanAt(p, data, n));
    if Path(p, data, 0, n).state == HeaderValue && start < n
    then Reports(Path(p, data, 0, start), data[..e], start, MAX_HEADER_SIZE)
    else HeaderOverflow
  }

  /** The error that the parser reports for data that come in buffers, `OK` when there is none. */
  function ErrorOf(p: Parser, nread: nat, parts: seq<seq<octet>>): Errno
    requires p.errno == OK
  {
    var data := Flatten(parts);
    var all := Feed(p, nread, data, 0);
    if all.p.errno != HeaderOverflow then all.p.errno
    else
      ErrorIsQuiet(p, nread, data, 0);
      AtLimitBetween(p, data, all.pos, LastCut(parts, all.pos), NextCut(parts, all.pos))
  }

  /** The same for one buffer. */
  function OneError(p: Parser, nread: nat, data: seq<octet>): Errno
    requires p.errno == OK
  {
    var all := Feed(p, nread, data, 0);
    if all.p.errno != HeaderOverflow then all.p.errno
    else
      ErrorIsQuiet(p, nread, data, 0);
      AtLimit(p, data, all.pos)
  }

  lemma {:induction false} ReportsShifted(q: Parser, a: seq<octet>, b: seq<octet>, i: nat, left: nat)
    requires i <= |b|
    ensures Reports(q, a + b, |a| + i, left) == Reports(q, b, i, left)
    decreases |b| - i
  {
    hide StepState;
    if i < |b| {
      assert (a + b)[|a| + i] == b[i];
      if q.headerState == General && left == 0 {
        ReportsShifted(q, a, b, i + 1, MAX_HEADER_SIZE);
      } else {
        ReportsShifted(StepState(q, b[i]).p, a, b, i + 1, if q.headerState == General then left - 1 else MAX_HEADER_SIZE);
      }
    }
  }

  /** The error of a later buffer. */
  lemma SecondError(p: Parser, a: seq<octet>, b: seq<octet>, m: nat)
    requires m <= |b|
    ensures AtLimitBetween(p, a + b, |a| + m, |a|, |a + b|) == AtLimit(Path(p, a, 0, |a|), b, m)
  {
    hide Path, ScanAt, MarkAt, KindOf, Reports;
    var q := Path(p, a, 0, |a|);
    PathOfSecond(p, a, b, m);
    MarksOfSecond(p, a, b, m);
    var s := ScanAt(q, b, m);
    PathOfSecond(p, a, b, s);
    assert (a + b)[..|a + b|] == a + b;
    ReportsShifted(Path(q, b, 0, s), a, b, s, MAX_HEADER_SIZE);
  }

  /** An error in the first bytes. */
  lemma FirstError(p: Parser, a: seq<octet>, b: seq<octet>, n: nat, c: nat, e: nat)
    requires c <= n <= e <= |a|
    ensures AtLimitBetween(p, a + b, n, c, e) == AtLimitBetween(p, a, n, c, e)
  {
    hide Path, ScanAt, MarkAt, KindOf, Reports;
    PathOfPrefix(p, a, b, n);
    PathOfPrefix(p, a, b, Max(c, ScanAt(p, a, n)));
    assert (a + b)[..e] == a[..e];
  }

  /** The next buffer, when there has been no error and no whole message yet. */
  lemma ErrorNext(p: Parser, nread: nat, parts: seq<seq<octet>>)
    requires p.errno == OK && parts != []
    requires
      var first := Feed(p, nread, Flatten(parts[..|parts| - 1]), 0);
      first.p.errno == OK && !first.complete
    ensures
      var first := Feed(p, nread, Flatten(parts[..|parts| - 1]), 0);
      ErrorOf(p, nread, parts) == OneError(first.p, first.nread, parts[|parts| - 1])
  {
    hide Feed, AtLimit, AtLimitBetween;
    var a, b := Flatten(parts[..|parts| - 1]), parts[|parts| - 1];
    var first := Feed(p, nread, a, 0);
    Segmentation(p, nread, a, b);
    FirstIsPath(p, nread, a);
    var second := Feed(first.p, first.nread, b, 0);
    if second.p.errno == HeaderOverflow {
      ErrorIsQuiet(first.p, first.nread, b, 0);
      SecondError(p, a, b, second.pos);
    }
  }

  /** After an error or a whole message. */
  lemma ErrorStays(p: Parser, nread: nat, parts: seq<seq<octet>>)
    requires p.errno == OK && parts != []
    requires
      var first := Feed(p, nread, Flatten(parts[..|parts| - 1]), 0);
      first.p.errno != OK || first.complete
    ensures ErrorOf(p, nread, parts) == ErrorOf(p, nread, parts[..|parts| - 1])
  {
    hide Feed, AtLimitBetween;
    var a, b := Flatten(parts[..|parts| - 1]), parts[|parts| - 1];
    var first := Feed(p, nread, a, 0);
    Segmentation(p, nread, a, b);
    if first.p.errno == HeaderOverflow {
      ErrorIsQuiet(p, nread, a, 0);
      FirstError(p, a, b, first.pos, LastCut(parts[..|parts| - 1], first.pos), NextCut(parts[..|parts| - 1], first.pos));
    }
  }

  // ---- Which error ----

  predicate EndsLine(ch: octet) {
    ch == CR || ch == LF
  }

  /** Read on without the count from byte `n`, byte `m` of a value is refused before its line ends. */
  predicate Refused(p: Parser, data: seq<octet>, n: nat, m: nat)
    requires n <= m < |data|
  {
    StepState(Path(p, data, 0, m), data[m]).p.errno != OK && forall k :: n <= k <= m ==> !EndsLine(data[k])
  }

  /** A step inside a value. */
  lemma ValueStep(q: Parser, ch: octet)
    requires q.state == HeaderValue && !EndsLine(ch) && q.errno != HeaderOverflow
    ensures StepState(q, ch).p.state == HeaderValue && StepState(q, ch).p.errno != HeaderOverflow
  {
    hide StepState, ValueChar, IsHeaderChar;
    InValue(q, ch);
    ValueCharKeeps(q, ch);
  }

  lemma LineEnds(q: Parser, ch: octet)
    requires q.state == HeaderValue && EndsLine(ch)
    ensures StepState(q, ch).p.state != HeaderValue && StepState(q, ch).p.errno == q.errno
  {
    hide StepState;
    InValue(q, ch);
  }

  /** Going on from byte `i`, the first byte refused is the one reported. */
  lemma {:induction false} ReportsFirst(p: Parser, data: seq<octet>, i: nat, left: nat, m: nat)
    requires i <= m < |data| && |data| - i <= left && |data| - i <= MAX_HEADER_SIZE
    requires Path(p, data, 0, i).state == HeaderValue && Path(p, data, 0, i).errno == OK
    requires Refused(p, data, i, m) && forall k :: i <= k < m ==> !Refused(p, data, i, k)
    ensures
      var e := StepState(Path(p, data, 0, m), data[m]).p.errno;
      e != HeaderOverflow && Reports(Path(p, data, 0, i), data, i, left) == e
    decreases m - i
  {
    hide StepState, Path;
    var q := Path(p, data, 0, i);
    ValueStep(q, data[i]);
    if i < m {
      assert !Refused(p, data, i, i);
      PathOneMore(p, data, 0, i);
      var next := if q.headerState == General then left - 1 else MAX_HEADER_SIZE;
      var j := i + 1;
      forall k | j <= k < m
        ensures !Refused(p, data, j, k)
      {
        assert !Refused(p, data, i, k);
      }
      ReportsFirst(p, data, j, next, m);
    }
  }

  lemma {:induction false} ReportsNone(p: Parser, data: seq<octet>, i: nat, left: nat)
    requires i <= |data| && |data| - i <= left && |data| - i <= MAX_HEADER_SIZE
    requires Path(p, data, 0, i).state == HeaderValue && Path(p, data, 0, i).errno == OK
    requires forall k :: i <= k < |data| ==> !Refused(p, data, i, k)
    ensures Reports(Path(p, data, 0, i), data, i, left) == HeaderOverflow
    decreases |data| - i
  {
    hide StepState, Path;
    if i < |data| && !EndsLine(data[i]) {
      var q := Path(p, data, 0, i);
      ValueStep(q, data[i]);
      assert !Refused(p, data, i, i);
      PathOneMore(p, data, 0, i);
      var j := i + 1;
      forall k | j <= k < |data|
        ensures !Refused(p, data, j, k)
      {
        assert !Refused(p, data, i, k);
      }
      ReportsNone(p, data, j, if q.headerState == General then left - 1 else MAX_HEADER_SIZE);
    }
  }

  /** A scan has been in its value since it began. */
  lemma {:induction false} InScan(p: Parser, data: seq<octet>, n: nat, k: nat)
    requires n <= |data| && ScanAt(p, data, n) <= k <= n && Path(p, data, 0, n).state == HeaderValue
    ensures Path(p, data, 0, k).state == HeaderValue
    decreases n
  {
    hide Path;
    if k < n {
      InScan(p, data, n - 1, k);
    }
  }

  lemma NoErrorYet(p: Parser, nread: nat, data: seq<octet>, k: nat)
    requires p.errno == OK
    requires var all := Feed(p, nread, data, 0); all.p.errno != OK && k <= all.pos <= |data|
    ensures Path(p, data, 0, k).errno == OK
  {
    hide Feed, Path;
    ErrorIsQuiet(p, nread, data, 0);
    var _, _ := OnTheWay(p, nread, data, k);
  }

  /** Nothing is refused on the way to the limit, and no line ends. */
  lemma QuietScan(p: Parser, nread: nat, data: seq<octet>, n: nat, k: nat)
    requires p.errno == OK && n <= |data|
    requires Path(p, data, 0, n).state == HeaderValue && ScanAt(p, data, n) <= k < n
    requires var all := Feed(p, nread, data, 0); all.p.errno != OK && all.pos == n
    ensures !EndsLine(data[k]) && StepState(Path(p, data, 0, k), data[k]).p.errno == OK
    ensures Path(p, data, 0, k).state == HeaderValue && Path(p, data, 0, k).errno == OK
  {
    hide Feed, Path, StepState, ScanAt, EndsLine;
    NoErrorYet(p, nread, data, k);
    NoErrorYet(p, nread, data, k + 1);
    InScan(p, data, n, k);
    InScan(p, data, n, k + 1);
    PathOneMore(p, data, 0, k);
    if EndsLine(data[k]) {
      LineEnds(Path(p, data, 0, k), data[k]);
    }
  }

  lemma {:induction false} FirstRefused(p: Parser, data: seq<octet>, n: nat, m: nat) returns (first: nat)
    requires n <= m < |data| && Refused(p, data, n, m)
    ensures n <= first <= m && Refused(p, data, n, first) && forall k :: n <= k < first ==> !Refused(p, data, n, k)
    decreases m
  {
    hide Refused;
    if k :| n <= k < m && Refused(p, data, n, k) {
      first := FirstRefused(p, data, n, k);
    } else {
      first := m;
    }
  }

  /** The scan goes on from the limit at byte `n` to a byte that the value refuses, in a buffer from `c` to `e`. */
  predicate GoesOn(p: Parser, data: seq<octet>, n: nat, c: nat, e: nat)
    requires c <= n <= e <= |data|
  {
    && Path(p, data, 0, n).state == HeaderValue && Max(c, ScanAt(p, data, n)) < n
    && exists m :: n <= m < e && Refused(p, data, n, m)
  }

  /** Refused bytes, seen from the beginning of the scan and in the buffer alone. */
  lemma RefusedFrom(p: Parser, nread: nat, data: seq<octet>, n: nat, start: nat, e: nat, m: nat)
    requires p.errno == OK && n <= e <= |data|
    requires Path(p, data, 0, n).state == HeaderValue && ScanAt(p, data, n) <= start < n
    requires var all := Feed(p, nread, data, 0); all.p.errno != OK && all.pos == n
    requires start <= m < e
    ensures Refused(p, data[..e], start, m) <==> n <= m && Refused(p, data, n, m)
  {
    hide Feed, Path, StepState, ScanAt, EndsLine;
    assert data == data[..e] + data[e..];
    PathOfPrefix(p, data[..e], data[e..], m);
    if m < n {
      QuietScan(p, nread, data, n, m);
    } else {
      forall k | start <= k < n
        ensures !EndsLine(data[k])
      {
        QuietScan(p, nread, data, n, k);
      }
      assert forall k :: start <= k <= m ==> data[..e][k] == data[k];
    }
  }

  /** What is reported in a buffer no longer than the limit. */
  lemma ReportedBetween(p: Parser, nread: nat, data: seq<octet>, n: nat, c: nat, e: nat)
    requires p.errno == OK && c <= n < e <= |data| && e - c <= MAX_HEADER_SIZE
    requires var all := Feed(p, nread, data, 0); all.p.errno != OK && all.pos == n
    ensures !GoesOn(p, data, n, c, e) ==> AtLimitBetween(p, data, n, c, e) == HeaderOverflow
    ensures
      forall m :: n <= m < e && GoesOn(p, data, n, c, e) && Refused(p, data, n, m) &&
                  (forall k :: n <= k < m ==> !Refused(p, data, n, k)) ==>
        var error := StepState(Path(p, data, 0, m), data[m]).p.errno;
        error != HeaderOverflow && AtLimitBetween(p, data, n, c, e) == error
  {
    hide Feed, Path, StepState, ScanAt, Refused, Reports;
    var start := Max(c, ScanAt(p, data, n));
    if Path(p, data, 0, n).state == HeaderValue && start < n {
      QuietScan(p, nread, data, n, start);
      var buffer := data[..e];
      assert data == buffer + data[e..];
      PathOfPrefix(p, buffer, data[e..], start);
      forall m | start <= m < e
        ensures Refused(p, buffer, start, m) <==> n <= m && Refused(p, data, n, m)
      {
        RefusedFrom(p, nread, data, n, start, e, m);
      }
      if !GoesOn(p, data, n, c, e) {
        ReportsNone(p, buffer, start, MAX_HEADER_SIZE);
      }
      forall m | n <= m < e && Refused(p, data, n, m) && forall k :: n <= k < m ==> !Refused(p, data, n, k)
        ensures
          var error := StepState(Path(p, data, 0, m), data[m]).p.errno;
          error != HeaderOverflow && AtLimitBetween(p, data, n, c, e) == error
      {
        PathOfPrefix(p, buffer, data[e..], m);
        ReportsFirst(p, buffer, start, MAX_HEADER_SIZE, m);
      }
    }
  }

  lemma {:induction false} BufferSize(parts: seq<seq<octet>>, n: nat)
    requires n < |Flatten(parts)| && forall x <- parts :: |x| <= MAX_HEADER_SIZE
    ensures NextCut(parts, n) - LastCut(parts, n) <= MAX_HEADER_SIZE
  {
    var before := parts[..|parts| - 1];
    assert parts[|parts| - 1] in parts;
    if n < |Flatten(before)| {
      assert forall x <- before :: x in parts;
      BufferSize(before, n);
    }
  }

  /** At the header limit, with buffers no longer than that, another error is reported exactly when the limit falls
      into a header value whose scan began earlier in the same buffer, and in that buffer, before the line ends, a
      byte follows that the value refuses. */
  lemma {:induction false} LimitReportedExactlyWhen(p: Parser, nread: nat, parts: seq<seq<octet>>)
    requires p.errno == OK && Feed(p, nread, Flatten(parts), 0).p.errno == HeaderOverflow
    requires forall x <- parts :: |x| <= MAX_HEADER_SIZE
    ensures
      var data := Flatten(parts);
      var n := Feed(p, nread, data, 0).pos;
      && n < |data|
      && (ErrorOf(p, nread, parts) != HeaderOverflow <==> GoesOn(p, data, n, LastCut(parts, n), NextCut(parts, n)))
  {
    hide Feed, Path, StepState, ScanAt, Refused, AtLimitBetween;
    var data := Flatten(parts);
    var n := Feed(p, nread, data, 0).pos;
    ErrorIsQuiet(p, nread, data, 0);
    var c, e := LastCut(parts, n), NextCut(parts, n);
    BufferSize(parts, n);
    ReportedBetween(p, nread, data, n, c, e);
    if GoesOn(p, data, n, c, e) {
      var m :| n <= m < e && Refused(p, data, n, m);
      var first := FirstRefused(p, data, n, m);
    }
  }

  /** Two ways of cutting the same data into buffers no longer than the header limit lead to the same error, or
      none, but for the limit, at which they do exactly when the scan goes on to a refused byte in both or in
      neither. */
  lemma {:induction false} ErrorsAgreeExactlyWhen(p: Parser, nread: nat, xs: seq<seq<octet>>, ys: seq<seq<octet>>)
    requires p.errno == OK && Flatten(xs) == Flatten(ys)
    requires (forall x <- xs :: |x| <= MAX_HEADER_SIZE) && (forall y <- ys :: |y| <= MAX_HEADER_SIZE)
    ensures
      var data := Flatten(xs);
      var all := Feed(p, nread, data, 0);
      var n := all.pos;
      if all.p.errno != HeaderOverflow then ErrorOf(p, nread, xs) == ErrorOf(p, nread, ys)
      else
        && n < |data|
        && (ErrorOf(p, nread, xs) == ErrorOf(p, nread, ys)
            <==> (GoesOn(p, data, n, LastCut(xs, n), NextCut(xs, n))
                  <==> GoesOn(p, data, n, LastCut(ys, n), NextCut(ys, n))))
  {
    hide Feed, Path, StepState, ScanAt, Refused, AtLimitBetween;
    var data := Flatten(xs);
    var all := Feed(p, nread, data, 0);
    var n := all.pos;
    if all.p.errno == HeaderOverflow {
      LimitReportedExactlyWhen(p, nread, xs);
      LimitReportedExactlyWhen(p, nread, ys);
      BufferSize(xs, n);
      BufferSize(ys, n);
      var c, e, d, g := LastCut(xs, n), NextCut(xs, n), LastCut(ys, n), NextCut(ys, n);
      if GoesOn(p, data, n, c, e) && GoesOn(p, data, n, d, g) {
        ReportedBetween(p, nread, data, n, c, e);
        ReportedBetween(p, nread, data, n, d, g);
        var m :| n <= m < e && Refused(p, data, n, m);
        var m' :| n <= m' < g && Refused(p, data, n, m');
        var first := FirstRefused(p, data, n, if m < m' then m else m');
      }
    }
  }

  // ---- The parser object ----

  /** A call of the parser: it reports the error of its buffer, and within the header limit its verdict is that of
      the buffer. */
  lemma CallIsVerdict(p: Parser, nread: nat, data: seq<octet>, q: Parser, count: nat, n: nat, calls: seq<Callback>)
    requires p.errno == OK
    requires
      var all := Feed(p, nread, data, 0);
      if q.errno == OK then q == all.p && count == all.nread && n == all.pos && Flat(calls) == all.events
      else FailsAs(p, nread, data, q, count, n, calls)
    ensures
      var all, v := Feed(p, nread, data, 0), OneBuffer(p, nread, data);
      && q.errno == OneError(p, nread, data)
      && (q.errno == OK <==> all.p.errno == OK)
      && (all.p.errno != HeaderOverflow ==> q == v.p && count == v.nread && Flat(calls) == v.events && n == v.n)
  {
    hide Feed, Flat, Unreported, CountedAt, LeftBehind, AtLimit;
    var all := Feed(p, nread, data, 0);
    if q.errno != OK && all.p.errno != HeaderOverflow {
      ReportedIsPrefix(p, nread, data);
      LeftIsError(p, data, n, all.p);
      assert all.events[..|all.events| - |Unreported(p, data, n)|] == Flat(calls);
    }
  }

  lemma LeftIsError(p: Parser, data: seq<octet>, n: nat, r: Parser)
    requires n <= |data|
    ensures LeftBehind(p, data, n, r).errno == r.errno
  {
    hide Path, ScanAt;
  }

  function FlatOne(c: Callback): seq<Event> {
    match c
    case Notify(e) => [e]
    case DataCall(kind, bytes) => AllData(kind, bytes)
  }

  lemma FlatOneMore(cs: seq<Callback>, c: Callback)
    ensures Flat(cs + [c]) == Flat(cs) + FlatOne(c)
  {
    hide AllData;
    if c.Notify? {
      FlatNotify(cs, c.event);
    } else {
      FlatData(cs, c.kind, c.bytes);
    }
  }

  lemma {:induction false} FlatAppend(a: seq<Callback>, b: seq<Callback>)
    ensures Flat(a + b) == Flat(a) + Flat(b)
  {
    hide Flat, FlatOne;
    if b == [] {
      NoCalls();
      NothingAfter(a);
      NothingAfter(Flat(a));
    } else {
      var before, last := b[..|b| - 1], b[|b| - 1];
      assert b == before + [last];
      FlatAppend(a, before);
      Associative(a, before, [last]);
      FlatOneMore(a + before, last);
      FlatOneMore(before, last);
      Associative(Flat(a), Flat(before), FlatOne(last));
    }
  }

  lemma NoCalls()
    ensures Flat([]) == []
  {
  }

  lemma NothingAfter<T>(s: seq<T>)
    ensures s + [] == s
  {
  }

  /** Whether the end of the message has been called back. */
  lemma {:induction false} ToldInCalls(calls: seq<Callback>)
    ensures Notify(MessageComplete) in calls <==> MessageComplete in Flat(calls)
  {
    if calls != [] {
      hide Flat, FlatOne;
      var before, last := calls[..|calls| - 1], calls[|calls| - 1];
      assert calls == before + [last];
      ToldInCalls(before);
      FlatOneMore(before, last);
      ToldInCall(last);
    }
  }

  lemma ToldInCall(c: Callback)
    ensures c == Notify(MessageComplete) <==> MessageComplete in FlatOne(c)
  {
  }

  lemma {:induction false} ToldWhenComplete(p: Parser, nread: nat, data: seq<octet>, i: nat)
    requires i <= |data|
    ensures var o := Feed(p, nread, data, i); MessageComplete in o.events <==> o.complete
    decreases |data| - i
  {
    hide StepByte, StepState, KindOf;
    if i < |data| {
      var step := StepByte(p, nread, data[i]);
      ByteIsCounted(p, nread, data[i]);
      StepStopsRight(p, data[i]);
      if step.p.errno == OK && !step.stop {
        ToldWhenComplete(step.p, nread + 1, data, i + 1);
      }
    }
  }

  lemma {:induction false} ReportsAnError(q: Parser, data: seq<octet>, i: nat, left: nat)
    requires i <= |data|
    ensures Reports(q, data, i, left) != OK
    decreases |data| - i
  {
    hide StepState;
    if i < |data| {
      if q.headerState == General && left == 0 {
        ReportsAnError(q, data, i + 1, MAX_HEADER_SIZE);
      } else {
        var next := if q.headerState == General then left - 1 else MAX_HEADER_SIZE;
        ReportsAnError(StepState(q, data[i]).p, data, i + 1, next);
      }
    }
  }

  /** There is an error exactly when the automaton fails. */
  lemma ErrorWhenFailed(p: Parser, nread: nat, parts: seq<seq<octet>>)
    requires p.errno == OK
    ensures ErrorOf(p, nread, parts) == OK <==> Feed(p, nread, Flatten(parts), 0).p.errno == OK
  {
    hide Feed, Path, ScanAt, Reports;
    var data := Flatten(parts);
    var all := Feed(p, nread, data, 0);
    if all.p.errno == HeaderOverflow {
      ErrorIsQuiet(p, nread, data, 0);
      var start := Max(LastCut(parts, all.pos), ScanAt(p, data, all.pos));
      ReportsAnError(Path(p, data, 0, start), data[..NextCut(parts, all.pos)], start, MAX_HEADER_SIZE);
    }
  }

  /** The first `k` buffers, and what the parser has come to after them. */
  ghost predicate Agrees(p: Parser, nread: nat, parts: seq<seq<octet>>, k: nat, q: Parser, count: nat,
                         calls: seq<Callback>, complete: bool)
    requires p.errno == OK && k <= |parts|
  {
    var all, v := Feed(p, nread, Flatten(parts[..k]), 0), Buffers(p, nread, parts[..k]);
    && q.errno == ErrorOf(p, nread, parts[..k])
    && complete == all.complete
    && (all.p.errno != HeaderOverflow ==> q == v.p && count == v.nread && Flat(calls) == v.events)
  }

  /** As long as there is no error, the parser is the automaton. */
  lemma AgreesMeans(p: Parser, nread: nat, parts: seq<seq<octet>>, k: nat, q: Parser, count: nat, calls: seq<Callback>,
                    complete: bool)
    requires p.errno == OK && k <= |parts| && Agrees(p, nread, parts, k, q, count, calls, complete)
    ensures
      var all, v := Feed(p, nread, Flatten(parts[..k]), 0), Buffers(p, nread, parts[..k]);
      && (q.errno == OK <==> all.p.errno == OK)
      && (all.p.errno != HeaderOverflow ==> v.p.errno == all.p.errno && v.complete == all.complete)
      && (q.errno == OK ==> q == all.p && count == all.nread && Flat(calls) == all.events)
  {
    hide Feed, Buffers, ErrorOf, IsVerdict, Flat;
    var data := Flatten(parts[..k]);
    var all := Feed(p, nread, data, 0);
    ErrorWhenFailed(p, nread, parts[..k]);
    if all.p.errno != HeaderOverflow {
      BuffersAre(p, nread, parts[..k]);
      VerdictSays(Buffers(p, nread, parts[..k]), p, nread, data, LastCut(parts[..k], all.pos));
    }
  }

  lemma AgreesNext(p: Parser, nread: nat, parts: seq<seq<octet>>, k: nat, q: Parser, count: nat, calls: seq<Callback>,
                   q': Parser, count': nat, n: nat, more: seq<Callback>)
    requires p.errno == OK && k < |parts| && q.errno == OK
    requires Agrees(p, nread, parts, k, q, count, calls, false)
    requires
      var all := Feed(q, count, parts[k], 0);
      if q'.errno == OK then q' == all.p && count' == all.nread && n == all.pos && Flat(more) == all.events
      else FailsAs(q, count, parts[k], q', count', n, more)
    ensures
      Agrees(p, nread, parts, k + 1, q', count', calls + more, q'.errno == OK && Notify(MessageComplete) in more)
  {
    hide Feed, Flat, OneBuffer, OneError, ErrorOf, FailsAs;
    var a, b := Flatten(parts[..k]), parts[k];
    AgreesMeans(p, nread, parts, k, q, count, calls, false);
    FlattenAt(parts, k);
    Segmentation(p, nread, a, b);
    assert parts[..k + 1][..k] == parts[..k];
    ErrorNext(p, nread, parts[..k + 1]);
    CallIsVerdict(q, count, b, q', count', n, more);
    FlatAppend(calls, more);
    ToldInCalls(more);
    ToldWhenComplete(q, count, b, 0);
    ErrorIsQuiet(q, count, b, 0);
  }

  lemma AgreesStill(p: Parser, nread: nat, parts: seq<seq<octet>>, k: nat, q: Parser, count: nat, calls: seq<Callback>,
                    complete: bool)
    requires p.errno == OK && k < |parts| && (q.errno != OK || complete)
    requires Agrees(p, nread, parts, k, q, count, calls, complete)
    ensures Agrees(p, nread, parts, k + 1, q, count, calls, complete)
  {
    hide Feed, Flat, OneBuffer, ErrorOf;
    AgreesMeans(p, nread, parts, k, q, count, calls, complete);
    FlattenAt(parts, k);
    Segmentation(p, nread, Flatten(parts[..k]), parts[k]);
    assert parts[..k + 1][..k] == parts[..k];
    ErrorStays(p, nread, parts[..k + 1]);
  }

  lemma {:induction false} AgreesToTheEnd(p: Parser, nread: nat, parts: seq<seq<octet>>, k: nat, q: Parser, count: nat,
                                          calls: seq<Callback>, complete: bool)
    requires p.errno == OK && k <= |parts| && (q.errno != OK || complete || k == |parts|)
    requires Agrees(p, nread, parts, k, q, count, calls, complete)
    ensures Agrees(p, nread, parts, |parts|, q, count, calls, complete) && parts[..|parts|] == parts
    decreases |parts| - k
  {
    hide Agrees;
    if k < |parts| {
      AgreesStill(p, nread, parts, k, q, count, calls, complete);
      AgreesToTheEnd(p, nread, parts, k + 1, q, count, calls, complete);
    }
  }

  lemma AgreesAtStart(p: Parser, nread: nat, parts: seq<seq<octet>>)
    requires p.errno == OK
    ensures Agrees(p, nread, parts, 0, p, nread, [], false)
  {
    assert parts[..0] == [];
  }

  /** Hands buffers to the parser, one after the other, up to an error or the end of a message. Without an error
      parser, count and callbacks are the automaton's; with one, it is the one that the division leads to, and
      within the header limit parser, count and callbacks are those of the verdict. */
  method ExecuteAll(parsing: Parsing, parts: seq<seq<octet>>) returns (complete: bool)
    requires parsing.p.errno == OK && forall x <- parts :: x != []
    modifies parsing
    ensures |old(parsing.trace)| <= |parsing.trace|
    ensures
      var p, nread := old(parsing.p), old(parsing.nread);
      var all, v := Feed(p, nread, Flatten(parts), 0), Buffers(p, nread, parts);
      var told := Flat(parsing.trace[|old(parsing.trace)|..]);
      && parsing.p.errno == ErrorOf(p, nread, parts) && complete == all.complete
      && (all.p.errno == OK ==> parsing.p == all.p && parsing.nread == all.nread && told == all.events)
      && (all.p.errno != HeaderOverflow ==> parsing.p == v.p && parsing.nread == v.nread && told == v.events)
  {
    hide *;
    ghost var p, nread, made := parsing.p, parsing.nread, |parsing.trace|;
    AgreesAtStart(p, nread, parts);
    assert parsing.trace[made..] == [];
    complete := false;
    var k := 0;
    while k < |parts| && parsing.p.errno == OK && !complete
      invariant k <= |parts| && made <= |parsing.trace|
      invariant Agrees(p, nread, parts, k, parsing.p, parsing.nread, parsing.trace[made..], complete)
    {
      assert parts[k] in parts;
      ghost var q, count, calls := parsing.p, parsing.nread, parsing.trace;
      var before := |parsing.trace|;
      var n := parsing.Execute(parts[k]);
      TraceGrows(calls, parsing.trace, made);
      AgreesNext(p, nread, parts, k, q, count, calls[made..], parsing.p, parsing.nread, n, parsing.trace[|calls|..]);
      complete := parsing.p.errno == OK && Notify(MessageComplete) in parsing.trace[before..];
      k := k + 1;
    }
    AgreesToTheEnd(p, nread, parts, k, parsing.p, parsing.nread, parsing.trace[made..], complete);
    AgreesSays(p, nread, parts, parsing.p, parsing.nread, parsing.trace[made..], complete);
  }

  lemma AgreesSays(p: Parser, nread: nat, parts: seq<seq<octet>>, q: Parser, count: nat, calls: seq<Callback>,
                   complete: bool)
    requires p.errno == OK && Agrees(p, nread, parts, |parts|, q, count, calls, complete) && parts[..|parts|] == parts
    ensures
      var all, v := Feed(p, nread, Flatten(parts), 0), Buffers(p, nread, parts);
      && q.errno == ErrorOf(p, nread, parts) && complete == all.complete
      && (all.p.errno == OK ==> q == all.p && count == all.nread && Flat(calls) == all.events)
      && (all.p.errno != HeaderOverflow ==> q == v.p && count == v.nread && Flat(calls) == v.events)
  {
    hide Feed, Buffers, ErrorOf, Flat, Flatten;
    AgreesMeans(p, nread, parts, |parts|, q, count, calls, complete);
  }

  lemma TraceGrows(before: seq<Callback>, after: seq<Callback>, made: nat)
    requires made <= |before| <= |after| && after[..|before|] == before
    ensures after[made..] == before[made..] + after[|before|..]
  {
  }
}
