/**
  What a parse error leaves behind, for every way in which the input may be cut into buffers: what has been
  called back, the count of header bytes, and the parser.
 */
module HttpSplits {
  import opened HttpParser
  import opened HttpExecute
  import opened Sequences

  /** What the parser has come to after some buffers: itself and its count, what it has called back, the bytes it
      has consumed, and whether a message was complete. */
  datatype Verdict = Verdict(p: Parser, nread: nat, events: seq<Event>, n: nat, complete: bool)

  /** One buffer of data within the header limit: what the automaton says, less what an error leaves unreported. */
  function OneBuffer(p: Parser, nread: nat, data: seq<octet>): (v: Verdict)
    requires p.errno == OK
    ensures v.p.errno == Feed(p, nread, data, 0).p.errno
  {
    var all := Feed(p, nread, data, 0);
    if all.p.errno == OK then Verdict(all.p, all.nread, all.events, all.pos, all.complete)
    else
      FeedPosition(p, nread, data, 0);
      ReportedIsPrefix(p, nread, data);
      var n := all.pos;
      Verdict(
        LeftBehind(p, data, n, all.p), nread + CountedAt(p, data, n),
        all.events[..|all.events| - |Unreported(p, data, n)|], n, false)
  }

  /** Buffers one after the other, up to an error or a whole message, within the header limit. */
  function Buffers(p: Parser, nread: nat, parts: seq<seq<octet>>): Verdict
    requires p.errno == OK
  {
    if parts == [] then Verdict(p, nread, [], 0, false)
    else
      var v := Buffers(p, nread, parts[..|parts| - 1]);
      if v.p.errno != OK || v.complete then v
      else
        var w := OneBuffer(v.p, v.nread, parts[|parts| - 1]);
        w.(events := v.events + w.events, n := v.n + w.n)
  }

  // ---- The automaton on the way to where it stops ----

  /** The automaton on its way: what it has reported before byte `k` ends with what is not yet called back. */
  lemma {:induction false} OnTheWay(p: Parser, nread: nat, data: seq<octet>, k: nat)
    returns (reported: seq<Event>, open: seq<Event>)
    requires p.errno == OK && k <= |data|
    requires var all := Feed(p, nread, data, 0); k <= all.pos && (all.complete ==> k < all.pos)
    ensures Path(p, data, 0, k).errno == OK && open == Unreported(p, data, k)
    ensures Feed(p, nread, data, 0) == After(reported + open, Feed(Path(p, data, 0, k), nread + k, data, k))
    decreases k
  {
    hide Feed, StepState, KindOf, AllData, Path, MarkAt;
    if k == 0 {
      NothingYet(p, data);
      reported, open := [], [];
    } else {
      reported, open := OnTheWay(p, nread, data, k - 1);
      reported, open := OneByteOn(p, nread, data, k - 1, reported, open);
    }
  }

  lemma NothingYet(p: Parser, data: seq<octet>)
    ensures Path(p, data, 0, 0) == p && Unreported(p, data, 0) == []
  {
    hide KindOf;
    assert data[0..0] == [];
  }

  lemma OneByteOn(p: Parser, nread: nat, data: seq<octet>, k: nat, before: seq<Event>, pending: seq<Event>)
    returns (reported: seq<Event>, open: seq<Event>)
    requires p.errno == OK && k < |data|
    requires Path(p, data, 0, k).errno == OK && pending == Unreported(p, data, k)
    requires var all := Feed(p, nread, data, 0); k < all.pos && (all.complete ==> k + 1 < all.pos)
    requires Feed(p, nread, data, 0) == After(before + pending, Feed(Path(p, data, 0, k), nread + k, data, k))
    ensures Path(p, data, 0, k + 1).errno == OK && open == Unreported(p, data, k + 1)
    ensures Feed(p, nread, data, 0) == After(reported + open, Feed(Path(p, data, 0, k + 1), nread + k + 1, data, k + 1))
  {
    hide Feed, StepState, KindOf, AllData, Path, Pending, DataEvent;
    var q := Path(p, data, 0, k);
    FeedStep(q, nread + k, data, k);
    PathOneMore(p, data, 0, k);
    var step := StepState(q, data[k]);
    var same := KindOf(step.p.state) == KindOf(q.state);
    if KindOf(q.state) != NoData {
      QuietInData(q, data[k]);
    }
    NothingPending(q.state, data, MarkAt(p, data, k), k);
    NextPending(q.state, step.p.state, data, MarkAt(p, data, k), k);
    Regrouped(before, pending, step.notices, DataEvent(step.p.state, data[k]),
              Feed(step.p, nread + k + 1, data, k + 1).events, same);
    reported := before + (if same then [] else pending) + step.notices;
    open := (if same then pending else []) + DataEvent(step.p.state, data[k]);
    Associative(reported, open, Feed(step.p, nread + k + 1, data, k + 1).events);
  }

  /** An error reports nothing of its own. */
  lemma ErrorIsQuiet(p: Parser, nread: nat, data: seq<octet>, i: nat)
    requires i <= |data|
    ensures var o := Feed(p, nread, data, i); o.p.errno != OK && o.pos == i ==> o.events == []
    ensures var o := Feed(p, nread, data, i); o.p.errno != OK && p.errno == OK ==> o.pos < |data| && !o.complete
    decreases |data| - i
  {
    hide StepState;
    if i < |data| {
      var step := StepByte(p, nread, data[i]);
      if step.p.errno == OK && !step.stop {
        FeedPosition(step.p, nread + 1, data, i + 1);
        ErrorIsQuiet(step.p, nread + 1, data, i + 1);
      }
    }
  }

  /** On an error, what is not called back are the last events. */
  lemma ReportedIsPrefix(p: Parser, nread: nat, data: seq<octet>)
    requires p.errno == OK && Feed(p, nread, data, 0).p.errno != OK
    ensures
      var all := Feed(p, nread, data, 0);
      && all.pos < |data|
      && |Unreported(p, data, all.pos)| <= |all.events|
      && all.events == all.events[..|all.events| - |Unreported(p, data, all.pos)|] + Unreported(p, data, all.pos)
  {
    hide Feed, StepState, KindOf, Path, MarkAt, Unreported;
    var all := Feed(p, nread, data, 0);
    FeedPosition(p, nread, data, 0);
    ErrorIsQuiet(p, nread, data, 0);
    var n := all.pos;
    var reported, open := OnTheWay(p, nread, data, n);
    ErrorIsQuiet(Path(p, data, 0, n), nread + n, data, n);
    assert all.events == reported + open + [] == reported + open;
    assert all.events[..|all.events| - |open|] == reported;
  }

  // ---- Two buffers and one ----

  /** What comes after makes no difference to the way so far. */
  lemma {:induction false} PathOfPrefix(p: Parser, a: seq<octet>, b: seq<octet>, k: nat)
    requires k <= |a|
    ensures
      && Path(p, a + b, 0, k) == Path(p, a, 0, k)
      && MarkAt(p, a + b, k) == MarkAt(p, a, k) && ScanAt(p, a + b, k) == ScanAt(p, a, k)
    decreases k
  {
    hide StepState, KindOf;
    if k > 0 {
      PathOfPrefix(p, a, b, k - 1);
    }
  }

  lemma {:induction false} PathShifted(p: Parser, a: seq<octet>, b: seq<octet>, k: nat)
    requires k <= |b|
    ensures Path(p, a + b, |a|, |a| + k) == Path(p, b, 0, k)
    decreases k
  {
    hide StepState;
    if k > 0 {
      PathShifted(p, a, b, k - 1);
    }
  }

  lemma PathOfSecond(p: Parser, a: seq<octet>, b: seq<octet>, k: nat)
    requires k <= |b|
    ensures Path(p, a + b, 0, |a| + k) == Path(Path(p, a, 0, |a|), b, 0, k)
  {
    hide Path;
    PathOfPrefix(p, a, b, |a|);
    PathShifted(Path(p, a, 0, |a|), a, b, k);
    PathThen(p, a + b, 0, |a|, |a| + k);
  }

  function Max(a: nat, b: nat): nat {
    if a > b then a else b
  }

  /** In a second buffer the marks are what they would be in one, or the beginning of the buffer if that is later. */
  lemma {:induction false} MarksOfSecond(p: Parser, a: seq<octet>, b: seq<octet>, k: nat)
    requires k <= |b|
    ensures
      var q := Path(p, a, 0, |a|);
      && |a| + MarkAt(q, b, k) == Max(|a|, MarkAt(p, a + b, |a| + k))
      && |a| + ScanAt(q, b, k) == Max(|a|, ScanAt(p, a + b, |a| + k))
    decreases k
  {
    hide StepState, KindOf, Path;
    PathOfSecond(p, a, b, k);
    if k > 0 {
      PathOfSecond(p, a, b, k - 1);
      MarksOfSecond(p, a, b, k - 1);
    }
  }

  // ---- Any division ----

  /** Where the buffer begins that holds byte `n`. */
  function LastCut(parts: seq<seq<octet>>, n: nat): (c: nat)
    ensures c <= n
  {
    if parts == [] then 0
    else
      var before := parts[..|parts| - 1];
      if n < |Flatten(before)| then LastCut(before, n) else |Flatten(before)|
  }

  /** How much of the data before an error at byte `n` is not called back, when the last cut before it is `c`. */
  function Lost(p: Parser, data: seq<octet>, n: nat, c: nat): (k: nat)
    requires n <= |data| && c <= n
  {
    if KindOf(Path(p, data, 0, n).state) == NoData then 0 else n - Max(c, MarkAt(p, data, n))
  }

  function Counted(p: Parser, data: seq<octet>, n: nat, c: nat): nat
    requires n <= |data| && c <= n
  {
    1 + if Path(p, data, 0, n).state == HeaderValue then Max(c, ScanAt(p, data, n)) else n
  }

  function Left(p: Parser, data: seq<octet>, n: nat, c: nat, r: Parser): Parser
    requires n <= |data| && c <= n
  {
    Stale(r, Path(p, data, 0, n).state == HeaderValue, Path(p, data, 0, Max(c, ScanAt(p, data, n))).headerState)
  }

  /** The verdict on data cut last at `c` before the place where the parse stops. */
  ghost predicate IsVerdict(v: Verdict, p: Parser, nread: nat, data: seq<octet>, c: nat) {
    var all := Feed(p, nread, data, 0);
    && v.n == all.pos && v.complete == all.complete
    && if all.p.errno == OK then v.p == all.p && v.nread == all.nread && v.events == all.events
       else
         && c <= all.pos <= |data| && Lost(p, data, all.pos, c) <= |all.events|
         && v.p == Left(p, data, all.pos, c, all.p)
         && v.nread == nread + Counted(p, data, all.pos, c)
         && v.events == all.events[..|all.events| - Lost(p, data, all.pos, c)]
  }

  lemma OneBufferSays(p: Parser, nread: nat, data: seq<octet>)
    requires p.errno == OK
    ensures
      var all, v := Feed(p, nread, data, 0), OneBuffer(p, nread, data);
      && v.n == all.pos && v.complete == all.complete
      && if all.p.errno == OK then v.p == all.p && v.nread == all.nread && v.events == all.events
         else
           && all.pos < |data| && |Unreported(p, data, all.pos)| <= |all.events|
           && v.p == LeftBehind(p, data, all.pos, all.p)
           && v.nread == nread + CountedAt(p, data, all.pos)
           && v.events == all.events[..|all.events| - |Unreported(p, data, all.pos)|]
  {
    hide Feed, LeftBehind, CountedAt, Unreported;
    if Feed(p, nread, data, 0).p.errno != OK {
      ErrorIsQuiet(p, nread, data, 0);
      ReportedIsPrefix(p, nread, data);
    }
  }

  /** A later buffer in which the parse stops. */
  lemma SecondVerdict(p: Parser, nread: nat, a: seq<octet>, b: seq<octet>)
    requires p.errno == OK
    requires var first := Feed(p, nread, a, 0); first.p.errno == OK && !first.complete
    ensures
      var first := Feed(p, nread, a, 0);
      var w := OneBuffer(first.p, first.nread, b);
      IsVerdict(w.(events := first.events + w.events, n := |a| + w.n), p, nread, a + b, |a|)
  {
    hide Feed, OneBuffer, IsVerdict;
    var first := Feed(p, nread, a, 0);
    if Feed(first.p, first.nread, b, 0).p.errno == OK {
      SecondIsFine(p, nread, a, b);
    } else {
      SecondFails(p, nread, a, b);
    }
  }

  lemma SecondIsFine(p: Parser, nread: nat, a: seq<octet>, b: seq<octet>)
    requires p.errno == OK
    requires
      var first := Feed(p, nread, a, 0);
      first.p.errno == OK && !first.complete && Feed(first.p, first.nread, b, 0).p.errno == OK
    ensures
      var first := Feed(p, nread, a, 0);
      var w := OneBuffer(first.p, first.nread, b);
      IsVerdict(w.(events := first.events + w.events, n := |a| + w.n), p, nread, a + b, |a|)
  {
    hide Feed, Lost, Counted, Left, OneBuffer;
    Segmentation(p, nread, a, b);
    var first := Feed(p, nread, a, 0);
    OneBufferSays(first.p, first.nread, b);
  }

  lemma SecondFails(p: Parser, nread: nat, a: seq<octet>, b: seq<octet>)
    requires p.errno == OK
    requires
      var first := Feed(p, nread, a, 0);
      first.p.errno == OK && !first.complete && Feed(first.p, first.nread, b, 0).p.errno != OK
    ensures
      var first := Feed(p, nread, a, 0);
      var w := OneBuffer(first.p, first.nread, b);
      IsVerdict(w.(events := first.events + w.events, n := |a| + w.n), p, nread, a + b, |a|)
  {
    hide Feed, Path, Lost, Counted, Left, LeftBehind, CountedAt, Unreported, OneBuffer;
    Segmentation(p, nread, a, b);
    var first := Feed(p, nread, a, 0);
    FirstIsPath(p, nread, a);
    OneBufferSays(first.p, first.nread, b);
    var second := Feed(first.p, first.nread, b, 0);
    var m := second.pos;
    SecondLoses(p, a, b, m, second.p);
    EventsOfSecond(first.events, second.events, |Unreported(first.p, b, m)|);
  }

  lemma EventsOfSecond(a: seq<Event>, b: seq<Event>, k: nat)
    requires k <= |b|
    ensures a + b[..|b| - k] == (a + b)[..|a + b| - k]
  {
  }

  lemma FirstIsPath(p: Parser, nread: nat, a: seq<octet>)
    requires p.errno == OK
    requires var first := Feed(p, nread, a, 0); first.p.errno == OK && !first.complete
    ensures
      var first := Feed(p, nread, a, 0);
      first.p == Path(p, a, 0, |a|) && first.nread == nread + |a| && first.pos == |a|
  {
    hide StepState, KindOf, Path;
    FeedPosition(p, nread, a, 0);
    var _, _ := OnTheWay(p, nread, a, |a|);
  }

  lemma SecondLoses(p: Parser, a: seq<octet>, b: seq<octet>, m: nat, r: Parser)
    requires m <= |b|
    ensures
      var q, n := Path(p, a, 0, |a|), |a| + m;
      && Lost(p, a + b, n, |a|) == |Unreported(q, b, m)|
      && |a| + CountedAt(q, b, m) == Counted(p, a + b, n, |a|)
      && LeftBehind(q, b, m, r) == Left(p, a + b, n, |a|, r)
  {
    hide Path, MarkAt, ScanAt, KindOf;
    var q := Path(p, a, 0, |a|);
    PathOfSecond(p, a, b, m);
    MarksOfSecond(p, a, b, m);
    PathOfSecond(p, a, b, ScanAt(q, b, m));
  }

  /** A parse that stops in the first bytes. */
  lemma FirstVerdict(p: Parser, nread: nat, a: seq<octet>, b: seq<octet>, c: nat, v: Verdict)
    requires p.errno == OK && IsVerdict(v, p, nread, a, c)
    requires var first := Feed(p, nread, a, 0); first.p.errno != OK || first.complete
    ensures IsVerdict(v, p, nread, a + b, c)
    ensures Feed(p, nread, a, 0).p.errno == OK ==> IsVerdict(v, p, nread, a + b, |a|)
  {
    hide Feed, Path, MarkAt, ScanAt, KindOf;
    Segmentation(p, nread, a, b);
    var first := Feed(p, nread, a, 0);
    if first.p.errno != OK {
      FeedPosition(p, nread, a, 0);
      PathOfPrefix(p, a, b, first.pos);
      PathOfPrefix(p, a, b, Max(c, ScanAt(p, a, first.pos)));
    }
  }

  /** Whatever buffers the data come in, within the header limit the parser comes to what the automaton says of all
      of them together; on an error, what is lost and what is counted depend on the last cut before it and on
      nothing else. */
  lemma {:induction false} BuffersAre(p: Parser, nread: nat, parts: seq<seq<octet>>)
    requires p.errno == OK && Feed(p, nread, Flatten(parts), 0).p.errno != HeaderOverflow
    ensures
      var data := Flatten(parts);
      IsVerdict(Buffers(p, nread, parts), p, nread, data, LastCut(parts, Feed(p, nread, data, 0).pos))
    decreases |parts|
  {
    hide Feed, IsVerdict, OneBuffer;
    if parts == [] {
      NoBuffers(p, nread);
    } else {
      var before, last := parts[..|parts| - 1], parts[|parts| - 1];
      var a := Flatten(before);
      var first := Feed(p, nread, a, 0);
      Segmentation(p, nread, a, last);
      BuffersAre(p, nread, before);
      var v := Buffers(p, nread, before);
      VerdictSays(v, p, nread, a, LastCut(before, first.pos));
      if first.p.errno != OK || first.complete {
        StopsBefore(p, nread, a);
        FirstVerdict(p, nread, a, last, LastCut(before, first.pos), v);
      } else {
        SecondVerdict(p, nread, a, last);
        FeedPosition(p, nread, a, 0);
      }
    }
  }

  lemma NoBuffers(p: Parser, nread: nat)
    requires p.errno == OK
    ensures IsVerdict(Buffers(p, nread, []), p, nread, Flatten([]), 0)
  {
  }

  /** A whole message may end with the first bytes; an error comes before their end. */
  lemma StopsBefore(p: Parser, nread: nat, a: seq<octet>)
    requires p.errno == OK
    ensures var o := Feed(p, nread, a, 0); o.pos <= |a| && (o.p.errno != OK ==> o.pos < |a|)
  {
    hide Feed;
    FeedPosition(p, nread, a, 0);
    ErrorIsQuiet(p, nread, a, 0);
  }

  lemma VerdictSays(v: Verdict, p: Parser, nread: nat, data: seq<octet>, c: nat)
    requires IsVerdict(v, p, nread, data, c)
    ensures
      var all := Feed(p, nread, data, 0);
      && v.p.errno == all.p.errno && v.complete == all.complete && v.n == all.pos
      && (all.p.errno == OK ==> v.p == all.p && v.nread == all.nread && v.events == all.events)
  {
    hide Feed, Path, MarkAt, ScanAt, KindOf, Lost, Counted;
  }

  // ---- Two divisions ----

  /** Two ways of cutting data that end in an error, other than the header limit: the error and its place are the
      same; the same has been called back exactly when no data were open at the error, or both cuts lie outside
      of them; and as many bytes have been counted exactly when the error is not in a header value, or both
      cuts lie before the scan over it. `c` and `d` are the last cuts before the byte in error. */
  lemma {:induction false} SplitsAgreeExactlyWhen(p: Parser, nread: nat, xs: seq<seq<octet>>, ys: seq<seq<octet>>)
    requires p.errno == OK && Flatten(xs) == Flatten(ys)
    requires var all := Feed(p, nread, Flatten(xs), 0); all.p.errno != OK && all.p.errno != HeaderOverflow
    ensures
      var data := Flatten(xs);
      var n := Feed(p, nread, data, 0).pos;
      var c, d := LastCut(xs, n), LastCut(ys, n);
      var v, w := Buffers(p, nread, xs), Buffers(p, nread, ys);
      && n < |data| && v.n == w.n == n && v.p.errno == w.p.errno
      && (v.events == w.events <==>
            KindOf(Path(p, data, 0, n).state) == NoData || Max(c, MarkAt(p, data, n)) == Max(d, MarkAt(p, data, n)))
      && (v.nread == w.nread <==>
            Path(p, data, 0, n).state != HeaderValue || Max(c, ScanAt(p, data, n)) == Max(d, ScanAt(p, data, n)))
  {
    hide Feed, Path, MarkAt, ScanAt, KindOf, Buffers, LastCut;
    var data := Flatten(xs);
    var n := Feed(p, nread, data, 0).pos;
    ErrorIsQuiet(p, nread, data, 0);
    BuffersAre(p, nread, xs);
    BuffersAre(p, nread, ys);
    PrefixesOf(Feed(p, nread, data, 0).events, Lost(p, data, n, LastCut(xs, n)), Lost(p, data, n, LastCut(ys, n)));
  }

  lemma PrefixesOf(s: seq<Event>, j: nat, k: nat)
    requires j <= |s| && k <= |s|
    ensures s[..|s| - j] == s[..|s| - k] <==> j == k
  {
    assert |s[..|s| - j]| == |s| - j && |s[..|s| - k]| == |s| - k;
  }
}
