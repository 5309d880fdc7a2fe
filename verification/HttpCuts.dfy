/**
  The same bytes cut in two ways: at an error the parser calls back, counts and, at the header limit, even reports
  something else.
 */
module HttpCuts {
  import opened HttpParser
  import opened HttpExecute
  import opened HttpSplits
  import opened HttpLimits
  import opened RtspPrinting
  import opened HeaderPrinting
  import opened RtspRoundTrip
  import opened Sequences

  /** A request up to the value of a header. */
  function Head(): text {
    MethodString(OPTIONS) + [' '] + "*" + VERSION + PrintHeaders([], []) + ['A'] + [':'] + [' ']
  }

  /** Before a value, and inside one, that means nothing to the parser. */
  predicate BeforePlainValue(q: Parser) {
    q.errno == OK && q.state == HeaderValueDiscardWs && q.headerState == General
  }

  predicate InPlainValue(q: Parser) {
    q.errno == OK && q.state == HeaderValue && q.headerState == General
  }

  lemma NameByte(p: Parser)
    requires AtLine(p, Absent, false)
    ensures
      var q := StepState(p, 'A').p;
      && StepState(p, 'A') == Step(q, [], false)
      && q.errno == OK && q.state == HeaderField && q.headerState == General
  {
    hide StepState, FinishHeader;
    LineBegins(p, 'A');
    FinishKeeps(p);
  }

  lemma ValueByte(q: Parser)
    requires BeforePlainValue(q)
    ensures
      var r := StepState(q, 'x').p;
      StepState(q, 'x') == Step(r, [], false) && InPlainValue(r)
  {
    hide StepState;
    BeforeValue(q, 'x');
  }

  lemma NextByte(r: Parser, ch: octet)
    requires InPlainValue(r) && (ch == 'x' || ch == 'y')
    ensures StepState(r, ch) == Step(r, [], false)
  {
    hide StepState;
    InValue(r, ch);
  }

  lemma ZeroByte(r: Parser)
    requires InPlainValue(r)
    ensures StepState(r, '\0').p.errno == InvalidHeaderToken && !IsHeaderChar('\0')
  {
    hide StepState;
    InValue(r, '\0');
  }

  /** A request up to the name of a header. */
  lemma ReadToName() returns (b: Parser, es: seq<Event>)
    ensures Reads(INIT, MethodString(OPTIONS) + [' '] + "*" + VERSION + PrintHeaders([], []) + ['A'], b, es)
    ensures b.errno == OK && b.state == HeaderField && b.headerState == General
  {
    hide Reads, StepState, KindOf, MethodString, ValidUrl, AtLine, DataEvent, PrintHeaders;
    UrlIsStar();
    var a := RtspRoundTrip.ReadHead(OPTIONS, "*", [], []);
    NameByte(a);
    LineIsFine(a);
    b := StepState(a, 'A').p;
    ReadsByte(a, 'A', b);
    es := RequestEvents("*", []) + DataEvent(b.state, 'A');
    ReadsThen(INIT, MethodString(OPTIONS) + [' '] + "*" + VERSION + PrintHeaders([], []), a, RequestEvents("*", []),
              ['A'], b, DataEvent(b.state, 'A'));
  }

  lemma ReadToValue() returns (q: Parser, es: seq<Event>)
    ensures Reads(INIT, Head(), q, es) && BeforePlainValue(q)
  {
    hide Reads, StepState, KindOf, MethodString, PrintHeaders;
    var s := MethodString(OPTIONS) + [' '] + "*" + VERSION + PrintHeaders([], []) + ['A'];
    var b, events := ReadToName();
    es := events;
    Colon(b);
    LineStatesAreQuiet();
    q := b.(state := HeaderValueDiscardWs);
    ReadsThenQuietly(INIT, s, b, es, ':', q);
    BeforeValue(q, ' ');
    ReadsThenQuietly(INIT, s + [':'], q, es, ' ', q);
  }

  lemma LineIsFine(p: Parser)
    requires AtLine(p, Absent, false)
    ensures p.errno == OK
  {
  }

  // ---- Data and count ----

  lemma MarksMove(p: Parser, data: text, j: nat)
    requires j < |data|
    ensures
      var s, s' := Path(p, data, 0, j).state, Path(p, data, 0, j + 1).state;
      && MarkAt(p, data, j + 1) == (if KindOf(s') == KindOf(s) then MarkAt(p, data, j) else j)
      && ScanAt(p, data, j + 1) == (if s' == HeaderValue != s then j + 1 else ScanAt(p, data, j))
  {
    hide KindOf, Path;
  }

  /** Three bytes into a value: the marks. */
  lemma MarksInValue(head: text, q: Parser)
    requires BeforePlainValue(q) && Path(INIT, head, 0, |head|) == q
    ensures
      var data, n := head + ['x', 'y', '\0'], |head| + 2;
      && Path(INIT, data, 0, n).state == HeaderValue
      && MarkAt(INIT, data, n) == |head| && ScanAt(INIT, data, n) == |head| + 1
  {
    hide StepState, KindOf, Path, MarkAt, ScanAt;
    var data := head + ['x', 'y', '\0'];
    PathOfPrefix(INIT, head, ['x', 'y', '\0'], |head|);
    MarksMove(INIT, data, |head|);
    MarksMove(INIT, data, |head| + 1);
    PathOneMore(INIT, data, 0, |head|);
    PathOneMore(INIT, data, 0, |head| + 1);
    ValueByte(q);
    NextByte(StepState(q, 'x').p, 'y');
    NameKinds();
  }

  /** A verdict on an error inside a value that begins at `mark`. */
  lemma VerdictInValue(v: Verdict, p: Parser, nread: nat, data: text, c: nat, mark: nat)
    requires IsVerdict(v, p, nread, data, c)
    requires
      var all := Feed(p, nread, data, 0);
      && all.p.errno != OK && all.pos <= |data|
      && Path(p, data, 0, all.pos).state == HeaderValue
      && MarkAt(p, data, all.pos) == mark && ScanAt(p, data, all.pos) == mark + 1
    ensures
      var all := Feed(p, nread, data, 0);
      && v.p.errno == all.p.errno && v.n == all.pos
      && mark <= all.pos && c <= all.pos && all.pos - Max(c, mark) <= |all.events|
      && v.events == all.events[..|all.events| - (all.pos - Max(c, mark))]
      && v.nread == nread + 1 + Max(c, mark + 1)
  {
    hide Feed, Path, MarkAt, ScanAt, KindOf;
    NameKinds();
  }

  /** A zero byte in a value: in one buffer, the two bytes of the value before it are not called back, and it is
      counted with the first of them; with a cut in front of it they are, and all bytes are counted. */
  lemma {:induction false} CutsShow()
    ensures
      var first: text := Head() + ['x', 'y'];
      var last: text := ['\0'];
      var v, w := Buffers(INIT, 0, [first + last]), Buffers(INIT, 0, [first, last]);
      && Flatten([first + last]) == Flatten([first, last]) == first + last
      && v.p.errno == w.p.errno == InvalidHeaderToken && v.n == w.n == |Head()| + 2
      && w.events == v.events + [Data(ValueData, 'x'), Data(ValueData, 'y')]
      && v.nread == |Head()| + 2 && w.nread == |Head()| + 3
  {
    hide Feed, Reads, Path, MarkAt, ScanAt, KindOf, StepState, Buffers, LastCut, Head, IsVerdict, BeforePlainValue,
      Flatten;
    var head := Head();
    var first: text := head + ['x', 'y'];
    var last: text := ['\0'];
    var data := first + last;
    assert data == head + ['x', 'y', '\0'];
    var q, es := ReadToValue();
    HeadIsShort();
    OneBufferCut(data, |head| + 2);
    TwoBuffersCut(first, last, |head| + 2);
    FailsInValue(head, q, es);
    MarksInValue(head, q);
    BuffersAre(INIT, 0, [data]);
    BuffersAre(INIT, 0, [first, last]);
    VerdictInValue(Buffers(INIT, 0, [data]), INIT, 0, data, 0, |head|);
    VerdictInValue(Buffers(INIT, 0, [first, last]), INIT, 0, data, |head| + 2, |head|);
    LastTwo(es);
  }

  lemma LastTwo(es: seq<Event>)
    ensures
      var all := es + [Data(ValueData, 'x'), Data(ValueData, 'y')];
      all[..|all| - 2] == es && all[..|all| - 0] == all
  {
  }

  lemma HeadIsShort()
    ensures |Head()| <= 100
  {
    assert |MethodString(OPTIONS)| == 7 && |VERSION| <= 13 && PrintHeaders([], []) == [];
  }

  lemma OneBufferCut(a: text, n: nat)
    ensures Flatten([a]) == a && LastCut([a], n) == 0
  {
    assert [a][..0] == [] && [] + a == a;
  }

  lemma TwoBuffersCut(a: text, b: text, n: nat)
    ensures Flatten([a, b]) == a + b && (n >= |a| ==> LastCut([a, b], n) == |a|)
  {
    assert [a, b][..1] == [a];
    OneBufferCut(a, n);
  }

  /** The automaton fails at the zero byte, after the two before it. */
  lemma FailsInValue(head: text, q: Parser, es: seq<Event>)
    requires Reads(INIT, head, q, es) && BeforePlainValue(q) && |head| <= 100
    ensures Path(INIT, head, 0, |head|) == q
    ensures
      var all := Feed(INIT, 0, head + ['x', 'y', '\0'], 0);
      && all.p.errno == InvalidHeaderToken && all.pos == |head| + 2 && !all.complete
      && all.events == es + [Data(ValueData, 'x'), Data(ValueData, 'y')]
  {
    hide Feed, Path, Reads;
    FedWhole(head, q, es);
    FirstIsPath(INIT, 0, head);
    Segmentation(INIT, 0, head, ['x', 'y', '\0']);
    TailFails(q, |head|);
  }

  /** One byte of data. */
  lemma GoesOn(p: Parser, count: nat, data: text, i: nat, r: Parser)
    requires i < |data| && count < 1000 && StepState(p, data[i]) == Step(r, [], false)
    requires r.errno == OK && r.state == HeaderValue
    ensures Feed(p, count, data, i) == After([Data(ValueData, data[i])], Feed(r, count + 1, data, i + 1))
  {
    hide Feed, StepState, KindOf, DataEvent;
    FeedStep(p, count, data, i);
    FieldEvent(r.state, data[i]);
    assert [] + [Data(ValueData, data[i])] == [Data(ValueData, data[i])];
  }

  lemma EndsHere(r: Parser, count: nat, data: text, i: nat)
    requires i < |data| && data[i] == '\0' && count < 1000 && InPlainValue(r)
    ensures
      var all := Feed(r, count, data, i);
      all.p.errno == InvalidHeaderToken && all.events == [] && all.pos == i && !all.complete
  {
    hide Feed, StepState, KindOf, DataEvent, IsHeaderChar, InPlainValue;
    ZeroByte(r);
    FeedStep(r, count, data, i);
  }

  lemma TailFails(q: Parser, count: nat)
    requires BeforePlainValue(q) && count <= 100
    ensures
      var all := Feed(q, count, ['x', 'y', '\0'], 0);
      && all.p.errno == InvalidHeaderToken && all.pos == 2 && !all.complete
      && all.events == [Data(ValueData, 'x'), Data(ValueData, 'y')]
  {
    hide Feed, StepState, IsHeaderChar, BeforePlainValue;
    var tail: text := ['x', 'y', '\0'];
    var r := StepState(q, 'x').p;
    ValueByte(q);
    NextByte(r, 'y');
    GoesOn(q, count, tail, 0, r);
    GoesOn(r, count + 1, tail, 1, r);
    EndsHere(r, count + 2, tail, 2);
    assert [Data(ValueData, 'x')] + ([Data(ValueData, 'y')] + []) == [Data(ValueData, 'x'), Data(ValueData, 'y')];
  }

  // ---- The header limit ----

  function Xs(k: nat): (s: text)
    ensures |s| == k
  {
    seq(k, _ => 'x')
  }

  lemma {:induction false} ReadXs(r: Parser, k: nat) returns (es: seq<Event>)
    requires InPlainValue(r)
    ensures Reads(r, Xs(k), r, es)
  {
    hide Reads, StepState, DataEvent;
    if k == 0 {
      ReadsNothing(r);
      es := [];
      assert Xs(0) == [];
    } else {
      es := ReadXs(r, k - 1);
      NextByte(r, 'x');
      ReadsByte(r, 'x', r);
      ReadsThen(r, Xs(k - 1), r, es, ['x'], r, DataEvent(r.state, 'x'));
      es := es + DataEvent(r.state, 'x');
      assert Xs(k) == Xs(k - 1) + ['x'];
    }
  }

  /** A request up to a byte before the limit, in the middle of a value. */
  function LongHead(): (s: text)
    ensures |s| == MAX_HEADER_SIZE - 1
  {
    HeadIsShort();
    Head() + Xs(MAX_HEADER_SIZE - 1 - |Head()|)
  }

  lemma ReadLongHead() returns (r: Parser)
    ensures
      var all := Feed(INIT, 0, LongHead(), 0);
      InPlainValue(r) && all.p == r && all.nread == MAX_HEADER_SIZE - 1 && !all.complete
  {
    hide Feed, StepState, DataEvent, Head, Reads, Xs;
    var q, es := ReadToValue();
    HeadIsShort();
    ValueByte(q);
    r := StepState(q, 'x').p;
    var k := MAX_HEADER_SIZE - 2 - |Head()|;
    ReadsByte(q, 'x', r);
    ReadsThen(INIT, Head(), q, es, ['x'], r, DataEvent(r.state, 'x'));
    var more := ReadXs(r, k);
    ReadsThen(INIT, Head() + ['x'], r, es + DataEvent(r.state, 'x'), Xs(k), r, more);
    OneMoreX(k);
    Associative(Head(), ['x'], Xs(k));
    FedWhole(LongHead(), r, es + DataEvent(r.state, 'x') + more);
  }

  lemma OneMoreX(k: nat)
    ensures ['x'] + Xs(k) == Xs(k + 1)
  {
  }

  /** The error that the parser reports for a request that comes in some buffers. */
  method Report(parts: seq<text>) returns (e: Errno)
    requires forall x <- parts :: x != []
    ensures e == ErrorOf(INIT, 0, parts)
  {
    hide *;
    var parsing := new Parsing();
    StartsWell();
    var _ := ExecuteAll(parsing, parts);
    e := parsing.p.errno;
  }

  lemma StartsWell()
    ensures INIT.errno == OK
  {
  }

  /** One byte before the header limit: a byte that no value may hold is reported when it comes in one buffer with
      the last byte within the limit, and the limit when a cut lies between them. */
  lemma {:induction false} CutsAtTheLimit()
    ensures
      var x: text := ['x'];
      var zero: text := ['\0'];
      && Flatten([LongHead(), x + zero]) == Flatten([LongHead(), x, zero])
      && ErrorOf(INIT, 0, [LongHead(), x + zero]) == InvalidHeaderToken
      && ErrorOf(INIT, 0, [LongHead(), x, zero]) == HeaderOverflow
  {
    hide Feed, LongHead, ErrorOf, OneError, Flatten, InPlainValue;
    var head := LongHead();
    var x: text := ['x'];
    var zero: text := ['\0'];
    var r := ReadLongHead();
    PlainIsFine(r);
    ThreeBuffers(head, x, zero);
    assert x + zero == ['x', '\0'];
    OneBufferCut(head, 0);
    assert [head, x + zero][..1] == [head] && [head, x, zero][..2] == [head, x];
    ErrorNext(INIT, 0, [head, x + zero]);
    BadByteReported(r);
    Segmentation(INIT, 0, head, x);
    OneX(r);
    ErrorNext(INIT, 0, [head, x, zero]);
    LimitReported(r);
  }

  lemma PlainIsFine(r: Parser)
    requires InPlainValue(r)
    ensures r.errno == OK
  {
  }

  lemma ThreeBuffers(a: text, b: text, c: text)
    ensures Flatten([a, b]) == a + b && Flatten([a, b, c]) == a + b + c == Flatten([a, b + c])
  {
    TwoBuffersCut(a, b, 0);
    TwoBuffersCut(a, b + c, 0);
    assert [a, b, c][..2] == [a, b];
    Associative(a, b, c);
  }

  /** The scan that begins with the last byte within the limit goes on to the zero byte. */
  lemma BadByteReported(r: Parser)
    requires InPlainValue(r)
    ensures OneError(r, MAX_HEADER_SIZE - 1, ['x', '\0']) == InvalidHeaderToken
  {
    hide Feed, StepState, IsHeaderChar, Reports, Path;
    var data: text := ['x', '\0'];
    NextByte(r, 'x');
    PathOneMore(r, data, 0, 0);
    PassesAtZero(r, data);
    GoesOnToZero(r, data);
  }

  lemma PassesAtZero(r: Parser, data: text)
    requires InPlainValue(r) && data == ['x', '\0']
    ensures var all := Feed(r, MAX_HEADER_SIZE - 1, data, 0); all.p.errno == HeaderOverflow && all.pos == 1
  {
    hide Feed, StepState, DataEvent;
    NextByte(r, 'x');
    FeedStep(r, MAX_HEADER_SIZE - 1, data, 0);
    FeedStep(r, MAX_HEADER_SIZE, data, 1);
  }

  lemma GoesOnToZero(r: Parser, data: text)
    requires InPlainValue(r) && data == ['x', '\0']
    ensures Reports(r, data, 0, MAX_HEADER_SIZE) == InvalidHeaderToken
  {
    hide StepState, IsHeaderChar, ValueChar;
    ZeroByte(r);
    NextByte(r, 'x');
    ReportsNext(r, data, 1, MAX_HEADER_SIZE - 1);
  }

  lemma LimitReported(r: Parser)
    requires InPlainValue(r)
    ensures OneError(r, MAX_HEADER_SIZE, ['\0']) == HeaderOverflow
  {
    hide Feed, StepState;
    FeedStep(r, MAX_HEADER_SIZE, ['\0'], 0);
  }

  lemma OneX(r: Parser)
    requires InPlainValue(r)
    ensures
      var all := Feed(r, MAX_HEADER_SIZE - 1, ['x'], 0);
      all.p == r && all.nread == MAX_HEADER_SIZE && !all.complete
  {
    hide StepState, DataEvent;
    NextByte(r, 'x');
    FeedStep(r, MAX_HEADER_SIZE - 1, ['x'], 0);
  }
}
