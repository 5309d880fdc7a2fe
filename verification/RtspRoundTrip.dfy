/**
  Requests and interleaved frames written to a stream and framed again, whatever reads it arrives in.
 */
module RtspRoundTrip {
  import opened HttpParser
  import opened HttpExecute
  import opened RtspParser
  import opened RtspServerContext
  import opened MethodNames
  import opened RtspPrinting
  import opened HeaderNames
  import opened HeaderPrinting
  import opened Sequences

  // ---- The header block ----

  /** Where the values of a list of headers are broken into lines. */
  type Folds = seq<set<nat>>

  function PrintHeaders(hs: seq<Header>, fs: Folds): text
    requires |fs| == |hs|
  {
    if hs == [] then [] else PrintHeader(hs[0], fs[0]) + PrintHeaders(hs[1..], fs[1..])
  }

  predicate AllPrintable(hs: seq<Header>, fs: Folds)
    requires |fs| == |hs|
  {
    forall k :: 0 <= k < |hs| ==> Printable(hs[k]) && Foldable(hs[k], fs[k])
  }

  lemma PrintableFirst(hs: seq<Header>, fs: Folds)
    requires |fs| == |hs| && AllPrintable(hs, fs) && hs != []
    ensures Printable(hs[0]) && Foldable(hs[0], fs[0]) && AllPrintable(hs[1..], fs[1..])
  {
    hide Printable, Foldable;
  }

  function HeadersEvents(hs: seq<Header>): seq<Event> {
    if hs == [] then [] else HeaderEvents(hs[0]) + HeadersEvents(hs[1..])
  }

  /** The content length that headers give, after those that gave `l`: the first error among them counts. */
  function LengthAfter(l: Length, hs: seq<Header>): Length
    decreases |hs|
  {
    if hs == [] then l else LengthAfter(With(l, hs[0]), hs[1..])
  }

  predicate HasCoding(hs: seq<Header>) {
    exists h <- hs :: IsCoding(h)
  }

  /** What the headers of a request come to: a content length must not stand beside a transfer coding. */
  function Verdict(hs: seq<Header>): Length {
    var l := LengthAfter(Absent, hs);
    if l.Given? && HasCoding(hs) then Refused(UnexpectedContentLength) else l
  }

  lemma {:induction false} RefusedStays(l: Length, hs: seq<Header>)
    requires l.Refused?
    ensures LengthAfter(l, hs) == l
    decreases |hs|
  {
    if hs != [] {
      RefusedStays(l, hs[1..]);
    }
  }

  lemma CodingFirst(hs: seq<Header>)
    requires hs != []
    ensures HasCoding(hs) <==> IsCoding(hs[0]) || HasCoding(hs[1..])
  {
    hide IsCoding;
    assert hs == [hs[0]] + hs[1..];
    if h :| h in hs && IsCoding(h) {
      assert h == hs[0] || h in hs[1..];
    }
  }

  /** Headers that are not refused are read whole. */
  lemma {:induction false} ReadHeaders(p: Parser, hs: seq<Header>, fs: Folds, l: Length, coded: bool) returns (q: Parser)
    requires AtLine(p, l, coded) && !LengthAfter(l, hs).Refused? && |fs| == |hs| && AllPrintable(hs, fs)
    ensures Reads(p, PrintHeaders(hs, fs), q, HeadersEvents(hs)) && q.verb == p.verb
    ensures AtLine(q, LengthAfter(l, hs), coded || HasCoding(hs))
    decreases |hs|
  {
    hide Reads, AllPrintable, Printable, Foldable, With, AtLine, IsCoding, HasCoding;
    LineIsFine(p, l, coded);
    if hs == [] {
      ReadsNothing(p);
      q := p;
      assert !HasCoding(hs) by {
        NoCoding();
      }
    } else {
      if With(l, hs[0]).Refused? {
        RefusedStays(With(l, hs[0]), hs[1..]);
      }
      CodingFirst(hs);
      PrintableFirst(hs, fs);
      var a := ReadHeader(p, hs[0], fs[0], l, coded);
      q := ReadHeaders(a, hs[1..], fs[1..], With(l, hs[0]), coded || IsCoding(hs[0]));
      ReadsThen(p, PrintHeader(hs[0], fs[0]), a, HeaderEvents(hs[0]), PrintHeaders(hs[1..], fs[1..]), q, HeadersEvents(hs[1..]));
    }
  }

  lemma LineIsFine(p: Parser, l: Length, coded: bool)
    requires AtLine(p, l, coded)
    ensures p.errno == OK && !l.Refused?
  {
  }

  lemma NoCoding()
    ensures !HasCoding([])
  {
  }

  /** Headers of which one is refused make the parser fail with its error. */
  lemma {:induction false} RefuseHeaders(p: Parser, hs: seq<Header>, fs: Folds, l: Length, coded: bool, tail: text)
    requires AtLine(p, l, coded) && LengthAfter(l, hs).Refused? && |fs| == |hs| && AllPrintable(hs, fs)
    requires tail != [] && tail[0] != ' ' && tail[0] != TAB
    ensures Fails(p, PrintHeaders(hs, fs) + tail, LengthAfter(l, hs).e)
    decreases |hs|
  {
    hide Reads, Fails, AllPrintable, Printable, Foldable, With, AtLine, IsCoding;
    LineIsFine(p, l, coded);
    PrintableFirst(hs, fs);
    var line, rest := PrintHeader(hs[0], fs[0]), PrintHeaders(hs[1..], fs[1..]) + tail;
    assert PrintHeaders(hs, fs) + tail == line + rest;
    if With(l, hs[0]).Refused? {
      RefusedStays(With(l, hs[0]), hs[1..]);
      LineFollows(hs[1..], fs[1..], tail);
      RefuseHeader(p, hs[0], fs[0], l, coded, rest);
    } else {
      var a := ReadHeader(p, hs[0], fs[0], l, coded);
      RefuseHeaders(a, hs[1..], fs[1..], With(l, hs[0]), coded || IsCoding(hs[0]), tail);
      ReadsThenFails(p, line, a, HeaderEvents(hs[0]), rest, LengthAfter(l, hs).e);
    }
  }

  lemma LineFollows(hs: seq<Header>, fs: Folds, tail: text)
    requires |fs| == |hs| && AllPrintable(hs, fs)
    requires tail != [] && tail[0] != ' ' && tail[0] != TAB
    ensures var s := PrintHeaders(hs, fs) + tail; s != [] && s[0] != ' ' && s[0] != TAB
  {
    hide IsToken;
    if hs != [] {
      assert Printable(hs[0]);
      TokensAreVisible(hs[0].name[0]);
    }
  }

  // ---- What is gathered from a header block ----

  function EmplaceAll(m: map<text, text>, hs: seq<Header>): map<text, text>
    decreases |hs|
  {
    if hs == [] then m else EmplaceAll(Emplace(m, hs[0].name, hs[0].value), hs[1..])
  }

  /** The headers as the callbacks see them. A header without a value is not told apart from the next
      one: its name becomes the beginning of the next name. `name` is such a beginning. */
  function Merge(name: text, hs: seq<Header>): seq<Header>
    decreases |hs|
  {
    if hs == [] then if name == [] then [] else [Header(name, [])]
    else if hs[0].value == [] then Merge(name + hs[0].name, hs[1..])
    else [Header(name + hs[0].name, hs[0].value)] + Merge([], hs[1..])
  }

  /** The headers once the end of the block is reported. */
  function Settled(g: Gathered): map<text, text> {
    OnEvent(g, HeadersComplete).headers
  }

  lemma GatherHeader(g: Gathered, h: Header)
    requires h.name != []
    ensures
      var f := Flush(g);
      GatherEvents(g, HeaderEvents(h)) == f.(field := f.field + h.name, value := f.value + h.value)
  {
    GatherEventsAppend(g, AllData(FieldData, h.name), AllData(ValueData, h.value));
    OnDataByBytes(g, FieldData, h.name);
    OnDataByBytes(OnData(g, FieldData, h.name), ValueData, h.value);
  }

  lemma {:induction false} GatherHeaders(g: Gathered, hs: seq<Header>)
    requires forall h <- hs :: h.name != []
    requires g.value != [] ==> g.field != []
    ensures
      var g' := GatherEvents(g, HeadersEvents(hs));
      && Settled(g') == EmplaceAll(
           g.headers,
           if g.value == [] then Merge(g.field, hs) else [Header(g.field, g.value)] + Merge([], hs))
      && g'.url == g.url && g'.complete == g.complete
    decreases |hs|
  {
    if hs == [] {
      assert EmplaceAll(g.headers, []) == g.headers;
      if g.field != [] {
        var one := [Header(g.field, g.value)];
        assert one + [] == one && one[1..] == [];
      }
    } else {
      hide OnEvent, GatherEvents;
      GatherHeader(g, hs[0]);
      var next := GatherEvents(g, HeaderEvents(hs[0]));
      GatherEventsAppend(g, HeaderEvents(hs[0]), HeadersEvents(hs[1..]));
      GatherHeaders(next, hs[1..]);
      assert [] + hs[0].name == hs[0].name && [] + hs[0].value == hs[0].value;
      if g.value != [] {
        var one := [Header(g.field, g.value)];
        var rest := Merge([], hs);
        assert (one + rest)[1..] == rest;
      }
    }
  }

  /** No header but the last is without a value. */
  predicate NoGaps(hs: seq<Header>) {
    forall k :: 0 <= k < |hs| - 1 ==> hs[k].value != []
  }

  lemma {:induction false} MergeIsShorter(name: text, hs: seq<Header>)
    requires forall h <- hs :: h.name != []
    ensures |Merge(name, hs)| <= |hs| + if name == [] then 0 else 1
    ensures name != [] && hs != [] ==> |Merge(name, hs)| <= |hs|
    decreases |hs|
  {
    if hs != [] {
      MergeIsShorter(if hs[0].value == [] then name + hs[0].name else [], hs[1..]);
    }
  }

  /** The headers are told apart exactly when none but the last is without a value. */
  lemma {:induction false} HeadersAreKeptExactlyWhen(hs: seq<Header>)
    requires forall h <- hs :: h.name != []
    ensures Merge([], hs) == hs <==> NoGaps(hs)
  {
    if hs != [] {
      var rest := hs[1..];
      assert [] + hs[0].name == hs[0].name;
      if hs[0].value == [] {
        MergeIsShorter(hs[0].name, rest);
        if rest == [] {
          assert hs == [hs[0]];
        } else {
          assert |Merge([], hs)| < |hs|;
        }
      } else {
        HeadersAreKeptExactlyWhen(rest);
        assert NoGaps(hs) <==> NoGaps(rest) by {
          if NoGaps(rest) {
            forall k | 0 <= k < |hs| - 1 ensures hs[k].value != [] {
              assert k > 0 ==> hs[k] == rest[k - 1];
            }
          }
          if NoGaps(hs) {
            forall k | 0 <= k < |rest| - 1 ensures rest[k].value != [] {
              assert rest[k] == hs[k + 1];
            }
          }
        }
        assert hs == [hs[0]] + rest;
      }
    }
  }

  /** The first value given for a name. */
  function FirstValue(hs: seq<Header>, name: text): text {
    if hs == [] then [] else if hs[0].name == name then hs[0].value else FirstValue(hs[1..], name)
  }

  lemma {:induction false} LookupIsFirst(m: map<text, text>, hs: seq<Header>, name: text)
    ensures
      var all := EmplaceAll(m, hs);
      (if name in all then all[name] else []) == if name in m then m[name] else FirstValue(hs, name)
    decreases |hs|
  {
    if hs != [] {
      LookupIsFirst(Emplace(m, hs[0].name, hs[0].value), hs[1..], name);
    }
  }

  // ---- Requests ----

  function PrintRequest(m: Method, url: text, hs: seq<Header>, fs: Folds): text
    requires |fs| == |hs|
  {
    MethodString(m) + [' '] + url + VERSION + PrintHeaders(hs, fs) + [CR, LF]
  }

  /** The message a request means. */
  function Meaning(m: Method, url: text, hs: seq<Header>): RtspParser.Message {
    Message(MethodString(m), url, EmplaceAll(map[], Merge([], hs)))
  }

  function RequestEvents(url: text, hs: seq<Header>): seq<Event> {
    [MessageBegin] + AllData(UrlData, url) + HeadersEvents(hs)
  }

  lemma UrlIsNotEmpty(m: Method, url: text)
    requires ValidUrl(m, url)
    ensures url != [] && UrlState(UrlStart(m), url) != Dead
  {
  }

  lemma VersionDone(p: Parser)
    requires p.errno == OK
    ensures
      var q := AfterVersion(p, |VERSION|);
      && q.verb == p.verb && q.flags == p.flags && q.errno == OK && q.headerState == p.headerState
      && q.state == HeaderFieldStart && q.contentLength == p.contentLength
      && q.usesTransferEncoding == p.usesTransferEncoding
  {
  }

  lemma MethodDone(m: Method)
    ensures
      var p := AfterMethod(m);
      && p.errno == OK && p.state == ReqSpacesBeforeUrl && p.verb == m && p.flags == NO_FLAGS && p.headerState == General
      && p.contentLength == ULLONG_MAX && !p.usesTransferEncoding
  {
  }

  /** The request line. */
  lemma ReadRequestLine(m: Method, url: text) returns (q: Parser)
    requires Parseable(m) && ValidUrl(m, url)
    ensures Reads(INIT, MethodString(m) + [' '] + url + VERSION, q, [MessageBegin] + AllData(UrlData, url))
    ensures AtLine(q, Absent, false) && q.verb == m
  {
    hide Reads, MethodString, ValidUrl, UrlState, AfterMethod, AfterVersion, MayEndUrl;
    ReadMethod(m);
    MethodDone(m);
    UrlIsNotEmpty(m, url);
    ReadUrl(AfterMethod(m), url);
    var a := AfterMethod(m).(state := UrlState(UrlStart(m), url));
    assert MayEndUrl(a.state) by {
      UrlEnds(m, url);
    }
    var word := MethodString(m) + [' '];
    ReadsThen(INIT, word, AfterMethod(m), [MessageBegin], url, a, AllData(UrlData, url));
    ReadVersion(a, |VERSION|);
    VersionDone(a);
    q := AfterVersion(a, |VERSION|);
    var es := [MessageBegin] + AllData(UrlData, url);
    assert VERSION[..|VERSION|] == VERSION;
    ReadsThen(INIT, word + url, a, es, VERSION, q, []);
    assert es + [] == es;
  }

  /** Everything before the blank line. */
  lemma ReadHead(m: Method, url: text, hs: seq<Header>, fs: Folds) returns (q: Parser)
    requires Parseable(m) && ValidUrl(m, url) && |fs| == |hs| && AllPrintable(hs, fs) && !LengthAfter(Absent, hs).Refused?
    ensures Reads(INIT, MethodString(m) + [' '] + url + VERSION + PrintHeaders(hs, fs), q, RequestEvents(url, hs))
    ensures AtLine(q, LengthAfter(Absent, hs), HasCoding(hs)) && q.verb == m
  {
    hide Reads, MethodString, ValidUrl, AllPrintable, AtLine, HasCoding;
    var b := ReadRequestLine(m, url);
    var line, es := MethodString(m) + [' '] + url + VERSION, [MessageBegin] + AllData(UrlData, url);
    q := ReadHeaders(b, hs, fs, Absent, false);
    ReadsThen(INIT, line, b, es, PrintHeaders(hs, fs), q, HeadersEvents(hs));
  }

  lemma UrlEnds(m: Method, url: text)
    requires ValidUrl(m, url)
    ensures MayEndUrl(UrlState(UrlStart(m), url))
  {
  }

  /** The blank line completes the message, unless it has both a content length and a transfer coding. */
  lemma BlankLine(p: Parser, l: Length, coded: bool)
    requires AtLine(p, l, coded)
    ensures
      var q := (if p.state == HeaderFieldStart then p else FinishHeader(p)).(state := HeadersAlmostDone);
      && StepState(p, CR) == Step(q, [], false) && q.errno == OK && KindOf(q.state) == NoData
      && var last := StepState(q, LF);
         if l.Given? && coded then last.p.errno == UnexpectedContentLength
         else Completes(last, p.verb, l)
  {
    hide StepState, FinishHeader, NewMessage, StepHeaderFieldStart;
    var before := if p.state == HeaderFieldStart then p else FinishHeader(p);
    FinishKeeps(p);
    FinishKeepsCoding(p);
    LineBegins(p, CR);
    BlankBegins(before);
    BlankEnds(before.(state := HeadersAlmostDone), l);
  }

  /** A step that completes a message with this method and length. */
  predicate Completes(step: Step, m: Method, l: Length) {
    && step.stop && step.p.errno == OK && step.p.verb == m && step.notices == [HeadersComplete, MessageComplete]
    && (step.p.flags.contentLength <==> l.Given?)
    && step.p.contentLength == if l.Given? then l.n else ULLONG_MAX
  }

  lemma BlankBegins(p: Parser)
    ensures StepHeaderFieldStart(p, CR) == Step(p.(state := HeadersAlmostDone), [], false)
    ensures KindOf(HeadersAlmostDone) == NoData
  {
    hide StepHeadersAlmostDone;
  }

  lemma BlankEnds(q: Parser, l: Length)
    requires q.state == HeadersAlmostDone && q.errno == OK
    requires q.flags.contentLength <==> l.Given?
    requires q.contentLength == if l.Given? then l.n else ULLONG_MAX
    ensures
      var last := StepState(q, LF);
      if l.Given? && q.usesTransferEncoding then last.p.errno == UnexpectedContentLength
      else Completes(last, q.verb, l)
  {
    hide StepStart, StepStatusLine, StepUrlState, StepRequestLine, StepHeaderFieldStart, StepHeaderField,
         StepHeaderValueDiscardWs, StepHeaderValueDiscardLws, StepHeaderValueStart, StepHeaderValue,
         StepHeaderValueLws, NewMessage;
  }

  /** A request that is read whole, with its method, its content length and its parts. */
  predicate IsRead(o: Outcome, m: Method, url: text, hs: seq<Header>, l: Length, length: nat) {
    && o.complete && o.p.errno == OK && o.pos == length
    && o.p.verb == m
    && (o.p.flags.contentLength <==> l.Given?)
    && o.p.contentLength == (if l.Given? then l.n else ULLONG_MAX)
    && o.events == RequestEvents(url, hs) + [HeadersComplete, MessageComplete]
  }

  lemma FeedRefused(m: Method, url: text, hs: seq<Header>, fs: Folds)
    requires Parseable(m) && ValidUrl(m, url) && |fs| == |hs| && AllPrintable(hs, fs)
    requires |PrintRequest(m, url, hs, fs)| <= MAX_HEADER_SIZE && LengthAfter(Absent, hs).Refused?
    ensures Feed(INIT, 0, PrintRequest(m, url, hs, fs), 0).p.errno == LengthAfter(Absent, hs).e
  {
    hide Reads, Fails, MethodString, ValidUrl, AllPrintable, PrintHeaders, AtLine, LengthAfter, Feed;
    var l := LengthAfter(Absent, hs);
    var line, es := MethodString(m) + [' '] + url + VERSION, [MessageBegin] + AllData(UrlData, url);
    var b := ReadRequestLine(m, url);
    RefuseHeaders(b, hs, fs, Absent, false, [CR, LF]);
    ReadsThenFails(INIT, line, b, es, PrintHeaders(hs, fs) + [CR, LF], l.e);
    assert line + (PrintHeaders(hs, fs) + [CR, LF]) == PrintRequest(m, url, hs, fs);
    FedFails(PrintRequest(m, url, hs, fs), l.e);
  }

  /** Up to the line feed of the blank line. */
  lemma ReadUpToEnd(m: Method, url: text, hs: seq<Header>, fs: Folds) returns (all: text, r: Parser)
    requires Parseable(m) && ValidUrl(m, url) && |fs| == |hs| && AllPrintable(hs, fs) && !LengthAfter(Absent, hs).Refused?
    ensures PrintRequest(m, url, hs, fs) == all + [LF] && Reads(INIT, all, r, RequestEvents(url, hs))
    ensures
      var l, last := LengthAfter(Absent, hs), StepState(r, LF);
      if l.Given? && HasCoding(hs) then last.p.errno == UnexpectedContentLength else Completes(last, m, l)
  {
    hide Reads, MethodString, ValidUrl, AllPrintable, PrintHeaders, StepState, RequestEvents, AtLine, FinishHeader, HasCoding,
      LengthAfter, Completes;
    var head := MethodString(m) + [' '] + url + VERSION + PrintHeaders(hs, fs);
    var q := ReadHead(m, url, hs, fs);
    BlankLine(q, LengthAfter(Absent, hs), HasCoding(hs));
    r := (if q.state == HeaderFieldStart then q else FinishHeader(q)).(state := HeadersAlmostDone);
    ReadsThenQuietly(INIT, head, q, RequestEvents(url, hs), CR, r);
    all := head + [CR];
    assert PrintRequest(m, url, hs, fs) == all + [LF];
  }

  /** A printed request within the header limit is read whole, as one message with the content length that its headers
      give, unless they are refused; then the parser fails with their error. */
  lemma {:induction false} FeedRequest(m: Method, url: text, hs: seq<Header>, fs: Folds)
    requires Parseable(m) && ValidUrl(m, url) && |fs| == |hs| && AllPrintable(hs, fs)
    requires |PrintRequest(m, url, hs, fs)| <= MAX_HEADER_SIZE
    ensures
      var s := PrintRequest(m, url, hs, fs);
      var o, l := Feed(INIT, 0, s, 0), Verdict(hs);
      if l.Refused? then o.p.errno == l.e else IsRead(o, m, url, hs, l, |s|)
  {
    hide Reads, MethodString, ValidUrl, AllPrintable, PrintRequest, StepState, RequestEvents, HasCoding, LengthAfter, Feed,
      Completes, IsRead;
    var l := LengthAfter(Absent, hs);
    if l.Refused? {
      FeedRefused(m, url, hs, fs);
    } else {
      var all, r := ReadUpToEnd(m, url, hs, fs);
      ReadsIsFine(INIT, all, r, RequestEvents(url, hs));
      FedWhole(all, r, RequestEvents(url, hs));
      Segmentation(INIT, 0, all, [LF]);
      LastByte(r, |all|, l.Given? && HasCoding(hs), m, l);
      Concluded(m, url, hs, l, HasCoding(hs), all, r);
    }
  }

  lemma FedFails(s: text, e: Errno)
    requires Fails(INIT, s, e) && |s| <= MAX_HEADER_SIZE
    ensures Feed(INIT, 0, s, 0).p.errno == e
  {
    hide Feed;
    assert 0 + |s| <= MAX_HEADER_SIZE;
  }

  lemma Concluded(m: Method, url: text, hs: seq<Header>, l: Length, coded: bool, all: text, r: Parser)
    requires !l.Refused?
    requires
      var last, o := StepState(r, LF), Feed(INIT, 0, all + [LF], 0);
      if l.Given? && coded then o.p.errno == UnexpectedContentLength
      else
        && Completes(last, m, l)
        && o == Outcome(last.p, 0, RequestEvents(url, hs) + last.notices, |all| + 1, true)
    ensures
      var o := Feed(INIT, 0, all + [LF], 0);
      if l.Given? && coded then o.p.errno == UnexpectedContentLength else IsRead(o, m, url, hs, l, |all| + 1)
  {
    hide Feed, StepState, RequestEvents;
  }

  lemma FedWhole(s: text, q: Parser, es: seq<Event>)
    requires Reads(INIT, s, q, es) && |s| <= MAX_HEADER_SIZE
    ensures Feed(INIT, 0, s, 0) == Outcome(q, |s|, es, |s|, false)
  {
    hide Feed;
    assert 0 + |s| <= MAX_HEADER_SIZE;
  }

  lemma LastByte(r: Parser, n: nat, refused: bool, m: Method, l: Length)
    requires n + 1 <= MAX_HEADER_SIZE && r.errno == OK
    requires
      var last := StepState(r, LF);
      if refused then last.p.errno == UnexpectedContentLength else Completes(last, m, l)
    ensures
      var last, o := StepState(r, LF), Feed(r, n, [LF], 0);
      if refused then o.p.errno == UnexpectedContentLength && o.events == [] else o == Outcome(last.p, 0, last.notices, 1, true)
  {
    hide StepState;
  }

  lemma GatherRequest(url: text, hs: seq<Header>)
    requires forall h <- hs :: h.name != []
    ensures
      var g := GatherEvents(NOTHING, RequestEvents(url, hs) + [HeadersComplete, MessageComplete]);
      g.url == url && g.headers == EmplaceAll(map[], Merge([], hs))
  {
    hide GatherEvents;
    var a := [MessageBegin] + AllData(UrlData, url);
    var end: seq<Event> := [HeadersComplete, MessageComplete];
    GatherEventsAppend(NOTHING, RequestEvents(url, hs), end);
    GatherEventsAppend(NOTHING, a, HeadersEvents(hs));
    GatherEventsAppend(NOTHING, [MessageBegin], AllData(UrlData, url));
    GatherOne(NOTHING, MessageBegin);
    OnDataByBytes(NOTHING, UrlData, url);
    var g := NOTHING.(url := [] + url);
    assert GatherEvents(NOTHING, a) == g;
    GatherHeaders(g, hs);
    var settled := GatherEvents(g, HeadersEvents(hs));
    GatherEventsAppend(settled, [HeadersComplete], [MessageComplete]);
    assert [HeadersComplete] + [MessageComplete] == end;
    GatherOne(settled, HeadersComplete);
    GatherOne(OnEvent(settled, HeadersComplete), MessageComplete);
  }

  lemma GatherOne(g: Gathered, e: Event)
    ensures GatherEvents(g, [e]) == OnEvent(g, e)
  {
    assert [e][..0] == [];
    assert GatherEvents(g, []) == g;
  }

  /** Parsing a printed request gives back the method, the URL, the headers as the callbacks tell them
      apart, and the printed length, exactly when its headers are not refused. */
  lemma {:induction false} RequestRoundTrip(m: Method, url: text, hs: seq<Header>, fs: Folds)
    requires Parseable(m) && ValidUrl(m, url) && |fs| == |hs| && AllPrintable(hs, fs)
    requires |PrintRequest(m, url, hs, fs)| <= MAX_HEADER_SIZE
    ensures
      ParseMessage(PrintRequest(m, url, hs, fs)) ==
      if Verdict(hs).Refused? then Error else Done(|PrintRequest(m, url, hs, fs)|, Meaning(m, url, hs))
  {
    hide Feed, GatherEvents, Merge, RequestEvents, PrintRequest, ValidUrl, LengthAfter, HasCoding;
    FeedRequest(m, url, hs, fs);
    NamesAreThere(hs, fs);
    GatherRequest(url, hs);
    RefusalIsAnError(hs);
  }

  lemma NamesAreThere(hs: seq<Header>, fs: Folds)
    requires |fs| == |hs| && AllPrintable(hs, fs)
    ensures forall h <- hs :: h.name != []
  {
  }

  lemma {:induction false} RefusalAfter(l: Length, hs: seq<Header>)
    requires l.Refused? ==> l.e != OK
    ensures LengthAfter(l, hs).Refused? ==> LengthAfter(l, hs).e != OK
    decreases |hs|
  {
    hide IsLength, IsNumber, NumberOf;
    if hs != [] {
      RefusalAfter(With(l, hs[0]), hs[1..]);
    }
  }

  lemma RefusalIsAnError(hs: seq<Header>)
    ensures Verdict(hs).Refused? ==> Verdict(hs).e != OK
  {
    hide LengthAfter, HasCoding;
    RefusalAfter(Absent, hs);
  }

  /** A content length alone among other headers: what it comes to is what it says by itself. */
  lemma {:induction false} OneLength(before: seq<Header>, h: Header, after: seq<Header>)
    requires forall g <- before + after :: !IsLength(g) && !IsCoding(g)
    requires IsLength(h) && !IsCoding(h)
    ensures
      Verdict(before + [h] + after) ==
      if h.value != [] && IsNum(h.value[0]) && IsNumber(h.value) then Given(NumberOf(h.value))
      else Refused(InvalidContentLength)
  {
    hide IsLength, IsCoding, IsNumber, NumberOf;
    var hs := before + [h] + after;
    assert forall g <- hs :: g in before + after || g == h;
    assert forall g <- before :: g in before + after;
    assert forall g <- after :: g in before + after;
    OthersDoNotCount(Absent, before, [h] + after);
    assert before + ([h] + after) == hs && ([h] + after)[1..] == after;
    OthersDoNotCount(With(Absent, h), after, []);
    assert after + [] == after;
  }

  /** A header that is not Transfer-Encoding, but whose name begins like it, beside a content length. */
  lemma {:induction false} CodingByItsBeginning()
    ensures Verdict([Header("transfer-encodings", "x"), Header("content-length", "1")]) == Refused(UnexpectedContentLength)
  {
    hide IsNumber, NumberOf, LowerAll;
    var a, b := Header("transfer-encodings", "x"), Header("content-length", "1");
    var hs := [a, b];
    LowerIsSame("transfer-encodings");
    LowerIsSame("content-length");
    assert |a.name| == 18 && |b.name| == 14;
    assert "transfer-encoding" <= a.name;
    assert IsCoding(a) && !IsLength(a) && IsLength(b) && a in hs;
    NumberOfOne('1');
    assert b.value == ['1'];
    assert hs[1..] == [b] && [b][1..] == [];
    assert LengthAfter(Absent, hs) == LengthAfter(With(Absent, a), [b]) == LengthAfter(With(Absent, b), []);
  }

  lemma LowerIsSame(s: text)
    requires forall k :: 0 <= k < |s| ==> 'a' <= s[k] <= 'z' || s[k] == '-'
    ensures LowerAll(s) == s
  {
  }

  lemma {:induction false} OthersDoNotCount(l: Length, others: seq<Header>, hs: seq<Header>)
    requires forall g <- others :: !IsLength(g)
    ensures LengthAfter(l, others + hs) == LengthAfter(l, hs)
    decreases |others|
  {
    hide IsLength, IsNumber, NumberOf;
    if others == [] {
      assert others + hs == hs;
    } else {
      assert (others + hs)[1..] == others[1..] + hs && others[0] in others;
      OthersDoNotCount(l, others[1..], hs);
    }
  }

  /** The names of consecutive headers, run together. */
  function Joined(hs: seq<Header>): text {
    if hs == [] then [] else Joined(hs[..|hs| - 1]) + hs[|hs| - 1].name
  }

  /** The name of header `i` is spelt by no other header, nor by the names of any that follow one another. */
  predicate OnlyAt(hs: seq<Header>, i: nat)
    requires i < |hs|
  {
    forall a, b :: 0 <= a < b <= |hs| && Joined(hs[a..b]) == hs[i].name ==> a == i && b == i + 1
  }

  lemma JoinedOneMore(hs: seq<Header>, a: nat, b: nat)
    requires a <= b < |hs|
    ensures Joined(hs[a..b + 1]) == Joined(hs[a..b]) + hs[b].name && Joined(hs[b..b]) == []
    ensures Joined(hs[b..b + 1]) == hs[b].name
  {
    assert hs[a..b + 1][..b - a] == hs[a..b];
    assert hs[b..b + 1][..0] == [];
  }

  lemma {:induction false} JoinedIsLong(hs: seq<Header>, a: nat, b: nat)
    requires a <= b <= |hs| && forall h <- hs :: h.name != []
    ensures Joined(hs[a..b]) == [] <==> a == b
    decreases b
  {
    if a < b {
      assert hs[b - 1] in hs;
      JoinedOneMore(hs, a, b - 1);
    }
  }

  lemma MergeAt(name: text, hs: seq<Header>, m: nat)
    requires m < |hs|
    ensures
      Merge(name, hs[m..]) ==
      if hs[m].value == [] then Merge(name + hs[m].name, hs[m + 1..])
      else [Header(name + hs[m].name, hs[m].value)] + Merge([], hs[m + 1..])
  {
    assert hs[m..][0] == hs[m] && hs[m..][1..] == hs[m + 1..];
  }

  /** Every header that the callbacks see is a run of headers, from one that follows a value on. */
  lemma {:induction false} RunOf(hs: seq<Header>, a: nat, m: nat, e: Header) returns (j: nat, k: nat)
    requires a <= m <= |hs| && (a == 0 || hs[a - 1].value != []) && e in Merge(Joined(hs[a..m]), hs[m..])
    requires forall h <- hs :: h.name != []
    ensures j < k <= |hs| && e.name == Joined(hs[j..k]) && (j == 0 || hs[j - 1].value != [])
    decreases |hs| - m
  {
    hide Joined;
    JoinedIsLong(hs, a, m);
    if m == |hs| {
      j, k := a, m;
    } else {
      hide Merge;
      MergeAt(Joined(hs[a..m]), hs, m);
      JoinedOneMore(hs, a, m);
      if hs[m].value == [] {
        j, k := RunOf(hs, a, m + 1, e);
      } else if e.name == Joined(hs[a..m + 1]) {
        j, k := a, m + 1;
      } else {
        NothingJoined();
        assert hs[m + 1..m + 1] == [];
        j, k := RunOf(hs, m + 1, m + 1, e);
      }
    }
  }

  lemma {:induction false} MergeAppend(name: text, a: seq<Header>, b: seq<Header>)
    requires if a == [] then name == [] else a[|a| - 1].value != []
    ensures Merge(name, a + b) == Merge(name, a) + Merge([], b)
    decreases |a|
  {
    if a == [] {
      assert a + b == b;
    } else {
      assert (a + b)[0] == a[0] && (a + b)[1..] == a[1..] + b;
      MergeAppend(if a[0].value == [] then name + a[0].name else [], a[1..], b);
    }
  }

  lemma {:induction false} FirstValueAppend(a: seq<Header>, b: seq<Header>, name: text)
    requires forall h <- a :: h.name != name
    ensures FirstValue(a + b, name) == FirstValue(b, name)
  {
    if a == [] {
      assert a + b == b;
    } else {
      assert (a + b)[0] == a[0] && (a + b)[1..] == a[1..] + b;
      assert a[0] in a && forall h <- a[1..] :: h in a;
      FirstValueAppend(a[1..], b, name);
    }
  }

  lemma {:induction false} FirstValueAbsent(hs: seq<Header>, name: text)
    requires forall h <- hs :: h.name != name
    ensures FirstValue(hs, name) == []
  {
    FirstValueAppend(hs, [], name);
    assert hs + [] == hs;
  }

  /** What the callbacks see before header `i` does not have its name. */
  lemma NotBefore(hs: seq<Header>, i: nat)
    requires i < |hs| && OnlyAt(hs, i) && forall h <- hs :: h.name != []
    ensures forall e <- Merge([], hs[..i]) :: e.name != hs[i].name
  {
    hide Merge, Joined;
    var before := hs[..i];
    assert forall h <- before :: h in hs;
    forall e <- Merge([], before)
      ensures e.name != hs[i].name
    {
      assert before[0..] == before && Joined(before[0..0]) == [] by {
        NothingJoined();
      }
      var j, k := RunOf(before, 0, 0, e);
      assert before[j..k] == hs[j..k];
    }
  }

  lemma NothingJoined()
    ensures Joined([]) == []
  {
  }

  /** A lookup by a name that nothing else spells finds the value of its header, unless this value is empty,
      exactly when the header does not follow one without a value. */
  lemma {:induction false} LookupExactlyWhen(hs: seq<Header>, i: nat)
    requires i < |hs| && OnlyAt(hs, i) && hs[i].value != [] && forall h <- hs :: h.name != []
    ensures FirstValue(hs, hs[i].name) == hs[i].value
    ensures FirstValue(Merge([], hs), hs[i].name) == hs[i].value <==> i == 0 || hs[i - 1].value != []
  {
    hide Merge, Joined, OnlyAt, FirstValue;
    var name := hs[i].name;
    assert hs == hs[..i] + hs[i..];
    FirstIsOnly(hs, i);
    if i == 0 || hs[i - 1].value != [] {
      MergeAppend([], hs[..i], hs[i..]);
      MergeFirst(hs[i..]);
      NotBefore(hs, i);
      FirstValueAppend(Merge([], hs[..i]), Merge([], hs[i..]), name);
      FoundFirst(Merge([], hs[i..]), hs[i]);
    } else {
      NowhereSpelt(hs, i);
      FirstValueAbsent(Merge([], hs), name);
    }
  }

  lemma MergeFirst(hs: seq<Header>)
    requires hs != [] && hs[0].value != []
    ensures Merge([], hs) == [hs[0]] + Merge([], hs[1..])
  {
    assert [] + hs[0].name == hs[0].name;
  }

  lemma FoundFirst(hs: seq<Header>, h: Header)
    requires hs != [] && hs[0] == h
    ensures FirstValue(hs, h.name) == h.value
  {
  }

  lemma FirstIsOnly(hs: seq<Header>, i: nat)
    requires i < |hs| && OnlyAt(hs, i)
    ensures FirstValue(hs, hs[i].name) == hs[i].value
  {
    hide FirstValue, Joined;
    forall h <- hs[..i]
      ensures h.name != hs[i].name
    {
      var k :| 0 <= k < i && hs[k] == h;
      JoinedOneMore(hs, k, k);
    }
    assert hs == hs[..i] + hs[i..];
    FirstValueAppend(hs[..i], hs[i..], hs[i].name);
    FoundFirst(hs[i..], hs[i]);
  }

  lemma NowhereSpelt(hs: seq<Header>, i: nat)
    requires 0 < i < |hs| && OnlyAt(hs, i) && hs[i - 1].value == [] && forall h <- hs :: h.name != []
    ensures forall e <- Merge([], hs) :: e.name != hs[i].name
  {
    hide Merge, Joined, OnlyAt;
    NothingJoined();
    assert hs[0..] == hs && hs[0..0] == [];
    forall e <- Merge([], hs)
      ensures e.name != hs[i].name
    {
      var j, k := RunOf(hs, 0, 0, e);
      OtherRun(hs, i, j, k);
    }
  }

  lemma OtherRun(hs: seq<Header>, i: nat, j: nat, k: nat)
    requires i < |hs| && OnlyAt(hs, i) && j < k <= |hs| && j != i
    ensures Joined(hs[j..k]) != hs[i].name
  {
    hide Joined;
  }

  /** Headers without a value are followed by no others. */
  predicate GapsAtEnd(hs: seq<Header>) {
    forall k :: 0 <= k < |hs| - 1 && hs[k].value == [] ==> hs[k + 1].value == []
  }

  lemma {:induction false} OnlyGaps(name: text, hs: seq<Header>, wanted: text)
    requires GapsAtEnd(hs) && (hs == [] || hs[0].value == [])
    ensures FirstValue(Merge(name, hs), wanted) == [] == FirstValue(hs, wanted)
    decreases |hs|
  {
    if hs != [] {
      var rest := hs[1..];
      assert forall k :: 0 <= k < |rest| ==> rest[k] == hs[k + 1];
      assert rest == [] || rest[0].value == [];
      OnlyGaps(name + hs[0].name, rest, wanted);
    }
  }

  lemma {:induction false} LookupsWhenGapsAtEnd(hs: seq<Header>, name: text)
    requires GapsAtEnd(hs)
    ensures FirstValue(Merge([], hs), name) == FirstValue(hs, name)
  {
    if hs == [] || hs[0].value == [] {
      OnlyGaps([], hs, name);
    } else {
      var rest := hs[1..];
      assert forall k :: 0 <= k < |rest| ==> rest[k] == hs[k + 1];
      LookupsWhenGapsAtEnd(rest, name);
      MergeFirst(hs);
      var all := Merge([], hs);
      assert all[0] == hs[0] && all[1..] == Merge([], rest);
    }
  }

  /** All lookups find the first value printed for their name if headers without a value come last; and, when
      no name with a value is spelt by anything else, only then. */
  lemma {:induction false} LookupsExactlyWhen(m: Method, url: text, hs: seq<Header>)
    requires forall h <- hs :: h.name != []
    ensures GapsAtEnd(hs) ==> forall name :: Meaning(m, url, hs).Header(name) == FirstValue(hs, name)
    ensures
      (forall i :: 0 <= i < |hs| && hs[i].value != [] ==> OnlyAt(hs, i)) ==>
        (GapsAtEnd(hs) <==> forall name :: Meaning(m, url, hs).Header(name) == FirstValue(hs, name))
  {
    hide Merge, Joined, OnlyAt, FirstValue, Meaning;
    forall name
      ensures Meaning(m, url, hs).Header(name) == FirstValue(Merge([], hs), name)
    {
      LookupInMeaning(m, url, hs, name);
    }
    if GapsAtEnd(hs) {
      forall name
        ensures Meaning(m, url, hs).Header(name) == FirstValue(hs, name)
      {
        LookupsWhenGapsAtEnd(hs, name);
      }
    } else {
      var k :| 0 <= k < |hs| - 1 && hs[k].value == [] && hs[k + 1].value != [];
      if OnlyAt(hs, k + 1) {
        LookupExactlyWhen(hs, k + 1);
      }
    }
  }

  lemma LookupInMeaning(m: Method, url: text, hs: seq<Header>, name: text)
    ensures Meaning(m, url, hs).Header(name) == FirstValue(Merge([], hs), name)
  {
    hide Merge, FirstValue, EmplaceAll;
    LookupIsFirst(map[], Merge([], hs), name);
  }

  /** A request with an empty header in front of another: the value of the other is not found under its name. */
  lemma {:induction false} ValueIsLost()
    ensures
      var hs, fs := [Header("A", []), Header("B", "x")], [{}, {}];
      var message := Meaning(OPTIONS, "*", hs);
      && ParseMessage(PrintRequest(OPTIONS, "*", hs, fs)) == Done(|PrintRequest(OPTIONS, "*", hs, fs)|, message)
      && FirstValue(hs, "B") == "x" && message.Header("B") == [] && message.Header("AB") == "x"
  {
    hide ParseMessage, Meaning, MethodString, AllPrintable, ValidUrl, Verdict;
    var hs, fs: Folds := [Header("A", []), Header("B", "x")], [{}, {}];
    SmallRequest(hs, fs);
    RequestRoundTrip(OPTIONS, "*", hs, fs);
    LookupInMeaning(OPTIONS, "*", hs, "B");
    LookupInMeaning(OPTIONS, "*", hs, "AB");
    assert hs[1..] == [hs[1]] && hs[1..][1..] == [];
    assert [] + hs[0].name == "A" && "A" + hs[1].name == "AB";
    assert Merge([], hs) == [Header("AB", "x")] + Merge([], []);
    assert Merge([], hs) == [Header("AB", "x")];
    assert Merge([], hs)[1..] == [];
    assert "AB" != "B" && "A" != "B";
  }

  lemma SmallRequest(hs: seq<Header>, fs: Folds)
    requires hs == [Header("A", []), Header("B", "x")] && fs == [{}, {}]
    ensures Parseable(OPTIONS) && ValidUrl(OPTIONS, "*") && AllPrintable(hs, fs) && Verdict(hs) == Absent
    ensures |PrintRequest(OPTIONS, "*", hs, fs)| <= MAX_HEADER_SIZE
  {
    hide ValidUrl, PrintHeaders, Verdict, MethodString;
    UrlIsStar();
    SmallHeaders(hs, fs);
    assert |MethodString(OPTIONS)| == 7 by {
      OptionsIsSeven();
    }
    assert |VERSION| <= 13;
    ShortNames(hs);
  }

  lemma OptionsIsSeven()
    ensures |MethodString(OPTIONS)| == 7
  {
  }

  lemma SmallHeaders(hs: seq<Header>, fs: Folds)
    requires hs == [Header("A", []), Header("B", "x")] && fs == [{}, {}]
    ensures |PrintHeaders(hs, fs)| <= 100
  {
    hide PrintHeader;
    var rest, more := hs[1..], fs[1..];
    assert rest == [hs[1]] && rest[1..] == [] && more == [fs[1]] && more[1..] == [];
    assert PrintHeaders([], []) == [] && PrintHeaders(rest, more) == PrintHeader(hs[1], {}) + [];
    assert PrintHeaders(hs, fs) == PrintHeader(hs[0], {}) + PrintHeaders(rest, more);
    SmallHeader(hs[0]);
    SmallHeader(hs[1]);
  }

  lemma SmallHeader(h: Header)
    requires |h.name| <= 1 && |h.value| <= 1
    ensures |PrintHeader(h, {})| <= 6
  {
    assert Folded([], {}) == [];
    if h.value != [] {
      assert h.value[..0] == [];
    }
  }

  lemma ShortNames(hs: seq<Header>)
    requires forall h <- hs :: |h.name| == 1
    ensures Verdict(hs) == Absent
  {
    forall h <- hs
      ensures !IsLength(h)
    {
      assert |LowerAll(h.name)| == 1;
    }
    OthersDoNotCount(Absent, hs, []);
    assert hs + [] == hs;
  }

  lemma UrlIsStar()
    ensures ValidUrl(OPTIONS, "*")
  {
    assert "*"[..0] == [];
  }

  // ---- Methods that do not round-trip ----

  /** The states after a first `R`: those of a response. */
  predicate InResponse(s: State) {
    s.ResOrRespR? || InStatusLine(s) || InHeader(s)
  }

  lemma StatusLineStays(p: Parser, ch: octet)
    requires InStatusLine(p.state)
    ensures
      var step := StepStatusLine(p, ch);
      step.p.verb == p.verb && (step.p.errno == OK ==> step.stop || InResponse(step.p.state))
  {
  }

  predicate StaysInHeader(p: Parser, step: Step) {
    step.p.verb == p.verb && (step.p.errno == OK ==> step.stop || InHeader(step.p.state))
  }

  lemma FieldStartStays(p: Parser, ch: octet)
    ensures StaysInHeader(p, StepHeaderFieldStart(p, ch)) && StaysInHeader(p, StepHeadersAlmostDone(p, ch))
  {
    hide IsToken, NewMessage, Lower;
  }

  lemma ValueStartStays(p: Parser, ch: octet)
    ensures StaysInHeader(p, StepHeaderValueStart(p, ch))
  {
    hide Lower;
  }

  lemma HeaderStays(p: Parser, ch: octet)
    requires InHeader(p.state)
    ensures StaysInHeader(p, StepHeader(p, ch))
  {
    hide FieldChar, ValueChar, IsToken, IsHeaderChar, FinishHeader, StepHeaderFieldStart, StepHeadersAlmostDone,
         StepHeaderValueStart;
    FieldCharKeeps(p, ch);
    FieldCharKeepsMore(p, ch);
    ValueCharKeeps(p, ch);
    ValueCharKeepsVerb(p, ch);
    FinishKeeps(p);
    FieldStartStays(p, ch);
    FieldStartStays(FinishHeader(p), ch);
    ValueStartStays(p, ch);
    ValueStartStays(p.(headerState := ContentLengthWs), ch);
  }

  lemma ValueCharKeepsVerb(p: Parser, ch: octet)
    ensures ValueChar(p, ch).p.verb == p.verb
  {
    hide ConnectionValueChar, TransferEncodingValueChar;
    ConnectionCharKeepsVerb(p, ch);
    TransferEncodingCharKeepsVerb(p, ch);
  }

  lemma ConnectionCharKeepsVerb(p: Parser, ch: octet)
    ensures ConnectionValueChar(p, ch).verb == p.verb
  {
    hide Match, Lower, IsToken;
  }

  lemma TransferEncodingCharKeepsVerb(p: Parser, ch: octet)
    ensures TransferEncodingValueChar(p, ch).verb == p.verb
  {
    hide Match, Lower, IsToken;
  }

  lemma ResponseStays(p: Parser, ch: octet)
    requires InResponse(p.state)
    ensures
      var step := StepState(p, ch);
      step.p.verb == p.verb && (step.p.errno == OK ==> step.stop || InResponse(step.p.state))
  {
    hide StepStatusLine, StepHeader, StepUrlState, StepRequestLine;
    if InStatusLine(p.state) {
      StatusLineStays(p, ch);
    } else if InHeader(p.state) {
      HeaderStays(p, ch);
    }
  }

  lemma {:induction false} ResponseKeepsVerb(p: Parser, nread: nat, data: text, i: nat)
    requires InResponse(p.state) && i <= |data|
    ensures Feed(p, nread, data, i).p.verb == p.verb
    decreases |data| - i
  {
    hide StepState;
    if i < |data| {
      ResponseStays(p, data[i]);
      var step := StepByte(p, nread, data[i]);
      if step.p.errno == OK && !step.stop {
        ResponseKeepsVerb(step.p, nread + 1, data, i + 1);
      }
    }
  }

  lemma RBegins(rest: text)
    ensures
      var p := Begin(INIT).(state := ResOrRespR);
      Feed(INIT, 0, ['R'] + rest, 0) == After([MessageBegin], Feed(p, 1, ['R'] + rest, 1))
  {
    hide StepStatusLine, StepHeader, StepUrlState, StepRequestLine;
    var s: text := ['R'] + rest;
    assert s[0] == 'R';
    assert StepByte(INIT, 0, 'R') == Step(Begin(INIT).(state := ResOrRespR), [MessageBegin], false);
    assert [MessageBegin] + [] == [MessageBegin];
  }

  /** Anything that begins with `R` is read as a response, for which the parser holds no method of its
      own: it reports DELETE. */
  lemma BeginsWithR(rest: text)
    ensures
      var parsed := ParseMessage(['R'] + rest);
      parsed.Done? ==> parsed.message.verb == MethodString(DELETE)
  {
    hide Feed, GatherEvents, MethodString;
    RBegins(rest);
    ResponseKeepsVerb(Begin(INIT).(state := ResOrRespR), 1, ['R'] + rest, 1);
  }

  lemma MSearchBegins()
    ensures var w := MethodString(MSEARCH); |w| > 1 && w[0] == 'M' && w[1] == ' '
  {
  }

  lemma NoSpaceYet()
    ensures StepState(Holding(MKCOL, 1), ' ') == Fail(Holding(MKCOL, 1), InvalidMethod)
  {
    hide StepStart, StepStatusLine, StepHeader, StepUrlState;
  }

  lemma MSearchFails(rest: text)
    ensures ParseMessage(MethodString(MSEARCH) + rest).Error?
  {
    hide StepState, GatherEvents, MethodString;
    var s := MethodString(MSEARCH) + rest;
    MSearchBegins();
    FirstLetter('M');
    NoSpaceYet();
    FeedStep(INIT, 0, s, 0);
    FeedStep(Holding(MKCOL, 1), 1, s, 1);
  }

  /** A request is given back with its method exactly when that method is parseable and its headers are not refused:
      for every other method no request whatever is. */
  lemma {:induction false} ParseableExactlyWhen(m: Method, url: text, hs: seq<Header>, fs: Folds)
    requires ValidUrl(m, url) && |fs| == |hs| && AllPrintable(hs, fs)
    requires |PrintRequest(m, url, hs, fs)| <= MAX_HEADER_SIZE
    ensures
      var parsed := ParseMessage(PrintRequest(m, url, hs, fs));
      (parsed.Done? && parsed.message.verb == MethodString(m)) <==> Parseable(m) && !Verdict(hs).Refused?
  {
    hide ParseMessage, MethodString, ValidUrl, AllPrintable, PrintHeaders, Verdict;
    var s := PrintRequest(m, url, hs, fs);
    if Parseable(m) {
      RequestRoundTrip(m, url, hs, fs);
    } else {
      var rest := [' '] + url + VERSION + PrintHeaders(hs, fs) + [CR, LF];
      assert s == MethodString(m) + rest;
      if m == MSEARCH {
        MSearchFails(rest);
      } else {
        NamesWithR(m);
        BeginsWithR(MethodString(m)[1..] + rest);
        assert s == ['R'] + (MethodString(m)[1..] + rest);
        DeleteIsItself(m);
      }
    }
  }

  lemma DeleteIsItself(m: Method)
    requires m == REPORT || m == REBIND
    ensures MethodString(m) != MethodString(DELETE)
  {
    assert MethodString(m)[0] != MethodString(DELETE)[0];
  }

  // ---- Streams of requests and frames ----

  datatype Item =
    | RequestItem(m: Method, url: text, hs: seq<Header>, fs: Folds)
    | FrameItem(channel: nat, payload: text)

  /** The four bytes in front of an interleaved frame: the length field keeps 16 bits of the size. */
  function FrameHeader(channel: nat, size: nat): text
    requires channel < 256
  {
    ['$', channel as char, (size / 256 % 256) as char, (size % 256) as char]
  }

  predicate Encodable(item: Item) {
    match item
    case RequestItem(m, url, hs, fs) => |fs| == |hs|
    case FrameItem(channel, payload) => channel < 256
  }

  function Encode(item: Item): text
    requires Encodable(item)
  {
    match item
    case RequestItem(m, url, hs, fs) => PrintRequest(m, url, hs, fs)
    case FrameItem(channel, payload) => FrameHeader(channel, |payload|) + payload
  }

  predicate ValidItem(item: Item) {
    match item
    case RequestItem(m, url, hs, fs) =>
      && Parseable(m) && ValidUrl(m, url) && |fs| == |hs| && AllPrintable(hs, fs) && !Verdict(hs).Refused?
      && |PrintRequest(m, url, hs, fs)| <= 80 * 1024
    case FrameItem(channel, payload) => channel < 256 && 12 <= |payload| <= 65535
  }

  /** The calls that a request is for: by its method, with its URL and the values of its headers. */
  function Calls(m: Method, url: text, hs: seq<Header>): seq<Delivery> {
    match m
    case OPTIONS => [Options(url)]
    case DESCRIBE => [Describe(url)]
    case SETUP => [Setup(url, FirstValue(hs, "Session"), FirstValue(hs, "Transport"))]
    case PLAY => [Play(url, FirstValue(hs, "Session"))]
    case TEARDOWN => [Teardown(url, FirstValue(hs, "Session"))]
    case _ => []
  }

  /** What an item is for, with the headers of a request as the callbacks tell them apart. */
  function Deliveries(item: Item): seq<Delivery> {
    match item
    case RequestItem(m, url, hs, fs) => Calls(m, url, Merge([], hs))
    case FrameItem(channel, payload) => [Interleaved(channel, payload)]
  }

  lemma FiveNames()
    ensures MethodString(OPTIONS) == "OPTIONS" && MethodString(DESCRIBE) == "DESCRIBE" && MethodString(SETUP) == "SETUP"
    ensures MethodString(PLAY) == "PLAY" && MethodString(TEARDOWN) == "TEARDOWN"
  {
  }

  lemma MeaningIs(m: Method, url: text, hs: seq<Header>)
    ensures var message := Meaning(m, url, hs); message.verb == MethodString(m) && message.url == url
  {
    hide MethodString, Merge, EmplaceAll;
  }

  /** The owner is called for what the request says. */
  lemma {:induction false} DispatchedRight(m: Method, url: text, hs: seq<Header>)
    ensures Dispatch(Meaning(m, url, hs)) == Calls(m, url, Merge([], hs))
  {
    hide MethodString, Merge, FirstValue, Meaning, RtspParser.Message.Header;
    FiveNames();
    NamesTell(m, OPTIONS);
    NamesTell(m, DESCRIBE);
    NamesTell(m, SETUP);
    NamesTell(m, PLAY);
    NamesTell(m, TEARDOWN);
    MeaningIs(m, url, hs);
    LookupInMeaning(m, url, hs, "Session");
    LookupInMeaning(m, url, hs, "Transport");
  }

  /** If headers without a value come last, the calls are those of the headers as they were printed. */
  lemma {:induction false} CallsAsPrinted(m: Method, url: text, hs: seq<Header>)
    requires GapsAtEnd(hs)
    ensures Calls(m, url, Merge([], hs)) == Calls(m, url, hs)
  {
    hide Merge, FirstValue;
    LookupsWhenGapsAtEnd(hs, "Session");
    LookupsWhenGapsAtEnd(hs, "Transport");
  }

  lemma RequestIsNext(m: Method, url: text, hs: seq<Header>, fs: Folds, tail: text)
    requires ValidItem(RequestItem(m, url, hs, fs))
    ensures
      var s := PrintRequest(m, url, hs, fs);
      s != [] && NextItem(s + tail) == Got(|s|, Calls(m, url, Merge([], hs)))
  {
    hide ParseMessage, MethodString, ValidUrl, AllPrintable, PrintHeaders, Dispatch, Meaning, Verdict, Calls;
    var s := PrintRequest(m, url, hs, fs);
    ParseableStart(m);
    assert s[0] == MethodString(m)[0];
    RequestRoundTrip(m, url, hs, fs);
    NextItemStands(s, tail);
    DispatchedRight(m, url, hs);
  }

  lemma ParseableStart(m: Method)
    requires Parseable(m)
    ensures MethodString(m) != [] && MethodString(m)[0] != '$'
  {
    hide MethodString;
    GuessIsFirst(m);
  }

  lemma FrameIsNext(channel: nat, payload: text, tail: text)
    requires channel < 256 && 12 <= |payload| <= 65535
    ensures NextItem(FrameHeader(channel, |payload|) + payload + tail) == Got(|payload| + 4, [Interleaved(channel, payload)])
  {
    hide FrameHeader, NextMessage;
    HeaderBytes(channel, |payload|);
    var s := FrameHeader(channel, |payload|) + payload + tail;
    assert s[0] == '$' && s[2] as int * 256 + s[3] as int == |payload|;
    assert s[4..4 + |payload|] == payload;
  }

  function EncodeAll(items: seq<Item>): text
    requires forall item <- items :: ValidItem(item)
  {
    if items == [] then []
    else
      assert ValidItem(items[0]);
      Encode(items[0]) + EncodeAll(items[1..])
  }

  function DeliverAll(items: seq<Item>): seq<Delivery> {
    if items == [] then [] else Deliveries(items[0]) + DeliverAll(items[1..])
  }

  /** What the items are for as they were printed. */
  function PrintedAll(items: seq<Item>): seq<Delivery> {
    if items == [] then []
    else
      (match items[0]
       case RequestItem(m, url, hs, fs) => Calls(m, url, hs)
       case FrameItem(channel, payload) => [Interleaved(channel, payload)])
      + PrintedAll(items[1..])
  }

  predicate GapsAtEnds(items: seq<Item>) {
    forall item <- items :: item.RequestItem? ==> GapsAtEnd(item.hs)
  }

  lemma {:induction false} DeliveredAsPrinted(items: seq<Item>)
    requires GapsAtEnds(items)
    ensures DeliverAll(items) == PrintedAll(items)
  {
    hide Calls, Merge, GapsAtEnd;
    if items != [] {
      assert items[0] in items && forall item <- items[1..] :: item in items;
      if items[0].RequestItem? {
        CallsAsPrinted(items[0].m, items[0].url, items[0].hs);
      }
      DeliveredAsPrinted(items[1..]);
    }
  }

  /** Framing a stream of requests and interleaved frames gives back each of them, once and in order; if in every
      request headers without a value come last, with the values that were printed. */
  lemma {:induction false} StreamRoundTrip(items: seq<Item>)
    requires forall item <- items :: ValidItem(item)
    ensures Frames(EncodeAll(items)) == Framing(DeliverAll(items), [], false)
    ensures GapsAtEnds(items) ==> DeliverAll(items) == PrintedAll(items)
  {
    hide NextItem, Calls, Merge, PrintRequest, FrameHeader, Verdict, GapsAtEnds;
    if GapsAtEnds(items) {
      DeliveredAsPrinted(items);
    }
    if items != [] {
      assert ValidItem(items[0]);
      var s, tail := Encode(items[0]), EncodeAll(items[1..]);
      match items[0] {
        case RequestItem(m, url, hs, fs) => RequestIsNext(m, url, hs, fs, tail);
        case FrameItem(channel, payload) => FrameIsNext(channel, payload, tail);
      }
      assert |s| > 0 && NextItem(s + tail) == Got(|s|, Deliveries(items[0])) by {
        FrameHeaderIsFour(items[0]);
      }
      FramesFirst(s + tail);
      assert (s + tail)[|s|..] == tail;
      StreamRoundTrip(items[1..]);
    }
  }

  /** A request whose headers are refused ends the stream: what stands before it is given back, and nothing after. */
  lemma {:induction false} RefusedRequestEnds(items: seq<Item>, m: Method, url: text, hs: seq<Header>, fs: Folds, tail: text)
    requires forall item <- items :: ValidItem(item)
    requires Parseable(m) && ValidUrl(m, url) && |fs| == |hs| && AllPrintable(hs, fs) && Verdict(hs).Refused?
    requires |PrintRequest(m, url, hs, fs)| <= MAX_HEADER_SIZE
    ensures
      var rest := PrintRequest(m, url, hs, fs) + tail;
      Frames(EncodeAll(items) + rest) == Framing(DeliverAll(items), rest, true)
  {
    hide NextItem, PrintHeaders, Verdict, ParseMessage, MethodString, ValidUrl, AllPrintable, Frames, EncodeAll, DeliverAll;
    var s := PrintRequest(m, url, hs, fs);
    StreamRoundTrip(items);
    FramesAppend(EncodeAll(items), s + tail);
    assert [] + (s + tail) == s + tail;
    ParseableStart(m);
    assert s[0] == MethodString(m)[0];
    RequestRoundTrip(m, url, hs, fs);
    BadRequest(s);
    NextItemStands(s, tail);
    FramesFirst(s + tail);
    assert DeliverAll(items) + [] == DeliverAll(items);
  }

  lemma BadRequest(s: text)
    requires s != [] && s[0] != '$' && ParseMessage(s).Error?
    ensures NextItem(s).Bad?
  {
    hide ParseMessage;
  }

  lemma FrameHeaderIsFour(item: Item)
    requires Encodable(item)
    ensures item.FrameItem? ==> |Encode(item)| == |item.payload| + 4
  {
  }

  /** A single frame is given back exactly when its size is one the format allows. */
  lemma {:induction false} FrameExactlyWhen(channel: nat, payload: text)
    requires channel < 256
    ensures Frames(Encode(FrameItem(channel, payload))) == Framing([Interleaved(channel, payload)], [], false)
       <==> 12 <= |payload| <= 65535
  {
    hide Encode, Frames, NextItem;
    var s := Encode(FrameItem(channel, payload));
    FrameBytes(channel, payload);
    FramesFirst(s);
    if 12 <= |payload| <= 65535 {
      FrameIsNext(channel, payload, []);
      assert s[|s|..] == [];
      NothingLeft();
    } else {
      OtherFrame(channel, payload);
      if NextItem(s).Got? {
        assert Frames(s).deliveries[0] == NextItem(s).deliveries[0];
      }
    }
  }

  lemma HeaderBytes(channel: nat, size: nat)
    requires channel < 256
    ensures
      var h := FrameHeader(channel, size);
      |h| == 4 && h[0] == '$' && h[1] as int == channel && h[2] as int * 256 + h[3] as int == size % 65536
  {
  }

  lemma FrameBytes(channel: nat, payload: text)
    requires channel < 256
    ensures
      var s := Encode(FrameItem(channel, payload));
      && s == FrameHeader(channel, |payload|) + payload && |s| == |payload| + 4
      && s == FrameHeader(channel, |payload|) + payload + []
      && s[0] == '$' && s[1] as int == channel && s[2] as int * 256 + s[3] as int == |payload| % 65536
  {
    hide FrameHeader;
    HeaderBytes(channel, |payload|);
  }

  /** A frame of another size is given back cut short, or not at all. */
  lemma OtherFrame(channel: nat, payload: text)
    requires channel < 256 && !(12 <= |payload| <= 65535)
    ensures
      var next := NextItem(Encode(FrameItem(channel, payload)));
      next.Got? ==>
        |next.deliveries| == 1 && next.deliveries[0].Interleaved? && |next.deliveries[0].payload| < |payload|
  {
    hide Encode, ParseMessage;
    FrameBytes(channel, payload);
  }

  /** The read loop of a connection: whatever reads the stream arrives in, the owner is called exactly
      for the requests and frames that were written, in order. */
  method ReceiveAll(ghost items: seq<Item>, parts: seq<text>) returns (delivered: seq<Delivery>)
    requires forall item <- items :: ValidItem(item)
    requires Flatten(parts) == EncodeAll(items)
    ensures delivered == DeliverAll(items)
    ensures GapsAtEnds(items) ==> delivered == PrintedAll(items)
  {
    hide Frames, Encode, ValidItem, GapsAtEnds;
    var context := new ServerContext();
    var k := 0;
    while k < |parts|
      invariant k <= |parts| && context.Valid() && context.stream == Flatten(parts[..k])
      invariant fresh(context) && fresh(context.parser) && fresh(context.parser.parsing)
    {
      var _ := context.Input(parts[k]);
      assert parts[..k + 1][..k] == parts[..k];
      k := k + 1;
    }
    assert parts[..k] == parts;
    StreamRoundTrip(items);
    delivered := context.delivered;
  }
}
