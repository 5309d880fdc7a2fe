/**
  Requests written out and parsed back. The parts of a request are read one after the other by the
  automaton, each leaving it where the next part begins.
 */
module RtspPrinting {
  import opened HttpParser
  import opened HttpExecute
  import opened RtspParser
  import opened MethodNames

  // ---- Reading a piece of input ----

  /** Within the header limit, the automaton reads all of `s` without error or completing a message. */
  ghost predicate Reads(p: Parser, s: text, q: Parser, es: seq<Event>) {
    && p.errno == OK
    && q.errno == OK
    && forall n: nat :: n + |s| <= MAX_HEADER_SIZE ==> Feed(p, n, s, 0) == Outcome(q, n + |s|, es, |s|, false)
  }

  lemma ReadsNothing(p: Parser)
    requires p.errno == OK
    ensures Reads(p, [], p, [])
  {
  }

  lemma ReadsThen(p: Parser, a: text, q: Parser, es: seq<Event>, b: text, r: Parser, fs: seq<Event>)
    requires Reads(p, a, q, es) && Reads(q, b, r, fs)
    ensures Reads(p, a + b, r, es + fs)
  {
    hide Feed;
    forall n: nat | n + |a + b| <= MAX_HEADER_SIZE
      ensures Feed(p, n, a + b, 0) == Outcome(r, n + |a + b|, es + fs, |a + b|, false)
    {
      Segmentation(p, n, a, b);
    }
  }

  lemma ReadsNoticed(p: Parser, ch: octet, q: Parser, notices: seq<Event>)
    requires p.errno == OK && q.errno == OK && StepState(p, ch) == Step(q, notices, false)
    ensures Reads(p, [ch], q, notices + DataEvent(q.state, ch))
  {
    hide StepState, KindOf;
    forall n: nat | n + 1 <= MAX_HEADER_SIZE
      ensures Feed(p, n, [ch], 0) == Outcome(q, n + 1, notices + DataEvent(q.state, ch), 1, false)
    {
      assert Feed(q, n + 1, [ch], 1) == Outcome(q, n + 1, [], 1, false);
      assert notices + DataEvent(q.state, ch) + [] == notices + DataEvent(q.state, ch);
    }
  }

  lemma ReadsByte(p: Parser, ch: octet, q: Parser)
    requires p.errno == OK && q.errno == OK && StepState(p, ch) == Step(q, [], false)
    ensures Reads(p, [ch], q, DataEvent(q.state, ch))
  {
    hide StepState, KindOf, Reads;
    ReadsNoticed(p, ch, q, []);
    assert [] + DataEvent(q.state, ch) == DataEvent(q.state, ch);
  }

  /** A byte outside data adds nothing to what is gathered. */
  lemma ReadsThenQuietly(p: Parser, a: text, q: Parser, es: seq<Event>, ch: octet, r: Parser)
    requires Reads(p, a, q, es) && r.errno == OK && StepState(q, ch) == Step(r, [], false) && KindOf(r.state) == NoData
    ensures Reads(p, a + [ch], r, es)
  {
    hide StepState, KindOf, Reads;
    assert q.errno == OK by { ReadsIsFine(p, a, q, es); }
    ReadsByte(q, ch, r);
    ReadsThen(p, a, q, es, [ch], r, []);
    assert es + [] == es;
  }

  lemma ReadsIsFine(p: Parser, s: text, q: Parser, es: seq<Event>)
    requires Reads(p, s, q, es)
    ensures p.errno == q.errno == OK
  {
  }

  /** Within the header limit, the automaton fails with error `e` somewhere in `s`. */
  ghost predicate Fails(p: Parser, s: text, e: Errno) {
    && p.errno == OK
    && e != OK
    && forall n: nat :: n + |s| <= MAX_HEADER_SIZE ==> Feed(p, n, s, 0).p.errno == e
  }

  lemma FailsAtByte(p: Parser, ch: octet, e: Errno)
    requires p.errno == OK && e != OK && StepState(p, ch).p.errno == e
    ensures Fails(p, [ch], e)
  {
    hide StepState;
  }

  lemma ReadsThenFails(p: Parser, a: text, q: Parser, es: seq<Event>, b: text, e: Errno)
    requires Reads(p, a, q, es) && Fails(q, b, e)
    ensures Fails(p, a + b, e)
  {
    hide Feed;
    forall n: nat | n + |a + b| <= MAX_HEADER_SIZE
      ensures Feed(p, n, a + b, 0).p.errno == e
    {
      Segmentation(p, n, a, b);
    }
  }

  lemma FailsWithMore(p: Parser, a: text, e: Errno, b: text)
    requires Fails(p, a, e)
    ensures Fails(p, a + b, e)
  {
    hide Feed;
    forall n: nat | n + |a + b| <= MAX_HEADER_SIZE
      ensures Feed(p, n, a + b, 0).p.errno == e
    {
      Segmentation(p, n, a, b);
      assert n + |a| <= MAX_HEADER_SIZE;
    }
  }

  // ---- The URL ----

  function UrlStart(m: Method): State {
    if m == CONNECT then ReqServerStart else ReqSpacesBeforeUrl
  }

  predicate ValidUrl(m: Method, url: text) {
    MayEndUrl(UrlState(UrlStart(m), url))
  }

  lemma UrlFirstByte(p: Parser, ch: octet)
    requires p.state == ReqSpacesBeforeUrl
    ensures
      var s := ParseUrlChar(UrlStart(p.verb), ch);
      s != Dead ==> StepState(p, ch) == Step(p.(state := s), [], false)
  {
    hide StepStart, StepStatusLine, StepHeader, StepReqMethod, IsUrlChar, IsUserinfoChar, IsAlpha, ParseServerChar;
  }

  lemma UrlNextByte(p: Parser, ch: octet)
    requires InUrl(p.state)
    ensures
      var s := ParseUrlChar(p.state, ch);
      s != Dead ==> StepState(p, ch) == Step(p.(state := s), [], false)
  {
    hide StepStart, StepStatusLine, StepHeader, StepRequestLine, IsUrlChar, IsUserinfoChar, IsAlpha, ParseServerChar,
         ParseQueryChar;
  }

  /** Every byte of a valid URL is reported as URL data. */
  lemma {:induction false} ReadUrl(p: Parser, url: text)
    requires p.errno == OK && p.state == ReqSpacesBeforeUrl
    requires UrlState(UrlStart(p.verb), url) != Dead && url != []
    ensures InUrl(UrlState(UrlStart(p.verb), url))
    ensures Reads(p, url, p.(state := UrlState(UrlStart(p.verb), url)), AllData(UrlData, url))
  {
    hide StepState, ParseUrlChar, Reads, AllData, InUrl;
    var k := |url| - 1;
    var before := UrlState(UrlStart(p.verb), url[..k]);
    var q := p.(state := before);
    var q' := p.(state := UrlState(UrlStart(p.verb), url));
    DeadStaysDead(before, url[k]);
    UrlCharKind(before, url[k]);
    UrlKind(q'.state);
    assert url[..k] + [url[k]] == url;
    AllDataAppend(UrlData, url, 0, k, k + 1);
    AllDataOne(UrlData, url, k);
    assert url[0..k] == url[..k] && url[0..k + 1] == url;
    if k == 0 {
      UrlFirstByte(p, url[0]);
      ReadsByte(p, url[0], q');
      NoDataYet(UrlData, url[..0]);
      assert url == [url[0]];
      assert [] + [Data(UrlData, url[0])] == [Data(UrlData, url[0])];
    } else {
      ReadUrl(p, url[..k]);
      UrlNextByte(q, url[k]);
      ReadsByte(q, url[k], q');
      ReadsThen(p, url[..k], q, AllData(UrlData, url[..k]), [url[k]], q', [Data(UrlData, url[k])]);
    }
  }

  lemma UrlCharKind(s: State, ch: octet)
    ensures ParseUrlChar(s, ch) == Dead || InUrl(ParseUrlChar(s, ch))
  {
    hide IsUrlChar, IsUserinfoChar, IsAlpha;
  }

  lemma DeadStaysDead(s: State, ch: octet)
    ensures s == Dead ==> ParseUrlChar(s, ch) == Dead
  {
  }

  lemma UrlKind(s: State)
    ensures InUrl(s) ==> KindOf(s) == UrlData
  {
  }

  lemma NoDataYet(kind: Kind, s: text)
    requires s == []
    ensures AllData(kind, s) == []
  {
  }

  // ---- The protocol version ----

  const VERSION: text := " RTSP/1.0\r\n"

  /** The parser after `k` bytes of `VERSION`, which follows a URL. */
  function AfterVersion(p: Parser, k: nat): Parser
    requires k <= |VERSION|
  {
    match k
    case 0 => p
    case 1 => p.(state := ReqHttpStart)
    case 2 => p.(state := ReqHttpR)
    case 3 => p.(state := ReqHttpRT)
    case 4 => p.(state := ReqHttpRTS)
    case 5 => p.(state := ReqHttpRTSP)
    case 6 => p.(state := ReqHttpMajor)
    case 7 => p.(state := ReqHttpDot, httpMajor := 1)
    case 8 => p.(state := ReqHttpMinor, httpMajor := 1)
    case 9 => p.(state := ReqHttpEnd, httpMajor := 1, httpMinor := 0)
    case 10 => p.(state := ReqLineAlmostDone, httpMajor := 1, httpMinor := 0)
    case _ => p.(state := HeaderFieldStart, httpMajor := 1, httpMinor := 0)
  }

  lemma VersionStep(p: Parser, k: nat)
    requires k < |VERSION|
    requires
      match k
      case 0 => MayEndUrl(p.state)
      case 1 => p.state == ReqHttpStart
      case 2 => p.state == ReqHttpR
      case 3 => p.state == ReqHttpRT
      case 4 => p.state == ReqHttpRTS
      case 5 => p.state == ReqHttpRTSP
      case 6 => p.state == ReqHttpMajor
      case 7 => p.state == ReqHttpDot
      case 8 => p.state == ReqHttpMinor
      case 9 => p.state == ReqHttpEnd
      case _ => p.state == ReqLineAlmostDone
    ensures
      StepState(p, VERSION[k]) == Step(
        match k
        case 0 => p.(state := ReqHttpStart)
        case 1 => p.(state := ReqHttpR)
        case 2 => p.(state := ReqHttpRT)
        case 3 => p.(state := ReqHttpRTS)
        case 4 => p.(state := ReqHttpRTSP)
        case 5 => p.(state := ReqHttpMajor)
        case 6 => p.(state := ReqHttpDot, httpMajor := 1)
        case 7 => p.(state := ReqHttpMinor)
        case 8 => p.(state := ReqHttpEnd, httpMinor := 0)
        case 9 => p.(state := ReqLineAlmostDone)
        case _ => p.(state := HeaderFieldStart),
        [], false)
  {
    hide StepStart, StepStatusLine, StepHeader, StepReqMethod, StepStartReq, ParseUrlChar;
  }

  lemma VersionByte(p: Parser, k: nat)
    requires k < |VERSION| && MayEndUrl(p.state)
    ensures StepState(AfterVersion(p, k), VERSION[k]) == Step(AfterVersion(p, k + 1), [], false)
  {
    hide StepState, KindOf;
    VersionStep(AfterVersion(p, k), k);
  }

  lemma VersionIsQuiet(p: Parser, k: nat)
    requires k < |VERSION|
    ensures KindOf(AfterVersion(p, k + 1).state) == NoData && AfterVersion(p, k + 1).errno == p.errno
  {
  }

  lemma {:induction false} ReadVersion(p: Parser, k: nat)
    requires k <= |VERSION| && MayEndUrl(p.state) && p.errno == OK
    ensures Reads(p, VERSION[..k], AfterVersion(p, k), [])
  {
    hide StepState, Reads, AfterVersion, KindOf;
    if k == 0 {
      ReadsNothing(p);
      VersionStart(p);
      assert VERSION[..0] == [];
    } else {
      ReadVersion(p, k - 1);
      VersionByte(p, k - 1);
      VersionIsQuiet(p, k - 1);
      ReadsThenQuietly(p, VERSION[..k - 1], AfterVersion(p, k - 1), [], VERSION[k - 1], AfterVersion(p, k));
      assert VERSION[..k - 1] + [VERSION[k - 1]] == VERSION[..k];
    }
  }

  lemma VersionStart(p: Parser)
    ensures AfterVersion(p, 0) == p
  {
  }

  // ---- The method ----

  /** The parser that holds method `m` after `i` letters of a message's first word. */
  function Holding(m: Method, i: nat): Parser {
    INIT.(typ := Request, flags := NO_FLAGS, contentLength := ULLONG_MAX, verb := m, index := i, state := ReqMethod)
  }

  lemma FirstLetter(ch: octet)
    requires IsFirstLetter(ch) && ch != 'H' && ch != 'R'
    ensures StepState(INIT, ch) == Step(Holding(FirstMethod(ch), 1), [MessageBegin], false)
  {
    hide FirstMethod, StepStatusLine, StepHeader, StepRequestLine, StepUrlState;
  }

  lemma InMethod(p: Parser, ch: octet)
    requires p.state == ReqMethod
    ensures StepState(p, ch) == StepReqMethod(p, ch)
  {
    hide StepReqMethod, StepStart, StepStatusLine, StepHeader, StepUrlState;
  }

  lemma NextLetter(m: Method, w: text, i: nat) returns (m': Method)
    requires 0 < i < |w| && w[i] != '\0' && w[i] != ' ' && Recognise(m, w, i).Switch?
    ensures StepState(Holding(m, i), w[i]) == Step(Holding(m', i + 1), [], false)
    ensures Recognise(m', w, i + 1) == Recognise(m, w, i)
  {
    hide MethodString, SwitchMethod, StepState;
    InMethod(Holding(m, i), w[i]);
    SwitchesAtLetters(m, i, w[i]);
    m' := if i < |MethodString(m)| && w[i] == MethodString(m)[i] then m else SwitchMethod(m, i, w[i]).verb;
  }

  /** The letters of a name make the parser hold the method they name. */
  lemma {:induction false} ReadLetters(m: Method, w: text, i: nat, whole: Method)
    requires 0 < i <= |w| && Recognise(m, w, i) == Switch(whole)
    requires forall k :: 0 <= k < |w| ==> w[k] != '\0' && w[k] != ' '
    ensures Reads(Holding(m, i), w[i..], Holding(whole, |w|), [])
    decreases |w| - i
  {
    hide Reads, StepState, Recognise;
    if i == |w| {
      LastLetter(m, w);
      ReadsNothing(Holding(m, i));
      assert w[i..] == [];
    } else {
      var m' := NextLetter(m, w, i);
      ReadLetters(m', w, i + 1, whole);
      ReadsByte(Holding(m, i), w[i], Holding(m', i + 1));
      ReadsThen(Holding(m, i), [w[i]], Holding(m', i + 1), [], w[i + 1..], Holding(whole, |w|), []);
      assert [w[i]] + w[i + 1..] == w[i..];
      NoEvents([], []);
    }
  }

  lemma LastLetter(m: Method, w: text)
    requires w != []
    ensures Recognise(m, w, |w|) == Switch(m)
  {
  }

  lemma NoEvents(a: seq<Event>, b: seq<Event>)
    requires a == b == []
    ensures a + b == []
  {
  }

  /** The first methods whose names begin like that of a response, and the name with spaces. */
  predicate Parseable(m: Method) {
    m != MSEARCH && m != REPORT && m != REBIND
  }

  lemma HoldingIsFine(m: Method, i: nat, ch: octet)
    ensures Holding(m, i).errno == OK && DataEvent(Holding(m, i).state, ch) == []
  {
  }

  lemma {:induction false} ReadName(m: Method)
    requires Parseable(m) && m != HEAD
    ensures MethodString(m) != []
    ensures Reads(INIT, MethodString(m), Holding(m, |MethodString(m)|), [MessageBegin])
  {
    hide *;
    var w := MethodString(m);
    ParseableName(m);
    GuessIsFirst(m);
    FirstLetter(w[0]);
    HoldingIsFine(Guess(m), 1, w[0]);
    NoticeOnly(DataEvent(Holding(Guess(m), 1).state, w[0]));
    ReadsNoticed(INIT, w[0], Holding(Guess(m), 1), [MessageBegin]);
    ReadLetters(Guess(m), w, 1, m);
    ReadsThen(INIT, [w[0]], Holding(Guess(m), 1), [MessageBegin], w[1..], Holding(m, |w|), []);
    NoticeOnly([]);
    assert [w[0]] + w[1..] == w;
  }

  lemma NoticeOnly(es: seq<Event>)
    ensures es == [] ==> [MessageBegin] + es == [MessageBegin]
    ensures INIT.errno == OK
  {
  }

  lemma ParseableName(m: Method)
    requires Parseable(m)
    ensures m != MSEARCH && MethodString(m) != []
    ensures MethodString(m)[0] != 'R' && (m != HEAD ==> MethodString(m)[0] != 'H')
    ensures forall k :: 0 <= k < |MethodString(m)| ==> MethodString(m)[k] != '\0' && MethodString(m)[k] != ' '
    ensures Recognise(Guess(m), MethodString(m), 1) == Switch(m)
  {
    hide MethodString, Recognise;
    NamesWithR(m);
    NamesWithH(m);
    NamesAreWords(m);
    NamesAreRecognised(m);
  }

  /** HEAD begins like the status line of a response. */
  lemma ReadHead()
    ensures Reads(INIT, "HEAD", Holding(HEAD, 4), [MessageBegin])
  {
    var h := Begin(INIT).(state := ResOrRespH);
    HeadBegins(h);
    hide StepState, Reads, Recognise, KindOf;
    ReadsNoticed(INIT, 'H', h, [MessageBegin]);
    ReadsByte(h, 'E', Holding(HEAD, 2));
    ReadsThen(INIT, ['H'], h, [MessageBegin], ['E'], Holding(HEAD, 2), []);
    Agree(HEAD, "HEAD", 2, 4);
    WholeName(HEAD);
    ReadLetters(HEAD, "HEAD", 2, HEAD);
    ReadsThen(INIT, ['H'] + ['E'], Holding(HEAD, 2), [MessageBegin], "HEAD"[2..], Holding(HEAD, 4), []);
    assert ['H'] + ['E'] + "HEAD"[2..] == "HEAD";
    NoticeOnly([]);
  }

  lemma HeadBegins(h: Parser)
    requires h == Begin(INIT).(state := ResOrRespH)
    ensures StepState(INIT, 'H') == Step(h, [MessageBegin], false)
    ensures StepState(h, 'E') == Step(Holding(HEAD, 2), [], false)
    ensures KindOf(h.state) == NoData && KindOf(Holding(HEAD, 2).state) == NoData
  {
    hide StepStatusLine, StepHeader, StepRequestLine, StepUrlState;
  }

  /** The word of a parseable method and the space after it. */
  lemma ReadMethod(m: Method)
    requires Parseable(m)
    ensures Reads(INIT, MethodString(m) + [' '], AfterMethod(m), [MessageBegin])
  {
    hide StepState, Reads, MethodString, Holding;
    var w := MethodString(m);
    if m == HEAD {
      ReadHead();
      assert w == "HEAD" by {
        HeadName();
      }
    } else {
      ReadName(m);
    }
    MethodEnds(m);
    ReadsThenQuietly(INIT, w, Holding(m, |w|), [MessageBegin], ' ', AfterMethod(m));
  }

  lemma HeadName()
    ensures MethodString(HEAD) == "HEAD"
  {
  }

  function AfterMethod(m: Method): Parser {
    Holding(m, |MethodString(m)| + 1).(state := ReqSpacesBeforeUrl)
  }

  lemma MethodEnds(m: Method)
    ensures StepState(Holding(m, |MethodString(m)|), ' ') == Step(AfterMethod(m), [], false)
    ensures AfterMethod(m).errno == OK && KindOf(AfterMethod(m).state) == NoData
  {
    hide MethodString, StepState;
    InMethod(Holding(m, |MethodString(m)|), ' ');
  }
}
