/**
  The number in a content-length header, over all runs of the parser: however the header is cut into
  buffers, folded or repeated, the number kept is the value of the digits read.
 */
module ContentLengths {
  import opened HttpParser
  import opened Decimals

  /** The largest number that another digit may follow. */
  const LIMIT: nat := (ULLONG_MAX - 10) / 10

  /** The digits of the content length read so far, after one more byte. */
  function DigitsAfter(digits: text, p: Parser, ch: octet): text {
    var step := StepState(p, ch);
    if MessageBegin in step.notices then []
    else if step.p.state == HeaderValue && step.p.headerState == ContentLengthNum then
      (if p.state == HeaderValue then digits else []) + [ch]
    else digits
  }

  /** The digits read by a run, `Feed`, after the digits read before. */
  function DigitsRead(digits: text, p: Parser, nread: nat, data: text, i: nat): text
    requires i <= |data|
    decreases |data| - i
  {
    if i == |data| || StepByte(p, nread, data[i]).p.errno != OK then digits
    else
      var step, digits' := StepByte(p, nread, data[i]), DigitsAfter(digits, p, data[i]);
      if step.stop then digits' else DigitsRead(digits', step.p, nread + 1, data, i + 1)
  }

  /** No message has begun. */
  predicate Idle(s: State) {
    s.Dead? || s.StartReqOrRes? || s.StartRes? || s.StartReq?
  }

  /** A header name is being read, or what separates it from its value. */
  predicate InName(s: State) {
    s.HeaderField? || s.HeaderValueDiscardWs? || s.HeaderValueDiscardWsAlmostDone? || s.HeaderValueDiscardLws?
  }

  predicate InValue(s: State) {
    s.HeaderValueStart? || s.HeaderValue? || s.HeaderValueLws? || s.HeaderAlmostDone?
  }

  predicate Counting(h: HeaderState) {
    h == ContentLengthNum || h == ContentLengthWs
  }

  /** The number kept is the value of the digits read: it has not wrapped and is not the number that stands
      for no length; before any digit it is that one. */
  predicate Exact(p: Parser, digits: text) {
    && AllDigits(digits)
    && (p.flags.contentLength <==> digits != [])
    && (digits != [] ==> p.contentLength == Decimal(digits) < ULLONG_MAX)
    && (digits == [] && !Idle(p.state) ==> p.contentLength == ULLONG_MAX)
  }

  /** What the state of the parser says about the header being read. */
  predicate Proper(p: Parser) {
    && (InName(p.state) ==> !Counting(p.headerState))
    && (InValue(p.state) && Counting(p.headerState) ==> p.flags.contentLength)
    && (InValue(p.state) ==> p.headerState != ContentLength)
  }

  // ---- One byte keeps the number exact ----

  /** A step that leaves the number alone. */
  predicate Keeps(p: Parser, step: Step) {
    && step.p.flags.contentLength == p.flags.contentLength && step.p.contentLength == p.contentLength
    && MessageBegin !in step.notices
  }

  /** Not within a header. */
  predicate Outside(s: State) {
    !InName(s) && !InValue(s)
  }

  predicate Begins(step: Step) {
    !step.p.flags.contentLength && step.p.contentLength == ULLONG_MAX && MessageBegin in step.notices
  }

  /** What a step outside of the headers does. */
  predicate Aside(p: Parser, step: Step) {
    step.p.errno == OK ==>
      Outside(step.p.state) && (Begins(step) || (Keeps(p, step) && (Idle(p.state) ==> Idle(step.p.state))))
  }

  lemma StartSteps(p: Parser, ch: octet)
    requires InStart(p.state)
    ensures Aside(p, StepStart(p, ch))
  {
    hide FirstMethod;
  }

  lemma ResponseStarts(p: Parser, ch: octet)
    requires Outside(p.state) && Idle(p.state)
    ensures Aside(p, StepStartRes(p, ch)) && Aside(p, StepStartReq(p, ch))
  {
    hide FirstMethod;
  }

  lemma VersionSteps(p: Parser, ch: octet)
    requires InStatusLine(p.state) && !p.state.StartRes?
    requires
      || p.state.ResH? || p.state.ResHT? || p.state.ResHTT? || p.state.ResHTTP? || p.state.ResR? || p.state.ResRT?
      || p.state.ResRTS? || p.state.ResRTSP? || p.state.ResHttpMajor? || p.state.ResHttpDot? || p.state.ResHttpMinor?
    ensures Aside(p, StepStatusLine(p, ch))
  {
    hide StepStatus, StepStartRes;
  }

  lemma StatusSteps(p: Parser, ch: octet)
    requires
      || p.state.ResHttpEnd? || p.state.ResFirstStatusCode? || p.state.ResStatusCode? || p.state.ResStatusStart?
      || p.state.ResStatus? || p.state.ResLineAlmostDone?
    ensures Aside(p, StepStatusLine(p, ch))
  {
    hide StepStartRes;
  }

  lemma UrlSteps(p: Parser, ch: octet)
    requires InUrl(p.state) || p.state.ReqSpacesBeforeUrl?
    ensures Aside(p, StepUrl(p, ch))
    ensures InUrl(p.state) ==> Aside(p, StepUrlState(p, ch))
  {
    hide MayEndUrl, StepUrl;
    UrlCharSteps(p, ch);
  }

  lemma UrlCharSteps(p: Parser, ch: octet)
    requires InUrl(p.state) || p.state.ReqSpacesBeforeUrl?
    ensures Aside(p, StepUrl(p, ch))
  {
    hide ParseUrlChar;
    ParsedUrlState(p.state, ch);
  }

  lemma ParsedUrlState(s: State, ch: octet)
    ensures var s' := ParseUrlChar(s, ch); s' == Dead || InUrl(s')
  {
    hide IsUrlChar, IsUserinfoChar, IsAlpha;
  }

  lemma MethodSteps(p: Parser, ch: octet)
    requires p.state.ReqMethod?
    ensures Aside(p, StepReqMethod(p, ch))
  {
    hide MethodString, SwitchMethod;
  }

  lemma TargetSteps(p: Parser, ch: octet)
    requires p.state.StartReq? || p.state.ReqMethod? || p.state.ReqSpacesBeforeUrl?
    ensures Aside(p, StepRequestLine(p, ch))
  {
    hide StepReqMethod, StepStartReq, StepUrl;
    if p.state.StartReq? {
      ResponseStarts(p, ch);
    } else if p.state.ReqMethod? {
      MethodSteps(p, ch);
    } else {
      UrlSteps(p, ch);
      UrlSteps(p.(state := ReqServerStart), ch);
    }
  }

  lemma ProtocolSteps(p: Parser, ch: octet)
    requires
      || p.state.ReqHttpStart? || p.state.ReqHttpH? || p.state.ReqHttpHT? || p.state.ReqHttpHTT? || p.state.ReqHttpR?
      || p.state.ReqHttpRT? || p.state.ReqHttpRTS? || p.state.ReqHttpI? || p.state.ReqHttpIC?
    ensures Aside(p, StepRequestLine(p, ch))
  {
    hide StepReqMethod, StepStartReq, StepUrl;
  }

  lemma RequestVersionSteps(p: Parser, ch: octet)
    requires
      || p.state.ReqHttpHTTP? || p.state.ReqHttpRTSP? || p.state.ReqHttpMajor? || p.state.ReqHttpDot?
      || p.state.ReqHttpMinor? || p.state.ReqHttpEnd? || p.state.ReqLineAlmostDone?
    ensures Aside(p, StepRequestLine(p, ch))
  {
    hide StepReqMethod, StepStartReq, StepUrl;
  }

  lemma OutsideSteps(p: Parser, ch: octet)
    requires !InHeader(p.state)
    ensures Aside(p, StepState(p, ch))
  {
    hide StepStart, StepStatusLine, StepUrlState, StepRequestLine, Aside;
    var s := p.state;
    if InStart(s) {
      StartSteps(p, ch);
    } else if InUrl(s) {
      UrlSteps(p, ch);
    } else if s.StartRes? {
      ResponseStarts(p, ch);
      StartResStep(p, ch);
    } else if
      || s.ResHttpEnd? || s.ResFirstStatusCode? || s.ResStatusCode? || s.ResStatusStart? || s.ResStatus?
      || s.ResLineAlmostDone?
    {
      StatusSteps(p, ch);
    } else if InStatusLine(s) {
      VersionSteps(p, ch);
    } else if s.StartReq? || s.ReqMethod? || s.ReqSpacesBeforeUrl? {
      TargetSteps(p, ch);
    } else if
      || s.ReqHttpHTTP? || s.ReqHttpRTSP? || s.ReqHttpMajor? || s.ReqHttpDot? || s.ReqHttpMinor? || s.ReqHttpEnd?
      || s.ReqLineAlmostDone?
    {
      RequestVersionSteps(p, ch);
    } else {
      ProtocolSteps(p, ch);
    }
  }

  lemma StartResStep(p: Parser, ch: octet)
    requires p.state.StartRes?
    ensures StepStatusLine(p, ch) == StepStartRes(p, ch)
  {
    hide StepStartRes;
  }

  // ---- Within the headers ----

  lemma FieldCharKeeps(p: Parser, ch: octet)
    ensures
      var q := FieldChar(p, ch);
      && q.flags == p.flags && q.contentLength == p.contentLength && q.state == p.state && q.errno == p.errno
      && (Counting(q.headerState) ==> q.headerState == p.headerState)
  {
    hide Lower, Match;
  }

  /** What a step within the headers does that takes no digit. */
  predicate Within(p: Parser, step: Step) {
    step.p.errno == OK ==>
      && Keeps(p, step) && Proper(step.p)
      && !(step.p.state == HeaderValue && step.p.headerState == ContentLengthNum)
  }

  lemma FieldStarts(p: Parser, ch: octet)
    requires p.errno == OK
    ensures Within(p, StepHeaderFieldStart(p, ch))
  {
    hide IsToken, Lower, ShouldKeepAlive;
  }

  lemma FieldSteps(p: Parser, ch: octet)
    requires p.state == HeaderField && Proper(p)
    ensures Within(p, StepHeaderField(p, ch))
  {
    hide IsToken, FieldChar;
    FieldCharKeeps(p, ch);
  }

  /** The first character of a value. */
  lemma ValueStarts(p: Parser, ch: octet)
    requires Counting(p.headerState) ==> p.flags.contentLength
    ensures
      var step := StepHeaderValueStart(p, ch);
      if p.headerState != ContentLength then Within(p, step)
      else step.p.errno == OK ==>
        && IsNum(ch) && !p.flags.contentLength && step.p.flags.contentLength && step.p.contentLength == Digit(ch)
        && step.p.state == HeaderValue && step.p.headerState == ContentLengthNum && step.notices == []
  {
    hide Lower;
  }

  lemma MatchKeeps(q: Parser, word: string, c: octet, whole: HeaderState, other: HeaderState)
    requires |word| > 0
    ensures
      var r := MatchValue(q, word, c, whole, other);
      r == q || r == q.(headerState := whole) || r == q.(headerState := other)
  {
    hide Match;
  }

  /** A character of another header leaves the number alone. */
  predicate Passes(p: Parser, q: Parser) {
    && q.flags.contentLength == p.flags.contentLength && q.contentLength == p.contentLength
    && q.state == p.state && q.errno == p.errno
    && q.headerState != ContentLength && !Counting(q.headerState)
  }

  lemma ConnectionKeeps(p: Parser, ch: octet)
    requires p.headerState != ContentLength && !Counting(p.headerState)
    ensures Passes(p, ConnectionValueChar(p, ch))
  {
    hide ConnectionValueChar;
    var h := p.headerState;
    if h.MatchingConnectionKeepAlive? || h.MatchingConnectionClose? || h.MatchingConnectionUpgrade? {
      ConnectionWordKeeps(p, ch);
    } else {
      ConnectionOtherKeeps(p, ch);
    }
  }

  lemma ConnectionOtherKeeps(p: Parser, ch: octet)
    requires p.headerState != ContentLength && !Counting(p.headerState)
    requires
      var h := p.headerState;
      !h.MatchingConnectionKeepAlive? && !h.MatchingConnectionClose? && !h.MatchingConnectionUpgrade?
    ensures Passes(p, ConnectionValueChar(p, ch))
  {
    hide Lower, MatchValue, IsToken, FinishFlags;
    FlagsKeep(p.headerState, p.flags);
  }

  lemma ConnectionWordKeeps(p: Parser, ch: octet)
    requires
      var h := p.headerState;
      h.MatchingConnectionKeepAlive? || h.MatchingConnectionClose? || h.MatchingConnectionUpgrade?
    ensures Passes(p, ConnectionValueChar(p, ch))
  {
    hide Lower, MatchValue, IsToken, FinishFlags, KEEP_ALIVE, CLOSE, UPGRADE;
    var c, q := Lower(ch), p.(index := p.index + 1);
    KeyWords();
    MatchKeeps(q, KEEP_ALIVE, c, ConnectionKeepAlive, MatchingConnectionToken);
    MatchKeeps(q, CLOSE, c, ConnectionClose, MatchingConnectionToken);
    MatchKeeps(q, UPGRADE, c, ConnectionUpgrade, MatchingConnectionToken);
  }

  lemma KeyWords()
    ensures |KEEP_ALIVE| > 0 && |CLOSE| > 0 && |UPGRADE| > 0 && |CHUNKED| > 0
  {
  }

  lemma TransferEncodingKeeps(p: Parser, ch: octet)
    requires p.headerState != ContentLength && !Counting(p.headerState)
    ensures Passes(p, TransferEncodingValueChar(p, ch))
  {
    hide Lower, MatchValue, IsToken, CHUNKED;
    KeyWords();
    MatchKeeps(p.(index := p.index + 1), CHUNKED, Lower(ch), TransferEncodingChunked, MatchingTransferEncodingToken);
  }

  lemma OtherValueSteps(p: Parser, ch: octet)
    requires p.state == HeaderValue && p.headerState != ContentLength && !Counting(p.headerState)
    ensures Within(p, ValueChar(p, ch))
  {
    hide ConnectionValueChar, TransferEncodingValueChar, ContentLengthValueChar;
    ConnectionKeeps(p, ch);
    TransferEncodingKeeps(p, ch);
  }

  /** A digit is taken. */
  predicate TakesDigit(p: Parser, ch: octet, step: Step)
    requires IsNum(ch)
  {
    step.p.errno == OK ==>
      && p.contentLength <= LIMIT && step.p.contentLength == p.contentLength * 10 + Digit(ch)
      && step.p.flags.contentLength && step.p.state == HeaderValue && step.p.headerState == ContentLengthNum
      && step.notices == []
  }

  lemma CountingValueSteps(p: Parser, ch: octet)
    requires p.state == HeaderValue && Counting(p.headerState) && p.flags.contentLength
    ensures
      if p.headerState == ContentLengthNum && IsNum(ch) then TakesDigit(p, ch, ValueChar(p, ch))
      else Within(p, ValueChar(p, ch))
  {
    hide ConnectionValueChar, TransferEncodingValueChar;
  }

  /** A character of a value: in a content length, a digit is taken. */
  lemma ValueSteps(p: Parser, ch: octet)
    requires p.state == HeaderValue && Proper(p)
    ensures
      var step := StepHeaderValue(p, ch);
      if p.headerState == ContentLengthNum && IsNum(ch) then TakesDigit(p, ch, step)
      else Within(p, step)
  {
    hide ValueChar;
    if Counting(p.headerState) {
      CountingValueSteps(p, ch);
    } else {
      OtherValueSteps(p, ch);
    }
  }

  /** The byte begins a content length, or adds a digit to it. */
  predicate FirstDigit(p: Parser, step: Step) {
    p.state.HeaderValueDiscardWs? && p.headerState == ContentLength && step.p.state == HeaderValue
  }

  predicate NextDigit(p: Parser, ch: octet) {
    p.state == HeaderValue && p.headerState == ContentLengthNum && IsNum(ch)
  }

  /** What a step within the headers does: it takes a digit, the first one or a further one, or leaves the
      number alone. */
  predicate HeaderStep(p: Parser, ch: octet, step: Step) {
    if FirstDigit(p, step) then
      step.p.errno == OK ==>
        && IsNum(ch) && !p.flags.contentLength && step.p.flags.contentLength && step.p.contentLength == Digit(ch)
        && step.p.headerState == ContentLengthNum && step.notices == []
    else if NextDigit(p, ch) then TakesDigit(p, ch, step)
    else Within(p, step)
  }

  lemma FieldHeaderSteps(p: Parser, ch: octet)
    requires (p.state.HeaderFieldStart? || p.state.HeaderField?) && Proper(p) && p.errno == OK
    ensures HeaderStep(p, ch, StepHeader(p, ch))
  {
    hide StepHeaderFieldStart, StepHeaderField, StepHeaderValue, StepHeaderValueDiscardWs, StepHeaderValueDiscardLws,
         StepHeaderValueStart, StepHeaderValueLws, StepHeadersAlmostDone, Within, Proper;
    if p.state.HeaderFieldStart? {
      FieldStarts(p, ch);
    } else {
      FieldSteps(p, ch);
    }
  }

  lemma BlankSteps(p: Parser, ch: octet)
    requires p.state.HeaderValueDiscardWs? && Proper(p) && p.errno == OK
    ensures HeaderStep(p, ch, StepHeader(p, ch))
  {
    hide StepHeaderFieldStart, StepHeaderField, StepHeaderValue, StepHeaderValueStart, StepHeaderValueLws,
         StepHeaderValueDiscardLws, StepHeadersAlmostDone, FinishHeader;
    ValueStarts(p, ch);
    ValueFollows(p, ch);
  }

  lemma EmptyLineSteps(p: Parser, ch: octet)
    requires (p.state.HeaderValueDiscardWsAlmostDone? || p.state.HeaderValueDiscardLws?) && Proper(p) && p.errno == OK
    ensures HeaderStep(p, ch, StepHeader(p, ch))
  {
    hide StepHeaderFieldStart, StepHeaderField, StepHeaderValue, StepHeaderValueStart, StepHeaderValueLws,
         StepHeaderValueDiscardWs, StepHeadersAlmostDone, FinishHeader;
    FinishKeeps(p);
    FieldStarts(FinishHeader(p), ch);
  }

  lemma ValueFollows(p: Parser, ch: octet)
    ensures StepHeaderValueStart(p, ch).p.state == HeaderValue
  {
  }

  lemma ValueByteSteps(p: Parser, ch: octet)
    requires p.state == HeaderValue && Proper(p)
    ensures HeaderStep(p, ch, StepHeader(p, ch))
  {
    hide StepHeaderFieldStart, StepHeaderField, StepHeaderValueStart, StepHeaderValue, StepHeaderValueLws,
         StepHeaderValueDiscardWs, StepHeaderValueDiscardLws, StepHeadersAlmostDone, Within;
    ValueSteps(p, ch);
  }

  lemma FoldedSteps(p: Parser, ch: octet)
    requires p.state == HeaderValueLws && Proper(p) && p.errno == OK
    ensures Within(p, StepHeaderValueLws(p, ch))
  {
    hide StepHeaderFieldStart, StepHeaderValueStart, FinishHeader;
    FinishKeeps(p);
    FieldStarts(FinishHeader(p), ch);
    ValueStarts(if p.headerState == ContentLengthNum then p.(headerState := ContentLengthWs) else p, ch);
  }

  lemma AlmostDoneSteps(p: Parser, ch: octet)
    requires p.state == HeaderAlmostDone && Proper(p)
    ensures Within(p, if ch == LF then To(p, HeaderValueLws) else Fail(p, LfExpected))
  {
  }

  lemma ValueLineSteps(p: Parser, ch: octet)
    requires InValue(p.state) && p.state != HeaderValue && Proper(p) && p.errno == OK
    ensures HeaderStep(p, ch, StepHeader(p, ch))
  {
    hide StepHeaderFieldStart, StepHeaderField, StepHeaderValueStart, StepHeaderValue, StepHeaderValueLws,
         StepHeaderValueDiscardWs, StepHeaderValueDiscardLws, StepHeadersAlmostDone, Within;
    if p.state.HeaderValueStart? {
      ValueStarts(p, ch);
    } else if p.state.HeaderValueLws? {
      FoldedSteps(p, ch);
    } else {
      AlmostDoneSteps(p, ch);
    }
  }

  lemma EndSteps(p: Parser, ch: octet)
    requires p.state.HeadersAlmostDone?
    ensures HeaderStep(p, ch, StepHeader(p, ch))
  {
    hide StepHeaderFieldStart, StepHeaderField, StepHeaderValue, StepHeaderValueDiscardWs, StepHeaderValueDiscardLws,
         StepHeaderValueStart, StepHeaderValueLws, ShouldKeepAlive;
  }

  /** One byte keeps the number exact. */
  lemma StepIsExact(p: Parser, digits: text, ch: octet)
    requires p.errno == OK && Exact(p, digits) && Proper(p)
    ensures
      var step := StepState(p, ch);
      step.p.errno == OK ==> Exact(step.p, DigitsAfter(digits, p, ch)) && Proper(step.p)
  {
    hide StepStart, StepStatusLine, StepHeader, StepUrlState, StepRequestLine, Decimal, AllDigits;
    OneDigit(ch);
    if InHeader(p.state) {
      if p.state.HeaderFieldStart? || p.state.HeaderField? {
        FieldHeaderSteps(p, ch);
      } else if p.state.HeaderValueDiscardWs? {
        BlankSteps(p, ch);
      } else if InName(p.state) {
        EmptyLineSteps(p, ch);
      } else if p.state == HeaderValue {
        ValueByteSteps(p, ch);
      } else if InValue(p.state) {
        ValueLineSteps(p, ch);
      } else {
        EndSteps(p, ch);
      }
      if IsNum(ch) {
        DecimalOfOneMore(digits, ch);
      }
    } else {
      OutsideSteps(p, ch);
      NoDigits();
    }
  }

  lemma OneDigit(ch: octet)
    ensures [] + [ch] == [ch] && (IsNum(ch) ==> AllDigits([ch]) && Decimal([ch]) == Digit(ch))
  {
    if IsNum(ch) {
      DecimalOfOneMore([], ch);
      assert [] + [ch] == [ch];
    }
  }

  lemma NoDigits()
    ensures AllDigits([])
  {
  }

  // ---- Runs ----

  /** A parser just initialised has read no digits. */
  lemma InitIsExact()
    ensures Exact(INIT, []) && Proper(INIT)
  {
  }

  /** On every run without an error, over any number of messages and headers, the number kept is exactly
      the value of the digits of the current content length: it does not wrap, and once a digit has been
      read it is never the number that stands for no length. */
  lemma {:induction false} ContentLengthIsExact(p: Parser, nread: nat, data: text, i: nat, digits: text)
    requires i <= |data| && p.errno == OK && Exact(p, digits) && Proper(p)
    ensures
      var o := Feed(p, nread, data, i);
      o.p.errno == OK ==> Exact(o.p, DigitsRead(digits, p, nread, data, i)) && Proper(o.p)
    decreases |data| - i
  {
    hide StepState, Exact, Proper, DigitsAfter;
    if i < |data| {
      var step := StepByte(p, nread, data[i]);
      StepIsExact(p, digits, data[i]);
      if step.p.errno == OK && !step.stop {
        ContentLengthIsExact(step.p, nread + 1, data, i + 1, DigitsAfter(digits, p, data[i]));
      }
    }
  }

  /** The same from a new parser on, for any input. */
  lemma {:induction false} NumberKeptIsExact(data: text)
    ensures
      var o, digits := Feed(INIT, 0, data, 0), DigitsRead([], INIT, 0, data, 0);
      o.p.errno == OK ==>
        && AllDigits(digits)
        && (o.p.flags.contentLength <==> digits != [])
        && (digits != [] ==> o.p.contentLength == Decimal(digits) < ULLONG_MAX)
        && (digits == [] && !Idle(o.p.state) ==> o.p.contentLength == ULLONG_MAX)
  {
    hide Feed, DigitsRead, Decimal;
    InitIsExact();
    ContentLengthIsExact(INIT, 0, data, 0, []);
  }

  /** A further digit is refused exactly when the number read so far is above the limit. */
  lemma {:induction false} DigitAcceptedExactlyWhen(p: Parser, digits: text, ch: octet)
    requires p.state == HeaderValue && p.headerState == ContentLengthNum && p.errno == OK
    requires Exact(p, digits) && Proper(p) && IsNum(ch)
    ensures StepState(p, ch).p.errno == OK <==> Decimal(digits) <= LIMIT
    ensures
      StepState(p, ch).p.errno == OK ==>
        StepState(p, ch) == Stay(p.(contentLength := p.contentLength * 10 + Digit(ch)))
  {
    hide StepStart, StepStatusLine, StepUrlState, StepRequestLine, Decimal, StepHeaderFieldStart, StepHeaderField,
         StepHeaderValueDiscardWs, StepHeaderValueDiscardLws, StepHeaderValueStart, StepHeaderValueLws,
         StepHeadersAlmostDone;
  }

  lemma FirstDigitIsTaken(p: Parser, ch: octet)
    requires p.state == HeaderValueDiscardWs && p.headerState == ContentLength && p.errno == OK
    requires !p.flags.contentLength && IsNum(ch)
    ensures
      StepState(p, ch) ==
      Stay(p.(index := 0, state := HeaderValue, flags := p.flags.(contentLength := true), contentLength := Digit(ch),
              headerState := ContentLengthNum))
  {
    hide StepStart, StepStatusLine, StepUrlState, StepRequestLine, StepHeaderFieldStart, StepHeaderField,
         StepHeaderValueDiscardLws, StepHeaderValue, StepHeaderValueLws, StepHeadersAlmostDone;
  }

  /** What reading `digits` has come to: an error exactly when what stands before the last digit is above the
      limit, and otherwise the value of the digits. */
  predicate NumberRead(o: Outcome, count: nat, digits: text)
    requires AllDigits(digits) && digits != []
  {
    && (o.p.errno == OK <==> Decimal(digits[..|digits| - 1]) <= LIMIT)
    && (o.p.errno == OK ==>
          && !o.complete && o.nread == count && o.p.contentLength == Decimal(digits)
          && o.p.state == HeaderValue && o.p.headerState == ContentLengthNum
          && Exact(o.p, digits) && Proper(o.p))
  }

  lemma FirstNumber(p: Parser, nread: nat, ch: octet)
    requires p.state == HeaderValueDiscardWs && p.headerState == ContentLength && p.errno == OK
    requires !p.flags.contentLength && IsNum(ch) && nread + 1 <= MAX_HEADER_SIZE
    ensures AllDigits([ch]) && NumberRead(Feed(p, nread, [ch], 0), nread + 1, [ch])
  {
    hide StepState;
    FirstDigitIsTaken(p, ch);
    OneDigit(ch);
    ValueOfNone();
    FeedOne(p, nread, [], ch);
    assert [ch][..0] == [];
  }

  lemma NextNumber(p: Parser, nread: nat, before: text, ch: octet)
    requires p.errno == OK && AllDigits(before) && before != [] && IsNum(ch) && nread + |before| < MAX_HEADER_SIZE
    requires NumberRead(Feed(p, nread, before, 0), nread + |before|, before)
    ensures AllDigits(before + [ch])
    ensures NumberRead(Feed(p, nread, before + [ch], 0), nread + |before| + 1, before + [ch])
  {
    hide StepState, Decimal, Feed, Exact, Proper, AllDigits;
    var first := Feed(p, nread, before, 0);
    FeedAppend(p, nread, before, [ch], 0);
    DecimalOfOneMore(before, ch);
    DecimalGrows(before, |before| - 1);
    assert (before + [ch])[..|before|] == before;
    if first.p.errno == OK {
      DigitAcceptedExactlyWhen(first.p, before, ch);
      FeedOne(first.p, first.nread, before, ch);
      if StepState(first.p, ch).p.errno == OK {
        StepIsExact(first.p, before, ch);
        DigitsWithOneMore(first.p, before, ch);
        ExactNumber(first.p, before);
      }
    }
  }

  lemma ExactNumber(p: Parser, digits: text)
    requires Exact(p, digits) && digits != []
    ensures p.contentLength == Decimal(digits)
  {
  }

  lemma DigitsWithOneMore(p: Parser, digits: text, ch: octet)
    requires p.state == HeaderValue && p.headerState == ContentLengthNum && IsNum(ch)
    requires StepState(p, ch) == Stay(p.(contentLength := p.contentLength * 10 + Digit(ch)))
    ensures DigitsAfter(digits, p, ch) == digits + [ch]
  {
    hide StepState;
  }

  /** A content length is accepted exactly when what stands before its last digit is at most the limit; the
      number is then its value. So all numbers up to 18446744073709551609 are accepted, and none above. */
  lemma {:induction false} NumberAcceptedExactlyWhen(p: Parser, nread: nat, digits: text)
    requires p.state == HeaderValueDiscardWs && p.headerState == ContentLength && p.errno == OK
    requires !p.flags.contentLength && AllDigits(digits) && digits != []
    requires nread + |digits| <= MAX_HEADER_SIZE
    ensures NumberRead(Feed(p, nread, digits, 0), nread + |digits|, digits)
    decreases |digits|
  {
    hide NumberRead, Feed;
    var before, ch := digits[..|digits| - 1], digits[|digits| - 1];
    assert digits == before + [ch];
    if before == [] {
      assert digits == [ch];
      FirstNumber(p, nread, ch);
    } else {
      NumberAcceptedExactlyWhen(p, nread, before);
      NextNumber(p, nread, before, ch);
    }
  }

  lemma ValueOfNone()
    ensures Decimal([]) == 0
  {
  }

  lemma FeedOne(p: Parser, nread: nat, before: text, ch: octet)
    requires p.errno == OK && nread + 1 <= MAX_HEADER_SIZE
    ensures
      var o, step := Feed(p, nread, before + [ch], |before|), StepState(p, ch);
      if step.p.errno != OK then o.p == step.p
      else if step.stop then o.complete
      else o.p == step.p && o.nread == nread + 1 && !o.complete
  {
    hide StepState;
    var data := before + [ch];
    assert data[|before|] == ch;
    var step := StepState(p, ch);
    if step.p.errno == OK && !step.stop {
      assert Feed(step.p, nread + 1, data, |data|) == Outcome(step.p, nread + 1, [], |data|, false);
    }
  }
}
