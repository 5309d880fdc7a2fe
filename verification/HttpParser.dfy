/**
  The HTTP/RTSP message parser as an automaton that reads one byte at a time: start line and
  header states, in strict mode. `HttpExecute` proves the buffered parser against it.
 */
module HttpParser {

  /** One byte of the input. */
  type octet = c: char | c as int < 256 witness 'a'

  type text = seq<octet>

  const CR: octet := '\r'
  const LF: octet := '\n'
  const TAB: octet := '\t'

  const MAX_HEADER_SIZE := 80 * 1024
  const ULLONG_MAX := 0xFFFF_FFFF_FFFF_FFFF

  // ---- Character classes ----

  function Lower(c: octet): octet {
    if c as int / 32 % 2 == 0 then (c as int + 32) as char else c
  }

  predicate IsAlpha(c: octet) {
    'a' <= Lower(c) <= 'z'
  }

  predicate IsNum(c: octet) {
    '0' <= c <= '9'
  }

  predicate IsAlphaNum(c: octet) {
    IsAlpha(c) || IsNum(c)
  }

  predicate IsHex(c: octet) {
    IsNum(c) || 'a' <= Lower(c) <= 'f'
  }

  predicate IsUserinfoChar(c: octet) {
    || IsAlphaNum(c) || c == '-' || c == '_' || c == '.' || c == '!' || c == '~' || c == '*'
    || c == '\'' || c == '(' || c == ')'
    || c == '%' || c == ';' || c == ':' || c == '&' || c == '=' || c == '+' || c == '$' || c == ','
  }

  predicate IsHostChar(c: octet) {
    IsAlphaNum(c) || c == '.' || c == '-'
  }

  predicate IsUrlChar(c: octet) {
    33 <= c as int <= 126 && c != '#' && c != '?'
  }

  /** The characters of a header name. */
  predicate IsToken(c: octet) {
    || IsAlphaNum(c) || c == '!' || '#' <= c <= '\'' || c == '*' || c == '+' || c == '-' || c == '.'
    || '^' <= c <= '`' || c == '|' || c == '~'
  }

  predicate IsHeaderChar(c: octet) {
    c == CR || c == LF || c == TAB || (c as int > 31 && c as int != 127)
  }

  function Digit(c: octet): nat
    requires IsNum(c)
  {
    c as int - '0' as int
  }

  // ---- Parser state ----

  datatype State =
    | Dead
    | StartReqOrRes | ResOrRespH | ResOrRespR
    | StartRes | ResH | ResHT | ResHTT | ResHTTP | ResR | ResRT | ResRTS | ResRTSP
    | ResHttpMajor | ResHttpDot | ResHttpMinor | ResHttpEnd
    | ResFirstStatusCode | ResStatusCode | ResStatusStart | ResStatus | ResLineAlmostDone
    | StartReq | ReqMethod | ReqSpacesBeforeUrl
    | ReqSchema | ReqSchemaSlash | ReqSchemaSlashSlash | ReqServerStart | ReqServer | ReqServerWithAt
    | ReqPath | ReqQueryStringStart | ReqQueryString | ReqFragmentStart | ReqFragment
    | ReqHttpStart | ReqHttpH | ReqHttpHT | ReqHttpHTT | ReqHttpHTTP
    | ReqHttpR | ReqHttpRT | ReqHttpRTS | ReqHttpRTSP | ReqHttpI | ReqHttpIC
    | ReqHttpMajor | ReqHttpDot | ReqHttpMinor | ReqHttpEnd | ReqLineAlmostDone
    | HeaderFieldStart | HeaderField
    | HeaderValueDiscardWs | HeaderValueDiscardWsAlmostDone | HeaderValueDiscardLws
    | HeaderValueStart | HeaderValue | HeaderValueLws | HeaderAlmostDone
    | HeadersAlmostDone

  datatype HeaderState =
    | General | C | CO | CON
    | MatchingConnection | MatchingProxyConnection | MatchingContentLength
    | MatchingTransferEncoding | MatchingUpgrade
    | Connection | ContentLength | ContentLengthNum | ContentLengthWs | TransferEncoding | Upgrade
    | MatchingTransferEncodingTokenStart | MatchingTransferEncodingChunked | MatchingTransferEncodingToken
    | MatchingConnectionTokenStart | MatchingConnectionKeepAlive | MatchingConnectionClose
    | MatchingConnectionUpgrade | MatchingConnectionToken
    | TransferEncodingChunked | ConnectionKeepAlive | ConnectionClose | ConnectionUpgrade

  datatype MessageType = Request | Response | Both

  datatype Errno =
    | OK | InvalidEofState | HeaderOverflow | ClosedConnection | InvalidVersion | InvalidStatus
    | InvalidMethod | InvalidUrl | LfExpected | InvalidHeaderToken | InvalidContentLength | InvalidChunkSize
    | UnexpectedContentLength | InvalidConstant | StrictError

  datatype Flags = Flags(
    chunked: bool,
    keepAlive: bool,
    close: bool,
    connectionUpgrade: bool,
    upgrade: bool,
    skipBody: bool,
    contentLength: bool)

  const NO_FLAGS := Flags(false, false, false, false, false, false, false)

  datatype Method =
    | DELETE | GET | HEAD | POST | PUT | CONNECT | OPTIONS | TRACE | COPY | LOCK | MKCOL | MOVE
    | PROPFIND | PROPPATCH | SEARCH | UNLOCK | BIND | REBIND | UNBIND | ACL | REPORT | MKACTIVITY
    | CHECKOUT | MERGE | MSEARCH | NOTIFY | SUBSCRIBE | UNSUBSCRIBE | PATCH | PURGE | MKCALENDAR
    | LINK | UNLINK | SOURCE | DESCRIBE | SETUP | PLAY | TEARDOWN

  /** The fields of the parser but for the count of header bytes, which only the limit depends on. */
  datatype Parser = Parser(
    typ: MessageType,
    flags: Flags,
    state: State,
    headerState: HeaderState,
    index: nat,
    usesTransferEncoding: bool,
    contentLength: nat,
    httpMajor: nat,
    httpMinor: nat,
    statusCode: nat,
    verb: Method,
    errno: Errno,
    upgrade: bool)

  /** A parser just initialised for requests and responses, with the body to be skipped. */
  const INIT := Parser(
    Both, NO_FLAGS.(skipBody := true), StartReqOrRes, General, 0, false, 0, 0, 0, 0, DELETE, OK, false)

  /** The name of a method. The name of MSEARCH is spelt with spaces around its hyphen. */
  function MethodString(m: Method): text {
    match m
    case DELETE => "DELETE"
    case GET => "GET"
    case HEAD => "HEAD"
    case POST => "POST"
    case PUT => "PUT"
    case CONNECT => "CONNECT"
    case OPTIONS => "OPTIONS"
    case TRACE => "TRACE"
    case COPY => "COPY"
    case LOCK => "LOCK"
    case MKCOL => "MKCOL"
    case MOVE => "MOVE"
    case PROPFIND => "PROPFIND"
    case PROPPATCH => "PROPPATCH"
    case SEARCH => "SEARCH"
    case UNLOCK => "UNLOCK"
    case BIND => "BIND"
    case REBIND => "REBIND"
    case UNBIND => "UNBIND"
    case ACL => "ACL"
    case REPORT => "REPORT"
    case MKACTIVITY => "MKACTIVITY"
    case CHECKOUT => "CHECKOUT"
    case MERGE => "MERGE"
    case MSEARCH => "M - SEARCH"
    case NOTIFY => "NOTIFY"
    case SUBSCRIBE => "SUBSCRIBE"
    case UNSUBSCRIBE => "UNSUBSCRIBE"
    case PATCH => "PATCH"
    case PURGE => "PURGE"
    case MKCALENDAR => "MKCALENDAR"
    case LINK => "LINK"
    case UNLINK => "UNLINK"
    case SOURCE => "SOURCE"
    case DESCRIBE => "DESCRIBE"
    case SETUP => "SETUP"
    case PLAY => "PLAY"
    case TEARDOWN => "TEARDOWN"
  }

  // ---- One byte ----

  /** What a byte can belong to. */
  datatype Kind = NoData | UrlData | FieldData | ValueData

  /** What the parser tells its caller. */
  datatype Event =
    | MessageBegin
    | HeadersComplete
    | MessageComplete
    | Data(kind: Kind, b: octet)

  /** The parser after a byte, the notifications it gave, and whether it returned to its caller. */
  datatype Step = Step(p: Parser, notices: seq<Event>, stop: bool)

  function To(p: Parser, s: State): Step {
    Step(p.(state := s), [], false)
  }

  function Stay(p: Parser): Step {
    Step(p, [], false)
  }

  function Fail(p: Parser, e: Errno): Step
    requires e != OK
  {
    Step(p.(errno := e), [], false)
  }

  /** Strict mode: the byte must be the expected one. */
  function Expect(p: Parser, ch: octet, want: octet, s: State): Step {
    if ch == want then To(p, s) else Fail(p, StrictError)
  }

  /** What a URL state becomes on a byte of a URL; `Dead` on a byte that no URL has there. */
  function ParseUrlChar(s: State, ch: octet): State {
    if ch == ' ' || ch == CR || ch == LF || ch == TAB || ch as int == 12 then Dead
    else
      match s
      case ReqSpacesBeforeUrl =>
        if ch == '/' || ch == '*' then ReqPath else if IsAlpha(ch) then ReqSchema else Dead
      case ReqSchema =>
        if IsAlpha(ch) then ReqSchema else if ch == ':' then ReqSchemaSlash else Dead
      case ReqSchemaSlash => if ch == '/' then ReqSchemaSlashSlash else Dead
      case ReqSchemaSlashSlash => if ch == '/' then ReqServerStart else Dead
      case ReqServerWithAt => if ch == '@' then Dead else ParseServerChar(ch)
      case ReqServerStart => ParseServerChar(ch)
      case ReqServer => ParseServerChar(ch)
      case ReqPath =>
        if IsUrlChar(ch) then ReqPath
        else if ch == '?' then ReqQueryStringStart
        else if ch == '#' then ReqFragmentStart
        else Dead
      case ReqQueryStringStart => ParseQueryChar(ch)
      case ReqQueryString => ParseQueryChar(ch)
      case ReqFragmentStart =>
        if IsUrlChar(ch) || ch == '?' then ReqFragment else if ch == '#' then ReqFragmentStart else Dead
      case ReqFragment => if IsUrlChar(ch) || ch == '?' || ch == '#' then ReqFragment else Dead
      case _ => Dead
  }

  /** The state after the bytes of `url`. */
  function UrlState(s: State, url: text): State {
    if url == [] then s else ParseUrlChar(UrlState(s, url[..|url| - 1]), url[|url| - 1])
  }

  function ParseServerChar(ch: octet): State {
    if ch == '/' then ReqPath
    else if ch == '?' then ReqQueryStringStart
    else if ch == '@' then ReqServerWithAt
    else if IsUserinfoChar(ch) || ch == '[' || ch == ']' then ReqServer
    else Dead
  }

  function ParseQueryChar(ch: octet): State {
    if IsUrlChar(ch) || ch == '?' then ReqQueryString
    else if ch == '#' then ReqFragmentStart
    else Dead
  }

  function Begin(p: Parser): Parser {
    p.(flags := NO_FLAGS, usesTransferEncoding := false, contentLength := ULLONG_MAX)
  }

  function StepStartReqOrRes(p: Parser, ch: octet): Step {
    if ch == CR || ch == LF then Stay(p)
    else if ch == 'H' then Step(Begin(p).(state := ResOrRespH), [MessageBegin], false)
    else if ch == 'R' then Step(Begin(p).(state := ResOrRespR), [MessageBegin], false)
    else StepStartReq(Begin(p).(typ := Request, state := StartReq), ch)
  }

  function StepStartRes(p: Parser, ch: octet): Step {
    if ch == CR || ch == LF then Stay(p)
    else if ch == 'H' then Step(Begin(p).(state := ResH), [MessageBegin], false)
    else if ch == 'R' then Step(Begin(p).(state := ResR), [MessageBegin], false)
    else Fail(Begin(p), InvalidConstant)
  }

  predicate IsFirstLetter(ch: octet) {
    'A' <= ch <= 'D' || ch == 'G' || ch == 'H' || 'L' <= ch <= 'P' || 'R' <= ch <= 'U'
  }

  /** The method a first letter stands for until a later letter corrects it. */
  function FirstMethod(ch: octet): (m: Method)
    requires IsFirstLetter(ch)
  {
    match ch
    case 'A' => ACL
    case 'B' => BIND
    case 'C' => CONNECT
    case 'D' => DELETE
    case 'G' => GET
    case 'H' => HEAD
    case 'L' => LOCK
    case 'M' => MKCOL
    case 'N' => NOTIFY
    case 'O' => OPTIONS
    case 'P' => POST
    case 'R' => REPORT
    case 'S' => SUBSCRIBE
    case 'T' => TRACE
    case _ => UNLOCK
  }

  function StepStartReq(p: Parser, ch: octet): Step {
    if ch == CR || ch == LF then Stay(p)
    else if !IsFirstLetter(ch) then Fail(Begin(p), InvalidMethod)
    else Step(Begin(p).(verb := FirstMethod(ch), index := 1, state := ReqMethod), [MessageBegin], false)
  }

  datatype Switch = Switch(verb: Method) | NoSwitch

  /** The corrections: at position `index` of `m`, letter `ch` means another method. */
  function SwitchMethod(m: Method, index: nat, ch: octet): Switch {
    match (m, index, ch)
    case (POST, 1, 'U') => Switch(PUT)
    case (POST, 1, 'A') => Switch(PATCH)
    case (POST, 1, 'L') => Switch(PLAY)
    case (POST, 1, 'R') => Switch(PROPFIND)
    case (PUT, 2, 'R') => Switch(PURGE)
    case (DELETE, 2, 'S') => Switch(DESCRIBE)
    case (CONNECT, 1, 'H') => Switch(CHECKOUT)
    case (CONNECT, 2, 'P') => Switch(COPY)
    case (MKCOL, 1, 'O') => Switch(MOVE)
    case (MKCOL, 1, 'E') => Switch(MERGE)
    case (MKCOL, 1, '-') => Switch(MSEARCH)
    case (MKCOL, 2, 'A') => Switch(MKACTIVITY)
    case (MKCOL, 3, 'A') => Switch(MKCALENDAR)
    case (SUBSCRIBE, 1, 'E') => Switch(SEARCH)
    case (SUBSCRIBE, 1, 'O') => Switch(SOURCE)
    case (SEARCH, 2, 'T') => Switch(SETUP)
    case (REPORT, 2, 'B') => Switch(REBIND)
    case (PROPFIND, 4, 'P') => Switch(PROPPATCH)
    case (TRACE, 1, 'E') => Switch(TEARDOWN)
    case (LOCK, 1, 'I') => Switch(LINK)
    case (UNLOCK, 2, 'S') => Switch(UNSUBSCRIBE)
    case (UNLOCK, 2, 'B') => Switch(UNBIND)
    case (UNLOCK, 3, 'I') => Switch(UNLINK)
    case _ => NoSwitch
  }

  function StepReqMethod(p: Parser, ch: octet): Step {
    var matcher := MethodString(p.verb);
    if ch == '\0' then Fail(p, InvalidMethod)
    else if ch == ' ' && p.index == |matcher| then Step(p.(index := p.index + 1, state := ReqSpacesBeforeUrl), [], false)
    else if p.index < |matcher| && ch == matcher[p.index] then Stay(p.(index := p.index + 1))
    else if 'A' <= ch <= 'Z' || ch == '-' then
      match SwitchMethod(p.verb, p.index, ch)
      case Switch(m) => Stay(p.(verb := m, index := p.index + 1))
      case NoSwitch => Fail(p, InvalidMethod)
    else Fail(p, InvalidMethod)
  }

  function StepUrl(p: Parser, ch: octet): Step {
    var s := ParseUrlChar(p.state, ch);
    if s == Dead then Fail(p.(state := Dead), InvalidUrl) else To(p, s)
  }

  /** The URL states in which a URL may end. */
  predicate MayEndUrl(s: State) {
    || s.ReqServer? || s.ReqServerWithAt? || s.ReqPath? || s.ReqQueryStringStart? || s.ReqQueryString?
    || s.ReqFragmentStart? || s.ReqFragment?
  }

  function StepRequestLine(p: Parser, ch: octet): Step {
    match p.state
    case StartReq => StepStartReq(p, ch)
    case ReqMethod => StepReqMethod(p, ch)
    case ReqSpacesBeforeUrl =>
      if ch == ' ' then Stay(p)
      else StepUrl(if p.verb == CONNECT then p.(state := ReqServerStart) else p, ch)
    case ReqHttpStart =>
      if ch == ' ' then Stay(p)
      else if ch == 'H' then To(p, ReqHttpH)
      else if ch == 'R' then To(p, ReqHttpR)
      else if ch == 'I' && p.verb == SOURCE then To(p, ReqHttpI)
      else Fail(p, InvalidConstant)
    case ReqHttpH => Expect(p, ch, 'T', ReqHttpHT)
    case ReqHttpHT => Expect(p, ch, 'T', ReqHttpHTT)
    case ReqHttpHTT => Expect(p, ch, 'P', ReqHttpHTTP)
    case ReqHttpR => Expect(p, ch, 'T', ReqHttpRT)
    case ReqHttpRT => Expect(p, ch, 'S', ReqHttpRTS)
    case ReqHttpRTS => Expect(p, ch, 'P', ReqHttpRTSP)
    case ReqHttpI => Expect(p, ch, 'C', ReqHttpIC)
    case ReqHttpIC => Expect(p, ch, 'E', ReqHttpHTTP)
    case ReqHttpHTTP => Expect(p, ch, '/', ReqHttpMajor)
    case ReqHttpRTSP => Expect(p, ch, '/', ReqHttpMajor)
    case ReqHttpMajor => if IsNum(ch) then To(p.(httpMajor := Digit(ch)), ReqHttpDot) else Fail(p, InvalidVersion)
    case ReqHttpDot => if ch == '.' then To(p, ReqHttpMinor) else Fail(p, InvalidVersion)
    case ReqHttpMinor => if IsNum(ch) then To(p.(httpMinor := Digit(ch)), ReqHttpEnd) else Fail(p, InvalidVersion)
    case ReqHttpEnd =>
      if ch == CR then To(p, ReqLineAlmostDone)
      else if ch == LF then To(p, HeaderFieldStart)
      else Fail(p, InvalidVersion)
    case _ => // ReqLineAlmostDone
      if ch == LF then To(p, HeaderFieldStart) else Fail(p, LfExpected)
  }

  function StepUrlState(p: Parser, ch: octet): Step {
    if MayEndUrl(p.state) then StepUrlOrEnd(p, ch) else StepUrlInside(p, ch)
  }

  function StepUrlInside(p: Parser, ch: octet): Step {
    if ch == ' ' || ch == CR || ch == LF then Fail(p, InvalidUrl) else StepUrl(p, ch)
  }

  function StepUrlOrEnd(p: Parser, ch: octet): Step {
    if ch == ' ' then To(p, ReqHttpStart)
    else if ch == CR then To(p.(httpMajor := 0, httpMinor := 9), ReqLineAlmostDone)
    else if ch == LF then To(p.(httpMajor := 0, httpMinor := 9), HeaderFieldStart)
    else StepUrl(p, ch)
  }

  function StepStatusLine(p: Parser, ch: octet): Step {
    match p.state
    case StartRes => StepStartRes(p, ch)
    case ResH => Expect(p, ch, 'T', ResHT)
    case ResHT => Expect(p, ch, 'T', ResHTT)
    case ResHTT => Expect(p, ch, 'P', ResHTTP)
    case ResHTTP => Expect(p, ch, '/', ResHttpMajor)
    case ResR => Expect(p, ch, 'T', ResRT)
    case ResRT => Expect(p, ch, 'S', ResRTS)
    case ResRTS => Expect(p, ch, 'P', ResRTSP)
    case ResRTSP => Expect(p, ch, '/', ResHttpMajor)
    case ResHttpMajor => if IsNum(ch) then To(p.(httpMajor := Digit(ch)), ResHttpDot) else Fail(p, InvalidVersion)
    case ResHttpDot => if ch == '.' then To(p, ResHttpMinor) else Fail(p, InvalidVersion)
    case ResHttpMinor => if IsNum(ch) then To(p.(httpMinor := Digit(ch)), ResHttpEnd) else Fail(p, InvalidVersion)
    case ResHttpEnd => if ch == ' ' then To(p, ResFirstStatusCode) else Fail(p, InvalidVersion)
    case ResFirstStatusCode =>
      if IsNum(ch) then To(p.(statusCode := Digit(ch)), ResStatusCode)
      else if ch == ' ' then Stay(p)
      else Fail(p, InvalidStatus)
    case ResStatusCode =>
      if IsNum(ch) then
        var code := p.statusCode * 10 + Digit(ch);
        if code > 999 then Fail(p.(statusCode := code), InvalidStatus) else Stay(p.(statusCode := code))
      else if ch == ' ' then To(p, ResStatusStart)
      else if ch == CR || ch == LF then StepStatus(p.(index := 0), ch)
      else Fail(p, InvalidStatus)
    case ResStatusStart => StepStatus(p.(index := 0), ch)
    case ResStatus => StepStatus(p, ch)
    case _ => // ResLineAlmostDone
      Expect(p, ch, LF, HeaderFieldStart)
  }

  function StepStatus(p: Parser, ch: octet): Step {
    if ch == CR then To(p, ResLineAlmostDone)
    else if ch == LF then To(p, HeaderFieldStart)
    else To(p, ResStatus)
  }

  // ---- Headers ----

  const CONNECTION := "connection"
  const PROXY_CONNECTION := "proxy-connection"
  const CONTENT_LENGTH := "content-length"
  const TRANSFER_ENCODING := "transfer-encoding"
  const UPGRADE := "upgrade"
  const CHUNKED := "chunked"
  const KEEP_ALIVE := "keep-alive"
  const CLOSE := "close"

  datatype Matched = Matching | Matched | Mismatch

  /** Compares `c` with position `index` of `word`, whose last position completes the match. */
  function Match(word: string, index: nat, c: octet): Matched
    requires |word| > 0
  {
    if index >= |word| || c != word[index] then Mismatch
    else if index == |word| - 1 then Matched
    else Matching
  }

  /** One character of a header name; `c` is `ch` in lower case. */
  function FieldChar(p: Parser, ch: octet): Parser {
    var c := Lower(ch);
    var q := p.(index := p.index + 1);
    match p.headerState
    case General => p
    case C => q.(headerState := if c == 'o' then CO else General)
    case CO => q.(headerState := if c == 'n' then CON else General)
    case CON =>
      q.(headerState := if c == 'n' then MatchingConnection else if c == 't' then MatchingContentLength else General)
    case MatchingConnection => MatchField(q, CONNECTION, c, Connection)
    case MatchingProxyConnection => MatchField(q, PROXY_CONNECTION, c, Connection)
    case MatchingContentLength => MatchField(q, CONTENT_LENGTH, c, ContentLength)
    case MatchingTransferEncoding =>
      var r := MatchField(q, TRANSFER_ENCODING, c, TransferEncoding);
      if r.headerState == TransferEncoding then r.(usesTransferEncoding := true) else r
    case MatchingUpgrade => MatchField(q, UPGRADE, c, Upgrade)
    case Connection => AfterName(p, ch)
    case ContentLength => AfterName(p, ch)
    case TransferEncoding => AfterName(p, ch)
    case Upgrade => AfterName(p, ch)
    case _ => p
  }

  function MatchField(q: Parser, word: string, c: octet, whole: HeaderState): Parser
    requires |word| > 0
  {
    match Match(word, q.index, c)
    case Matching => q
    case Matched => q.(headerState := whole)
    case Mismatch => q.(headerState := General)
  }

  function AfterName(p: Parser, ch: octet): Parser {
    if ch != ' ' then p.(headerState := General) else p
  }

  function StepHeaderFieldStart(p: Parser, ch: octet): Step {
    if ch == CR then To(p, HeadersAlmostDone)
    else if ch == LF then StepHeadersAlmostDone(p, ch)
    else if !IsToken(ch) then Fail(p.(state := HeaderFieldStart), InvalidHeaderToken)
    else
      var c := Lower(ch);
      var h :=
        if c == 'c' then C
        else if c == 'p' then MatchingProxyConnection
        else if c == 't' then MatchingTransferEncoding
        else if c == 'u' then MatchingUpgrade
        else General;
      To(p.(index := 0, headerState := h), HeaderField)
  }

  function StepHeaderField(p: Parser, ch: octet): Step {
    if IsToken(ch) then Stay(FieldChar(p, ch))
    else if ch == ':' then To(p, HeaderValueDiscardWs)
    else Fail(p, InvalidHeaderToken)
  }

  function StepHeaderValueDiscardWs(p: Parser, ch: octet): Step {
    if ch == ' ' || ch == TAB then Stay(p)
    else if ch == CR then To(p, HeaderValueDiscardWsAlmostDone)
    else if ch == LF then To(p, HeaderValueDiscardLws)
    else StepHeaderValueStart(p, ch)
  }

  /** The first character of a value, and of each folded line. */
  function StepHeaderValueStart(p: Parser, ch: octet): Step {
    var c := Lower(ch);
    var q := p.(index := 0, state := HeaderValue);
    match p.headerState
    case Upgrade => Stay(q.(flags := q.flags.(upgrade := true), headerState := General))
    case TransferEncoding =>
      Stay(q.(headerState := if c == 'c' then MatchingTransferEncodingChunked else MatchingTransferEncodingToken))
    case MatchingTransferEncodingTokenStart => Stay(q)
    case ContentLength =>
      if !IsNum(ch) then Fail(q, InvalidContentLength)
      else if p.flags.contentLength then Fail(q, UnexpectedContentLength)
      else
        Stay(q.(flags := q.flags.(contentLength := true), contentLength := Digit(ch), headerState := ContentLengthNum))
    case ContentLengthWs => Stay(q)
    case Connection =>
      Stay(q.(headerState :=
        if c == 'k' then MatchingConnectionKeepAlive
        else if c == 'c' then MatchingConnectionClose
        else if c == 'u' then MatchingConnectionUpgrade
        else MatchingConnectionToken))
    case MatchingConnectionTokenStart => Stay(q)
    case _ => Stay(q.(headerState := General))
  }

  function StepHeaderValue(p: Parser, ch: octet): Step {
    if ch == CR then To(p, HeaderAlmostDone)
    else if ch == LF then To(p, HeaderValueLws)
    else if !IsHeaderChar(ch) then Fail(p, InvalidHeaderToken)
    else ValueChar(p, ch)
  }

  /** One character of a header value. */
  function ValueChar(p: Parser, ch: octet): Step {
    match p.headerState
    case General => Stay(p)
    case Connection => Stay(p)
    case TransferEncoding => Stay(p)
    case ContentLength => ContentLengthValueChar(p, ch)
    case ContentLengthNum => ContentLengthValueChar(p, ch)
    case ContentLengthWs => ContentLengthValueChar(p, ch)
    case MatchingTransferEncodingTokenStart => Stay(TransferEncodingValueChar(p, ch))
    case MatchingTransferEncodingChunked => Stay(TransferEncodingValueChar(p, ch))
    case MatchingTransferEncodingToken => Stay(TransferEncodingValueChar(p, ch))
    case TransferEncodingChunked => Stay(TransferEncodingValueChar(p, ch))
    case _ => Stay(ConnectionValueChar(p, ch))
  }

  function ContentLengthValueChar(p: Parser, ch: octet): Step {
    match p.headerState
    case ContentLength => if ch == ' ' then Stay(p) else ContentLengthChar(p, ch)
    case ContentLengthNum => ContentLengthChar(p, ch)
    case _ => // ContentLengthWs
      if ch == ' ' then Stay(p) else Fail(p, InvalidContentLength)
  }

  function TransferEncodingValueChar(p: Parser, ch: octet): Parser {
    var c := Lower(ch);
    match p.headerState
    case MatchingTransferEncodingTokenStart =>
      if c == 'c' then p.(headerState := MatchingTransferEncodingChunked)
      else if IsToken(c) then p.(headerState := MatchingTransferEncodingToken)
      else if c == ' ' || c == TAB then p
      else p.(headerState := General)
    case MatchingTransferEncodingChunked =>
      MatchValue(p.(index := p.index + 1), CHUNKED, c, TransferEncodingChunked, MatchingTransferEncodingToken)
    case MatchingTransferEncodingToken =>
      if ch == ',' then p.(headerState := MatchingTransferEncodingTokenStart, index := 0) else p
    case _ => // TransferEncodingChunked
      if ch != ' ' then p.(headerState := MatchingTransferEncodingToken) else p
  }

  function ConnectionValueChar(p: Parser, ch: octet): Parser {
    var c := Lower(ch);
    var q := p.(index := p.index + 1);
    match p.headerState
    case MatchingConnectionTokenStart =>
      if c == 'k' then p.(headerState := MatchingConnectionKeepAlive)
      else if c == 'c' then p.(headerState := MatchingConnectionClose)
      else if c == 'u' then p.(headerState := MatchingConnectionUpgrade)
      else if IsToken(c) then p.(headerState := MatchingConnectionToken)
      else if c == ' ' || c == TAB then p
      else p.(headerState := General)
    case MatchingConnectionKeepAlive => MatchValue(q, KEEP_ALIVE, c, ConnectionKeepAlive, MatchingConnectionToken)
    case MatchingConnectionClose => MatchValue(q, CLOSE, c, ConnectionClose, MatchingConnectionToken)
    case MatchingConnectionUpgrade => MatchValue(q, UPGRADE, c, ConnectionUpgrade, MatchingConnectionToken)
    case MatchingConnectionToken =>
      if ch == ',' then p.(headerState := MatchingConnectionTokenStart, index := 0) else p
    case ConnectionKeepAlive => AfterConnectionToken(p, ch)
    case ConnectionClose => AfterConnectionToken(p, ch)
    case ConnectionUpgrade => AfterConnectionToken(p, ch)
    case _ => p.(headerState := General)
  }

  function ContentLengthChar(p: Parser, ch: octet): Step {
    if ch == ' ' then Stay(p.(headerState := ContentLengthWs))
    else if !IsNum(ch) then Fail(p.(headerState := ContentLengthNum), InvalidContentLength)
    else if (ULLONG_MAX - 10) / 10 < p.contentLength then Fail(p.(headerState := ContentLengthNum), InvalidContentLength)
    else Stay(p.(headerState := ContentLengthNum, contentLength := p.contentLength * 10 + Digit(ch)))
  }

  function MatchValue(q: Parser, word: string, c: octet, whole: HeaderState, other: HeaderState): Parser
    requires |word| > 0
  {
    match Match(word, q.index, c)
    case Matching => q
    case Matched => q.(headerState := whole)
    case Mismatch => q.(headerState := other)
  }

  function AfterConnectionToken(p: Parser, ch: octet): Parser {
    if ch == ',' then
      p.(flags := FinishFlags(p.headerState, p.flags), headerState := MatchingConnectionTokenStart, index := 0)
    else if ch != ' ' then p.(headerState := MatchingConnectionToken)
    else p
  }

  /** The flags a completed header sets. */
  function FinishHeader(p: Parser): Parser {
    p.(flags := FinishFlags(p.headerState, p.flags))
  }

  function FinishFlags(h: HeaderState, flags: Flags): Flags {
    if h == ConnectionKeepAlive then flags.(keepAlive := true)
    else if h == ConnectionClose then flags.(close := true)
    else if h == TransferEncodingChunked then flags.(chunked := true)
    else if h == ConnectionUpgrade then flags.(connectionUpgrade := true)
    else flags
  }

  lemma FlagsKeep(h: HeaderState, flags: Flags)
    ensures FinishFlags(h, flags).contentLength == flags.contentLength
  {
  }

  lemma FinishKeeps(p: Parser)
    ensures
      var q := FinishHeader(p);
      && q.flags.contentLength == p.flags.contentLength && q.contentLength == p.contentLength
      && q.state == p.state && q.headerState == p.headerState && q.errno == p.errno && q.verb == p.verb
  {
    hide FinishFlags;
    FlagsKeep(p.headerState, p.flags);
  }

  function StepHeaderValueLws(p: Parser, ch: octet): Step {
    if ch == ' ' || ch == TAB then
      StepHeaderValueStart(if p.headerState == ContentLengthNum then p.(headerState := ContentLengthWs) else p, ch)
    else StepHeaderFieldStart(FinishHeader(p), ch)
  }

  function StepHeaderValueDiscardLws(p: Parser, ch: octet): Step {
    if ch == ' ' || ch == TAB then To(p, HeaderValueDiscardWs)
    else if p.headerState == ContentLength then Fail(p, InvalidContentLength)
    else StepHeaderFieldStart(FinishHeader(p), ch)
  }

  predicate ShouldKeepAlive(p: Parser) {
    if p.httpMajor > 0 && p.httpMinor > 0 then !p.flags.close else p.flags.keepAlive
  }

  /** The state in which the parser waits for a further message. */
  function NewMessage(p: Parser): State {
    if !ShouldKeepAlive(p) then Dead else if p.typ == Request then StartReq else StartRes
  }

  /** The blank line. The caller answers the end of the headers by asking for no body, so the message
      is complete and the parser returns. */
  function StepHeadersAlmostDone(p: Parser, ch: octet): Step {
    if ch != LF then Fail(p, StrictError)
    else if p.usesTransferEncoding && p.flags.contentLength then
      Fail(p.(state := HeadersAlmostDone), UnexpectedContentLength)
    else
      var q := p.(upgrade := true, flags := p.flags.(skipBody := true));
      Step(q.(state := NewMessage(q)), [HeadersComplete, MessageComplete], true)
  }

  function StepHeader(p: Parser, ch: octet): Step {
    match p.state
    case HeaderFieldStart => StepHeaderFieldStart(p, ch)
    case HeaderField => StepHeaderField(p, ch)
    case HeaderValueDiscardWs => StepHeaderValueDiscardWs(p, ch)
    case HeaderValueDiscardWsAlmostDone => Expect(p, ch, LF, HeaderValueDiscardLws)
    case HeaderValueDiscardLws => StepHeaderValueDiscardLws(p, ch)
    case HeaderValueStart => StepHeaderValueStart(p, ch)
    case HeaderValue => StepHeaderValue(p, ch)
    case HeaderValueLws => StepHeaderValueLws(p, ch)
    case HeaderAlmostDone => if ch == LF then To(p, HeaderValueLws) else Fail(p, LfExpected)
    case _ => // HeadersAlmostDone
      StepHeadersAlmostDone(p, ch)
  }

  function StepStart(p: Parser, ch: octet): Step {
    match p.state
    case Dead => if ch == CR || ch == LF then Stay(p) else Fail(p, ClosedConnection)
    case StartReqOrRes => StepStartReqOrRes(p, ch)
    case ResOrRespH =>
      if ch == 'T' then To(p.(typ := Response), ResHT)
      else if ch == 'E' then To(p.(typ := Request, verb := HEAD, index := 2), ReqMethod)
      else Fail(p, InvalidConstant)
    case _ => // ResOrRespR, which a byte other than 'T' does not leave
      if ch == 'T' then To(p.(typ := Response), ResRT) else Stay(p)
  }

  predicate InStart(s: State) {
    s.Dead? || s.StartReqOrRes? || s.ResOrRespH? || s.ResOrRespR?
  }

  predicate InStatusLine(s: State) {
    || s.StartRes? || s.ResH? || s.ResHT? || s.ResHTT? || s.ResHTTP? || s.ResR? || s.ResRT? || s.ResRTS?
    || s.ResRTSP? || s.ResHttpMajor? || s.ResHttpDot? || s.ResHttpMinor? || s.ResHttpEnd?
    || s.ResFirstStatusCode? || s.ResStatusCode? || s.ResStatusStart? || s.ResStatus? || s.ResLineAlmostDone?
  }

  predicate InHeader(s: State) {
    || s.HeaderFieldStart? || s.HeaderField? || s.HeaderValueDiscardWs? || s.HeaderValueDiscardWsAlmostDone?
    || s.HeaderValueDiscardLws? || s.HeaderValueStart? || s.HeaderValue? || s.HeaderValueLws?
    || s.HeaderAlmostDone? || s.HeadersAlmostDone?
  }

  predicate InUrl(s: State) {
    || s.ReqSchema? || s.ReqSchemaSlash? || s.ReqSchemaSlashSlash? || s.ReqServerStart? || s.ReqServer?
    || s.ReqServerWithAt? || s.ReqPath? || s.ReqQueryStringStart? || s.ReqQueryString?
    || s.ReqFragmentStart? || s.ReqFragment?
  }

  /** What the current state does with a byte. */
  function StepState(p: Parser, ch: octet): Step {
    if InStart(p.state) then StepStart(p, ch)
    else if InStatusLine(p.state) then StepStatusLine(p, ch)
    else if InHeader(p.state) then StepHeader(p, ch)
    else if InUrl(p.state) then StepUrlState(p, ch)
    else StepRequestLine(p, ch)
  }

  /** One byte: count it against the header limit, then act on it. */
  function StepByte(p: Parser, nread: nat, ch: octet): Step {
    if nread + 1 > MAX_HEADER_SIZE then Fail(p, HeaderOverflow) else StepState(p, ch)
  }

  /** What the byte that led to state `s` belongs to. */
  function KindOf(s: State): Kind {
    if InUrl(s) then UrlData
    else if s == HeaderField then FieldData
    else if s == HeaderValue then ValueData
    else NoData
  }

  // ---- A sequence of bytes ----

  /** The parser and its count of header bytes, what it told its caller, where it stopped reading,
      and whether it stopped there because a message was complete. */
  datatype Outcome = Outcome(p: Parser, nread: nat, events: seq<Event>, pos: nat, complete: bool)

  function DataEvent(s: State, ch: octet): seq<Event> {
    if KindOf(s) == NoData then [] else [Data(KindOf(s), ch)]
  }

  /** `o` after the events `before`. */
  function After(before: seq<Event>, o: Outcome): Outcome {
    o.(events := before + o.events)
  }

  /** Reads `data` from position `i` on, one byte at a time, up to an error, the end of a message,
      or the end of the data. The byte in error is not consumed. */
  function Feed(p: Parser, nread: nat, data: seq<octet>, i: nat): Outcome
    requires i <= |data|
    decreases |data| - i
  {
    if i == |data| then Outcome(p, nread, [], i, false)
    else
      var step := StepByte(p, nread, data[i]);
      if step.p.errno != OK then Outcome(step.p, nread, [], i, false)
      else if step.stop then Outcome(step.p, 0, step.notices, i + 1, true)
      else After(step.notices + DataEvent(step.p.state, data[i]), Feed(step.p, nread + 1, data, i + 1))
  }

  /** Reading `a` and then `b` is reading `a + b`, unless `a` ends the reading. */
  lemma {:induction false} FeedAppend(p: Parser, nread: nat, a: seq<octet>, b: seq<octet>, i: nat)
    requires p.errno == OK && i <= |a|
    ensures
      var first := Feed(p, nread, a, i);
      Feed(p, nread, a + b, i) ==
        if first.p.errno != OK || first.complete then first
        else After(first.events, Feed(first.p, first.nread, a + b, |a|))
    decreases |a| - i
  {
    hide StepByte;
    if i < |a| {
      var step := StepByte(p, nread, a[i]);
      assert (a + b)[i] == a[i];
      if step.p.errno == OK && !step.stop {
        FeedAppend(step.p, nread + 1, a, b, i + 1);
        var first := Feed(step.p, nread + 1, a, i + 1);
        var events := step.notices + DataEvent(step.p.state, a[i]);
        var second := Feed(first.p, first.nread, a + b, |a|);
        assert events + (first.events + second.events) == events + first.events + second.events;
      }
    }
  }

  /** Positions are relative: bytes read before play no part. */
  lemma {:induction false} FeedShift(p: Parser, nread: nat, a: seq<octet>, b: seq<octet>, i: nat)
    requires i <= |b|
    ensures Feed(p, nread, a + b, |a| + i) == var o := Feed(p, nread, b, i); o.(pos := |a| + o.pos)
    decreases |b| - i
  {
    hide StepByte;
    if i < |b| {
      assert (a + b)[|a| + i] == b[i];
      var step := StepByte(p, nread, b[i]);
      if step.p.errno == OK && !step.stop {
        FeedShift(step.p, nread + 1, a, b, i + 1);
      }
    }
  }

  /** Reading `a` and then `b` as two buffers is reading them as one: the same parser, count, error,
      consumed length and events, unless the first buffer already ends the reading. */
  lemma {:induction false} Segmentation(p: Parser, nread: nat, a: seq<octet>, b: seq<octet>)
    requires p.errno == OK
    ensures
      var first := Feed(p, nread, a, 0);
      var second := Feed(first.p, first.nread, b, 0);
      Feed(p, nread, a + b, 0) ==
        if first.p.errno != OK || first.complete then first
        else Outcome(second.p, second.nread, first.events + second.events, |a| + second.pos, second.complete)
  {
    FeedAppend(p, nread, a, b, 0);
    var first := Feed(p, nread, a, 0);
    FeedShift(first.p, first.nread, a, b, 0);
  }

  /** Where reading stops: at the end of the data unless an error or a whole message comes first. */
  lemma {:induction false} FeedPosition(p: Parser, nread: nat, data: seq<octet>, i: nat)
    requires p.errno == OK && i <= |data|
    ensures
      var o := Feed(p, nread, data, i);
      && i <= o.pos <= |data|
      && (o.complete ==> i < o.pos && o.p.errno == OK)
      && (o.p.errno == OK && !o.complete ==> o.pos == |data| && o.nread == nread + (|data| - i))
      && (i < |data| && o.p.errno == OK && !o.complete ==> o.nread <= MAX_HEADER_SIZE)
      && (o.complete ==> nread + (o.pos - i) <= MAX_HEADER_SIZE)
    decreases |data| - i
  {
    hide StepByte;
    if i < |data| {
      var step := StepByte(p, nread, data[i]);
      ByteIsCounted(p, nread, data[i]);
      if step.p.errno == OK && !step.stop {
        FeedPosition(step.p, nread + 1, data, i + 1);
      }
    }
  }

  /** A byte past the header limit is an error; any other is read by the state. */
  lemma ByteIsCounted(p: Parser, nread: nat, ch: octet)
    ensures
      StepByte(p, nread, ch).p.errno == OK ==>
        nread + 1 <= MAX_HEADER_SIZE && StepByte(p, nread, ch) == StepState(p, ch)
  {
    hide StepState;
  }
}
