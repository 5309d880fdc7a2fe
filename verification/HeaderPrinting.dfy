/**
  Header lines written out and parsed back, with what a content length and a transfer coding among them come to.
 */
module HeaderPrinting {
  import opened HttpParser
  import opened HttpExecute
  import opened Decimals
  import ContentLengths
  import opened HeaderNames
  import opened RtspPrinting

  datatype Header = Header(name: text, value: text)

  /** A name of tokens; a value that is empty or begins with a visible character, on one line. */
  predicate Printable(h: Header) {
    && h.name != []
    && (forall k :: 0 <= k < |h.name| ==> IsToken(h.name[k]))
    && (forall k :: 0 <= k < |h.value| ==> IsValueChar(h.value[k]))
    && (h.value != [] ==> h.value[0] != ' ' && h.value[0] != TAB)
  }

  predicate IsValueChar(ch: octet) {
    IsHeaderChar(ch) && ch != CR && ch != LF
  }

  /** A value broken into lines: one ends before each of the places `folds` (section 4.2 of RFC 2068). */
  function Folded(value: text, folds: set<nat>): text {
    if value == [] then []
    else
      var n := |value| - 1;
      Folded(value[..n], folds) + (if n in folds then [CR, LF] else []) + [value[n]]
  }

  /** Lines begin with white space; in a content length, with a space. */
  predicate Foldable(h: Header, folds: set<nat>) {
    forall k :: 0 <= k < |h.value| && k in folds ==>
      k > 0 && (h.value[k] == ' ' || (h.value[k] == TAB && !IsLength(h)))
  }

  function PrintHeader(h: Header, folds: set<nat>): text {
    h.name + [':', ' '] + Folded(h.value, folds) + [CR, LF]
  }

  function HeaderEvents(h: Header): seq<Event> {
    AllData(FieldData, h.name) + AllData(ValueData, h.value)
  }

  // ---- What headers say of the length ----

  predicate IsLength(h: Header) {
    LowerAll(h.name) == "content-length"
  }

  /** The parser takes a transfer coding to be given as soon as a name begins like one. */
  predicate IsCoding(h: Header) {
    "transfer-encoding" <= LowerAll(h.name)
  }

  function WithoutSpaces(s: text): text {
    if s != [] && s[|s| - 1] == ' ' then WithoutSpaces(s[..|s| - 1]) else s
  }

  /** A number: digits, with spaces behind them, and what stands before the last digit is at most a tenth of what 64 bits
      hold, rounded down and one less. */
  predicate IsNumber(s: text) {
    var d := WithoutSpaces(s);
    d != [] && AllDigits(d) && Decimal(d[..|d| - 1]) <= 1844674407370955160
  }

  function NumberOf(s: text): nat
    requires IsNumber(s)
  {
    Decimal(WithoutSpaces(s))
  }

  /** The content length that headers give: none, a number, or an error. */
  datatype Length = Absent | Given(n: nat) | Refused(e: Errno)

  /** One more header: a content length must begin with a digit, be the first one, and be a number. */
  function With(l: Length, h: Header): Length {
    if l.Refused? || !IsLength(h) then l
    else if h.value == [] || !IsNum(h.value[0]) then Refused(InvalidContentLength)
    else if l.Given? then Refused(UnexpectedContentLength)
    else if IsNumber(h.value) then Given(NumberOf(h.value))
    else Refused(InvalidContentLength)
  }

  // ---- Names ----

  /** The parser has taken this length, and seen a transfer coding or not. */
  predicate Holds(p: Parser, l: Length, coded: bool) {
    && p.errno == OK && !l.Refused?
    && (p.flags.contentLength <==> l.Given?)
    && p.contentLength == (if l.Given? then l.n else ULLONG_MAX)
    && p.usesTransferEncoding == coded
  }

  /** At the beginning of a line that may be a header. */
  predicate AtLine(p: Parser, l: Length, coded: bool) {
    && Holds(p, l, coded)
    && (p.state == HeaderFieldStart || p.state == HeaderValueLws || p.state == HeaderValueDiscardLws)
    && (p.state == HeaderValueDiscardLws ==> p.headerState != ContentLength)
  }

  /** Inside a name of which `name` has been read. */
  predicate InName(p: Parser, name: text, l: Length, coded: bool) {
    && name != [] && p.state == HeaderField && NameRead(p, LowerAll(name))
    && Holds(p, l, coded || "transfer-encoding" <= LowerAll(name))
  }

  /** A line that begins neither with white space nor with its own end is a header. */
  lemma LineBegins(p: Parser, ch: octet)
    requires p.state == HeaderFieldStart || p.state == HeaderValueLws || p.state == HeaderValueDiscardLws
    requires p.state == HeaderValueDiscardLws ==> p.headerState != ContentLength
    requires ch != ' ' && ch != TAB
    ensures StepState(p, ch) == StepHeaderFieldStart(if p.state == HeaderFieldStart then p else FinishHeader(p), ch)
  {
    hide StepStart, StepStatusLine, StepUrlState, StepRequestLine, StepHeaderValueStart, StepHeaderFieldStart, FinishHeader;
  }

  lemma TokensAreVisible(ch: octet)
    requires IsToken(ch)
    ensures ch != CR && ch != LF && ch != ' ' && ch != TAB && ch != ':'
  {
  }

  lemma FinishKeepsCoding(p: Parser)
    ensures FinishHeader(p).usesTransferEncoding == p.usesTransferEncoding
  {
    hide FinishFlags;
  }

  lemma FieldStart(p: Parser, ch: octet)
    requires p.errno == OK && IsToken(ch)
    ensures
      var step := StepHeaderFieldStart(p, ch);
      var q := step.p;
      && step == Step(q, [], false) && q.state == HeaderField && q.errno == OK && q.verb == p.verb && q.flags == p.flags
      && q.contentLength == p.contentLength && q.usesTransferEncoding == p.usesTransferEncoding
      && NameRead(q, [Lower(ch)])
  {
    hide IsToken, Lower, StepHeadersAlmostDone;
    TokensAreVisible(ch);
    HeaderNames.NameBegins(StepHeaderFieldStart(p, ch).p, Lower(ch), StepHeaderFieldStart(p, ch).p.headerState);
  }

  lemma FirstOfName(p: Parser, ch: octet, l: Length, coded: bool)
    requires AtLine(p, l, coded) && IsToken(ch)
    ensures
      var q := StepState(p, ch).p;
      StepState(p, ch) == Step(q, [], false) && InName(q, [ch], l, coded) && q.verb == p.verb
  {
    hide StepState, FinishHeader, IsToken, StepHeaderFieldStart, NameRead, Lower;
    TokensAreVisible(ch);
    LineBegins(p, ch);
    FinishKeeps(p);
    FinishKeepsCoding(p);
    FieldStart(if p.state == HeaderFieldStart then p else FinishHeader(p), ch);
    assert LowerAll([ch]) == [Lower(ch)];
  }

  lemma InFieldToken(p: Parser, ch: octet)
    requires p.state == HeaderField && IsToken(ch)
    ensures StepState(p, ch) == Step(FieldChar(p, ch), [], false)
  {
    hide StepState, IsToken, FieldChar;
    InField(p, ch);
  }

  lemma FieldCharKeepsMore(p: Parser, ch: octet)
    ensures
      var q := FieldChar(p, ch);
      q.verb == p.verb && q.flags == p.flags && q.contentLength == p.contentLength
  {
    hide Match, Lower;
  }

  lemma NextOfName(p: Parser, name: text, ch: octet, l: Length, coded: bool)
    requires InName(p, name, l, coded) && IsToken(ch)
    ensures
      var q := StepState(p, ch).p;
      StepState(p, ch) == Step(q, [], false) && InName(q, name + [ch], l, coded) && q.verb == p.verb
  {
    hide StepState, FieldChar, IsToken, Lower, NameRead;
    TokensAreVisible(ch);
    InFieldToken(p, ch);
    FieldCharKeeps(p, ch);
    FieldCharKeepsMore(p, ch);
    NameGoesOn(p, LowerAll(name), ch);
    assert LowerAll(name + [ch]) == LowerAll(name) + [Lower(ch)];
    Beginning(LowerAll(name), Lower(ch), TRANSFER_ENCODING);
  }

  lemma FieldEvent(s: State, ch: octet)
    ensures s == HeaderField ==> DataEvent(s, ch) == [Data(FieldData, ch)]
    ensures s == HeaderValue ==> DataEvent(s, ch) == [Data(ValueData, ch)]
  {
  }

  /** One more byte of the same data. */
  lemma MoreData(p: Parser, s: text, kind: Kind, q: Parser, ch: octet, r: Parser)
    requires Reads(p, s, q, AllData(kind, s)) && r.errno == OK && StepState(q, ch) == Step(r, [], false)
    requires DataEvent(r.state, ch) == [Data(kind, ch)]
    ensures Reads(p, s + [ch], r, AllData(kind, s + [ch]))
  {
    hide StepState, DataEvent;
    ReadsIsFine(p, s, q, AllData(kind, s));
    ReadsByte(q, ch, r);
    ReadsThen(p, s, q, AllData(kind, s), [ch], r, [Data(kind, ch)]);
    assert AllData(kind, s + [ch]) == AllData(kind, s) + [Data(kind, ch)];
  }

  lemma NoDataRead(p: Parser, kind: Kind)
    requires p.errno == OK
    ensures Reads(p, [], p, AllData(kind, []))
  {
    hide Reads;
    ReadsNothing(p);
    assert AllData(kind, []) == [];
  }

  /** Every byte of a header name is reported as such, and the name is recognised as what it is. */
  lemma {:induction false} ReadHeaderName(p: Parser, name: text, l: Length, coded: bool) returns (q: Parser)
    requires AtLine(p, l, coded) && name != [] && forall k :: 0 <= k < |name| ==> IsToken(name[k])
    ensures Reads(p, name, q, AllData(FieldData, name)) && InName(q, name, l, coded) && q.verb == p.verb
    decreases |name|
  {
    hide StepState, Reads, AllData, IsToken, DataEvent, NameRead, LowerAll;
    var k := |name| - 1;
    assert name[..k] + [name[k]] == name;
    if k == 0 {
      FirstOfName(p, name[0], l, coded);
      q := StepState(p, name[0]).p;
      FieldEvent(q.state, name[0]);
      NoDataRead(p, FieldData);
      MoreData(p, [], FieldData, p, name[0], q);
      assert [] + [name[0]] == name;
    } else {
      var before := ReadHeaderName(p, name[..k], l, coded);
      NextOfName(before, name[..k], name[k], l, coded);
      q := StepState(before, name[k]).p;
      FieldEvent(q.state, name[k]);
      MoreData(p, name[..k], FieldData, before, name[k], q);
    }
  }

  // ---- Values that are no lengths ----

  lemma Colon(p: Parser)
    requires p.state == HeaderField && p.errno == OK
    ensures StepState(p, ':') == Step(p.(state := HeaderValueDiscardWs), [], false)
  {
    hide StepState;
    InField(p, ':');
  }

  lemma BeforeValue(p: Parser, ch: octet)
    requires p.state == HeaderValueDiscardWs
    ensures StepState(p, ch) == StepHeaderValueDiscardWs(p, ch)
  {
    hide StepStart, StepStatusLine, StepUrlState, StepRequestLine, StepHeaderValueDiscardWs;
  }

  /** Not in a content length. */
  predicate Elsewhere(p: Parser, l: Length, coded: bool) {
    && Holds(p, l, coded)
    && !p.headerState.ContentLength? && !p.headerState.ContentLengthNum? && !p.headerState.ContentLengthWs?
  }

  lemma ValueBegins(p: Parser, ch: octet, l: Length, coded: bool)
    requires Elsewhere(p, l, coded) && p.state == HeaderValueDiscardWs && IsValueChar(ch) && ch != ' ' && ch != TAB
    ensures
      var q := StepState(p, ch).p;
      StepState(p, ch) == Step(q, [], false) && Elsewhere(q, l, coded) && q.state == HeaderValue && q.verb == p.verb
  {
    hide StepState, Lower;
    BeforeValue(p, ch);
  }

  lemma ConnectionCharIsElsewhere(p: Parser, ch: octet, l: Length, coded: bool)
    requires Elsewhere(p, l, coded)
    ensures Elsewhere(ConnectionValueChar(p, ch), l, coded) && ConnectionValueChar(p, ch).verb == p.verb
  {
    hide ConnectionValueChar;
    ContentLengths.ConnectionKeeps(p, ch);
    ConnectionCharKeepsRest(p, ch);
  }

  lemma ConnectionCharKeepsRest(p: Parser, ch: octet)
    ensures
      var q := ConnectionValueChar(p, ch);
      q.verb == p.verb && q.usesTransferEncoding == p.usesTransferEncoding
  {
    hide Match, Lower, IsToken;
  }

  lemma TransferEncodingCharIsElsewhere(p: Parser, ch: octet, l: Length, coded: bool)
    requires Elsewhere(p, l, coded)
    ensures Elsewhere(TransferEncodingValueChar(p, ch), l, coded) && TransferEncodingValueChar(p, ch).verb == p.verb
  {
    hide TransferEncodingValueChar;
    ContentLengths.TransferEncodingKeeps(p, ch);
    TransferEncodingCharKeepsRest(p, ch);
  }

  lemma TransferEncodingCharKeepsRest(p: Parser, ch: octet)
    ensures
      var q := TransferEncodingValueChar(p, ch);
      q.verb == p.verb && q.usesTransferEncoding == p.usesTransferEncoding
  {
    hide Match, Lower, IsToken;
  }

  lemma ValueGoesOn(p: Parser, ch: octet, l: Length, coded: bool)
    requires Elsewhere(p, l, coded) && p.state == HeaderValue && IsValueChar(ch)
    ensures
      var q := StepState(p, ch).p;
      StepState(p, ch) == Step(q, [], false) && Elsewhere(q, l, coded) && q.state == HeaderValue && q.verb == p.verb
  {
    hide StepState, IsHeaderChar, ConnectionValueChar, TransferEncodingValueChar;
    InValue(p, ch);
    ValueCharKeeps(p, ch);
    ConnectionCharIsElsewhere(p, ch, l, coded);
    TransferEncodingCharIsElsewhere(p, ch, l, coded);
  }

  lemma NextLine(p: Parser, ch: octet)
    requires p.state == HeaderValueLws && (ch == ' ' || ch == TAB)
    ensures
      StepState(p, ch) ==
      StepHeaderValueStart(if p.headerState == ContentLengthNum then p.(headerState := ContentLengthWs) else p, ch)
  {
    hide StepStart, StepStatusLine, StepUrlState, StepRequestLine, StepHeaderFieldStart, StepHeaderValueStart;
  }

  lemma ValueGoesOnInNextLine(p: Parser, ch: octet, l: Length, coded: bool)
    requires Elsewhere(p, l, coded) && p.state == HeaderValueLws && (ch == ' ' || ch == TAB)
    ensures
      var q := StepState(p, ch).p;
      StepState(p, ch) == Step(q, [], false) && Elsewhere(q, l, coded) && q.state == HeaderValue && q.verb == p.verb
  {
    hide StepState, Lower;
    NextLine(p, ch);
  }

  /** The end of a line within a value. */
  lemma ReadFold(p: Parser, s: text, q: Parser, es: seq<Event>, fold: bool) returns (r: Parser)
    requires Reads(p, s, q, es) && q.state == HeaderValue
    ensures Reads(p, s + (if fold then [CR, LF] else []), r, es)
    ensures r == if fold then q.(state := HeaderValueLws) else q
  {
    hide Reads;
    if fold {
      r := ReadLineEnd(p, s, q, es);
    } else {
      r := q;
      assert s + [] == s;
    }
  }

  /** One more byte of a value, perhaps in the next line. */
  lemma MoreValue(p: Parser, s: text, value: text, q: Parser, ch: octet, r: Parser)
    requires Reads(p, s, q, AllData(ValueData, value)) && r.errno == OK && StepState(q, ch) == Step(r, [], false)
    requires r.state == HeaderValue
    ensures Reads(p, s + [ch], r, AllData(ValueData, value + [ch]))
  {
    hide StepState, DataEvent, Reads;
    ReadsIsFine(p, s, q, AllData(ValueData, value));
    FieldEvent(r.state, ch);
    ReadsByte(q, ch, r);
    ReadsThen(p, s, q, AllData(ValueData, value), [ch], r, [Data(ValueData, ch)]);
    assert AllData(ValueData, value + [ch]) == AllData(ValueData, value) + [Data(ValueData, ch)];
  }

  /** Every byte of a header value is reported as such, in however many lines it comes. */
  lemma {:induction false} ReadHeaderValue(p: Parser, value: text, folds: set<nat>, l: Length, coded: bool)
      returns (q: Parser)
    requires Elsewhere(p, l, coded) && p.state == HeaderValueDiscardWs && value != []
    requires forall k :: 0 <= k < |value| ==> IsValueChar(value[k])
    requires forall k :: 0 <= k < |value| && k in folds ==> k > 0 && (value[k] == ' ' || value[k] == TAB)
    requires value[0] != ' ' && value[0] != TAB
    ensures Reads(p, Folded(value, folds), q, AllData(ValueData, value)) && Holds(q, l, coded)
    ensures Elsewhere(q, l, coded) && q.state == HeaderValue && q.verb == p.verb
    decreases |value|
  {
    hide StepState, Reads, AllData, IsValueChar, DataEvent;
    var k := |value| - 1;
    assert value[..k] + [value[k]] == value;
    if k == 0 {
      ValueBegins(p, value[0], l, coded);
      q := StepState(p, value[0]).p;
      NoDataRead(p, ValueData);
      MoreValue(p, [], [], p, value[0], q);
      assert [] + [value[0]] == value == Folded(value, folds);
    } else {
      var before := ReadHeaderValue(p, value[..k], folds, l, coded);
      var s := Folded(value[..k], folds);
      var r := ReadFold(p, s, before, AllData(ValueData, value[..k]), k in folds);
      if k in folds {
        ValueGoesOnInNextLine(r, value[k], l, coded);
      } else {
        ValueGoesOn(r, value[k], l, coded);
      }
      q := StepState(r, value[k]).p;
      MoreValue(p, s + (if k in folds then [CR, LF] else []), value[..k], r, value[k], q);
    }
  }

  // ---- Content lengths ----

  lemma NumberMore(s: text, ch: octet)
    requires IsNumber(s)
    ensures s != [] && (s[|s| - 1] != ' ' ==> AllDigits(s) && NumberOf(s) == Decimal(s))
    ensures
      IsNumber(s + [ch]) <==>
      ch == ' ' || (s[|s| - 1] != ' ' && IsNum(ch) && Decimal(s) <= 1844674407370955160)
    ensures
      IsNumber(s + [ch]) ==>
        NumberOf(s + [ch]) == if ch == ' ' then NumberOf(s) else Decimal(s) * 10 + Digit(ch)
  {
    hide Decimal, AllDigits, WithoutSpaces;
    var t := s + [ch];
    assert t[..|t| - 1] == s;
    SpacesBehind(s, ch);
    if ch != ' ' {
      NotDigits(s, ch);
      if s[|s| - 1] != ' ' && IsNum(ch) {
        DecimalOfOneMore(s, ch);
      }
    }
  }

  lemma SpacesBehind(s: text, ch: octet)
    ensures WithoutSpaces(s + [ch]) == if ch == ' ' then WithoutSpaces(s) else s + [ch]
    ensures WithoutSpaces([]) == []
    ensures s != [] && s[|s| - 1] != ' ' ==> WithoutSpaces(s) == s
  {
    assert (s + [ch])[..|s|] == s;
  }

  lemma NotDigits(s: text, ch: octet)
    requires s != []
    ensures AllDigits(s + [ch]) ==> s[|s| - 1] != ' ' && IsNum(ch) && AllDigits(s)
  {
    var t := s + [ch];
    if AllDigits(t) {
      assert IsNum(t[|s| - 1]) && IsNum(t[|s|]);
      assert forall k :: 0 <= k < |s| ==> IsNum(t[k]) && s[k] == t[k];
    }
  }

  lemma NumberOfOne(ch: octet)
    requires IsNum(ch)
    ensures IsNumber([ch]) && NumberOf([ch]) == Digit(ch)
  {
    DecimalOfOneMore([], ch);
    var s: text := [ch];
    assert [] + [ch] == s && s[..0] == [] && s[|s| - 1] != ' ';
    assert Decimal([]) == 0 && WithoutSpaces(s) == s;
  }

  /** What begins a number is a number. */
  lemma NumberLess(s: text, ch: octet)
    requires IsNumber(s + [ch]) && s != []
    ensures IsNumber(s)
  {
    var t := s + [ch];
    assert t[..|t| - 1] == s;
    if ch != ' ' {
      assert WithoutSpaces(t) == t;
      assert forall k :: 0 <= k < |s| ==> IsNum(t[k]) && s[k] == t[k];
      assert WithoutSpaces(s) == s;
      DecimalGrows(s, |s| - 1);
    }
  }

  /** The parser has read a number so far. */
  predicate InNumber(p: Parser, s: text, coded: bool) {
    && IsNumber(s) && s != [] && p.state == HeaderValue && Holds(p, Given(NumberOf(s)), coded)
    && p.headerState == if s[|s| - 1] == ' ' then ContentLengthWs else ContentLengthNum
  }

  lemma LengthBegins(p: Parser, ch: octet)
    requires p.state == HeaderValueDiscardWs && p.headerState == ContentLength && p.errno == OK
    requires ch != ' ' && ch != TAB && ch != CR && ch != LF
    ensures
      var step := StepState(p, ch);
      if !IsNum(ch) then step.p.errno == InvalidContentLength
      else if p.flags.contentLength then step.p.errno == UnexpectedContentLength
      else
        step == Stay(p.(index := 0, state := HeaderValue, flags := p.flags.(contentLength := true),
                        contentLength := Digit(ch), headerState := ContentLengthNum))
  {
    hide StepState;
    BeforeValue(p, ch);
  }

  lemma FirstOfLength(p: Parser, ch: octet, coded: bool)
    requires p.state == HeaderValueDiscardWs && p.headerState == ContentLength && Holds(p, Absent, coded) && IsNum(ch)
    ensures
      var q := StepState(p, ch).p;
      StepState(p, ch) == Step(q, [], false) && InNumber(q, [ch], coded) && q.verb == p.verb
  {
    hide StepState, IsNumber, NumberOf;
    LengthBegins(p, ch);
    NumberOfOne(ch);
  }

  lemma NextOfLength(p: Parser, s: text, ch: octet, coded: bool)
    requires InNumber(p, s, coded) && IsValueChar(ch)
    ensures
      var q := StepState(p, ch).p;
      if IsNumber(s + [ch]) then
        StepState(p, ch) == Step(q, [], false) && InNumber(q, s + [ch], coded) && q.verb == p.verb
      else q.errno == InvalidContentLength
  {
    hide StepState, IsHeaderChar, ConnectionValueChar, TransferEncodingValueChar, IsNumber, NumberOf, Decimal;
    InValue(p, ch);
    NumberMore(s, ch);
  }

  lemma LengthGoesOnInNextLine(p: Parser, s: text, coded: bool)
    requires InNumber(p.(state := HeaderValue), s, coded) && p.state == HeaderValueLws
    ensures
      var q := StepState(p, ' ').p;
      StepState(p, ' ') == Step(q, [], false) && InNumber(q, s + [' '], coded) && q.verb == p.verb
  {
    hide StepState, IsNumber, NumberOf, Decimal;
    NextLine(p, ' ');
    NumberMore(s, ' ');
  }

  /** One more byte of a number, perhaps in the next line: read, or refused. */
  lemma MoreOfLength(p: Parser, q: Parser, s: text, ch: octet, fold: bool, t: text, coded: bool) returns (r: Parser)
    requires Reads(p, t, q, AllData(ValueData, s)) && InNumber(q, s, coded) && IsValueChar(ch) && (fold ==> ch == ' ')
    ensures
      var t' := t + (if fold then [CR, LF] else []) + [ch];
      if IsNumber(s + [ch]) then
        Reads(p, t', r, AllData(ValueData, s + [ch])) && InNumber(r, s + [ch], coded) && r.verb == q.verb
      else Fails(p, t', InvalidContentLength)
  {
    hide StepState, Reads, Fails, IsValueChar, IsNumber, NumberOf;
    var a := ReadFold(p, t, q, AllData(ValueData, s), fold);
    var t1 := t + if fold then [CR, LF] else [];
    if fold {
      assert a.(state := HeaderValue) == q;
      LengthGoesOnInNextLine(a, s, coded);
    } else {
      NextOfLength(a, s, ch, coded);
    }
    r := StepState(a, ch).p;
    if IsNumber(s + [ch]) {
      MoreValue(p, t1, s, a, ch, r);
    } else {
      FailsAtByte(a, ch, InvalidContentLength);
      ReadsThenFails(p, t1, a, AllData(ValueData, s), [ch], InvalidContentLength);
    }
  }

  /** The bytes of a content length; its lines begin with a space. */
  predicate LengthBytes(s: text, folds: set<nat>) {
    && s != [] && IsNum(s[0])
    && (forall k :: 0 <= k < |s| ==> IsValueChar(s[k]))
    && (forall k :: 0 <= k < |s| && k in folds ==> k > 0 && s[k] == ' ')
  }

  lemma LengthBytesLess(s: text, folds: set<nat>)
    requires LengthBytes(s, folds) && |s| > 1
    ensures LengthBytes(s[..|s| - 1], folds)
  {
    hide IsValueChar;
  }

  /** A number is read as one, and reported as the value. */
  lemma {:induction false} ReadNumber(p: Parser, s: text, folds: set<nat>, coded: bool) returns (q: Parser)
    requires p.state == HeaderValueDiscardWs && p.headerState == ContentLength && Holds(p, Absent, coded)
    requires LengthBytes(s, folds) && IsNumber(s)
    ensures Reads(p, Folded(s, folds), q, AllData(ValueData, s)) && InNumber(q, s, coded) && q.verb == p.verb
    decreases |s|
  {
    hide StepState, Reads, AllData, IsValueChar, DataEvent, IsNumber, NumberOf;
    var k := |s| - 1;
    assert s[..k] + [s[k]] == s;
    if k == 0 {
      FirstOfLength(p, s[0], coded);
      q := StepState(p, s[0]).p;
      NoDataRead(p, ValueData);
      MoreValue(p, [], [], p, s[0], q);
      assert [] + [s[0]] == s == Folded(s, folds);
    } else {
      LengthBytesLess(s, folds);
      NumberLess(s[..k], s[k]);
      var before := ReadNumber(p, s[..k], folds, coded);
      q := MoreOfLength(p, before, s[..k], s[k], k in folds, Folded(s[..k], folds), coded);
    }
  }

  /** What is no number is refused. */
  lemma {:induction false} RefuseNumber(p: Parser, s: text, folds: set<nat>, coded: bool)
    requires p.state == HeaderValueDiscardWs && p.headerState == ContentLength && Holds(p, Absent, coded)
    requires LengthBytes(s, folds) && !IsNumber(s)
    ensures Fails(p, Folded(s, folds), InvalidContentLength)
    decreases |s|
  {
    hide StepState, Reads, Fails, AllData, IsValueChar, IsNumber, NumberOf;
    var k := |s| - 1;
    assert s[..k] + [s[k]] == s;
    if k == 0 {
      assert s == [s[0]];
      NumberOfOne(s[0]);
    } else {
      LengthBytesLess(s, folds);
      var t := Folded(s[..k], folds);
      if IsNumber(s[..k]) {
        var q := ReadNumber(p, s[..k], folds, coded);
        var r := MoreOfLength(p, q, s[..k], s[k], k in folds, t, coded);
      } else {
        RefuseNumber(p, s[..k], folds, coded);
        var rest := (if k in folds then [CR, LF] else []) + [s[k]];
        FailsWithMore(p, t, InvalidContentLength, rest);
        assert t + rest == Folded(s, folds);
      }
    }
  }

  // ---- Lines ----

  /** The end of a line with a value. */
  lemma ValueLineEnds(p: Parser)
    requires p.state == HeaderValue && p.errno == OK
    ensures
      var q := p.(state := HeaderAlmostDone);
      && StepState(p, CR) == Step(q, [], false)
      && StepState(q, LF) == Step(q.(state := HeaderValueLws), [], false)
  {
    hide StepStart, StepStatusLine, StepUrlState, StepRequestLine, ValueChar;
  }

  /** The end of a line without a value. */
  lemma EmptyLineEnds(p: Parser)
    requires p.state == HeaderValueDiscardWs && p.errno == OK
    ensures
      var q := p.(state := HeaderValueDiscardWsAlmostDone);
      && StepState(p, CR) == Step(q, [], false)
      && StepState(q, LF) == Step(q.(state := HeaderValueDiscardLws), [], false)
  {
    hide StepStart, StepStatusLine, StepUrlState, StepRequestLine, StepHeaderValueStart;
  }

  lemma LineStatesAreQuiet()
    ensures KindOf(HeaderValueDiscardWs) == KindOf(HeaderValueDiscardWsAlmostDone) == KindOf(HeaderValueDiscardLws) == NoData
    ensures KindOf(HeaderAlmostDone) == KindOf(HeaderValueLws) == NoData
  {
  }

  /** A line up to its value. */
  lemma ReadUpToValue(p: Parser, h: Header, l: Length, coded: bool) returns (q: Parser)
    requires AtLine(p, l, coded) && Printable(h)
    ensures Reads(p, h.name + [':'] + [' '], q, AllData(FieldData, h.name)) && q.verb == p.verb
    ensures q.state == HeaderValueDiscardWs && Holds(q, l, coded || IsCoding(h))
    ensures q.headerState == ContentLength <==> IsLength(h)
    ensures !q.headerState.ContentLengthNum? && !q.headerState.ContentLengthWs?
  {
    hide StepState, Reads, AllData, IsToken, IsValueChar, DataEvent, KindOf, LowerAll;
    LineStatesAreQuiet();
    var a := ReadHeaderName(p, h.name, l, coded);
    RecognisedExactlyWhen(LowerAll(h.name));
    q := a.(state := HeaderValueDiscardWs);
    Colon(a);
    var es := AllData(FieldData, h.name);
    ReadsThenQuietly(p, h.name, a, es, ':', q);
    BeforeValue(q, ' ');
    ReadsThenQuietly(p, h.name + [':'], q, es, ' ', q);
  }

  lemma ReadLineEnd(p: Parser, s: text, q: Parser, es: seq<Event>) returns (r: Parser)
    requires Reads(p, s, q, es) && (q.state == HeaderValue || q.state == HeaderValueDiscardWs)
    ensures Reads(p, s + [CR, LF], r, es)
    ensures r == q.(state := if q.state == HeaderValue then HeaderValueLws else HeaderValueDiscardLws)
  {
    hide StepState, Reads, KindOf;
    LineStatesAreQuiet();
    ReadsIsFine(p, s, q, es);
    if q.state == HeaderValue {
      ValueLineEnds(q);
      r := q.(state := HeaderValueLws);
      ReadsThenQuietly(p, s, q, es, CR, q.(state := HeaderAlmostDone));
      ReadsThenQuietly(p, s + [CR], q.(state := HeaderAlmostDone), es, LF, r);
    } else {
      EmptyLineEnds(q);
      r := q.(state := HeaderValueDiscardLws);
      ReadsThenQuietly(p, s, q, es, CR, q.(state := HeaderValueDiscardWsAlmostDone));
      ReadsThenQuietly(p, s + [CR], q.(state := HeaderValueDiscardWsAlmostDone), es, LF, r);
    }
    assert s + [CR] + [LF] == s + [CR, LF];
  }

  /** The value of a header that is not refused. */
  lemma ReadValue(p: Parser, h: Header, folds: set<nat>, l: Length, coded: bool) returns (q: Parser)
    requires Printable(h) && Foldable(h, folds) && h.value != [] && p.state == HeaderValueDiscardWs && Holds(p, l, coded)
    requires p.headerState == ContentLength <==> IsLength(h)
    requires !p.headerState.ContentLengthNum? && !p.headerState.ContentLengthWs?
    requires !With(l, h).Refused?
    ensures Reads(p, Folded(h.value, folds), q, AllData(ValueData, h.value)) && q.verb == p.verb
    ensures q.state == HeaderValue && Holds(q, With(l, h), coded)
  {
    hide Reads, IsNumber, NumberOf, IsLength, AllData, IsToken, IsValueChar;
    if IsLength(h) {
      q := ReadNumber(p, h.value, folds, coded);
    } else {
      q := ReadHeaderValue(p, h.value, folds, l, coded);
    }
  }

  lemma LineParts(h: Header, folds: set<nat>)
    ensures PrintHeader(h, folds) == h.name + [':'] + [' '] + Folded(h.value, folds) + [CR, LF]
    ensures h.value == [] ==> PrintHeader(h, folds) == h.name + [':'] + [' '] + [CR, LF]
  {
  }

  lemma NoLength(l: Length, h: Header)
    requires h.value == [] && !With(l, h).Refused?
    ensures With(l, h) == l && !IsLength(h)
  {
    hide IsLength;
  }

  /** The ends of lines change nothing else. */
  lemma HoldsStill(p: Parser, q: Parser, l: Length, coded: bool)
    requires Holds(p, l, coded) && q == p.(state := q.state)
    ensures Holds(q, l, coded)
  {
  }

  /** A header that is not refused is read whole, in however many lines it comes; its bytes but for the punctuation are
      reported. */
  lemma {:induction false} ReadHeader(p: Parser, h: Header, folds: set<nat>, l: Length, coded: bool) returns (q: Parser)
    requires AtLine(p, l, coded) && Printable(h) && Foldable(h, folds) && !With(l, h).Refused?
    ensures Reads(p, PrintHeader(h, folds), q, HeaderEvents(h))
    ensures AtLine(q, With(l, h), coded || IsCoding(h)) && q.verb == p.verb
  {
    hide Reads, AllData, IsLength, IsCoding, With, Printable, Foldable, Holds, Folded, PrintHeader;
    var b := ReadUpToValue(p, h, l, coded);
    var s, es := h.name + [':'] + [' '], AllData(FieldData, h.name);
    LineParts(h, folds);
    if h.value == [] {
      q := ReadLineEnd(p, s, b, es);
      NoLength(l, h);
      HoldsStill(b, q, l, coded || IsCoding(h));
      NoDataYet(ValueData, h.value);
      assert es + [] == es;
    } else {
      var v := Folded(h.value, folds);
      var c := ReadValue(b, h, folds, l, coded || IsCoding(h));
      ReadsThen(p, s, b, es, v, c, AllData(ValueData, h.value));
      q := ReadLineEnd(p, s + v, c, HeaderEvents(h));
      HoldsStill(c, q, With(l, h), coded || IsCoding(h));
    }
  }

  /** An empty content length is refused with the next line, if that does not go on with white space. */
  lemma EmptyLengthFails(p: Parser, ch: octet)
    requires p.state == HeaderValueDiscardLws && p.headerState == ContentLength && ch != ' ' && ch != TAB
    ensures StepState(p, ch).p.errno == InvalidContentLength
  {
    hide StepStart, StepStatusLine, StepUrlState, StepRequestLine;
  }

  lemma {:induction false} FoldedBegins(value: text, folds: set<nat>)
    requires value != [] && 0 !in folds
    ensures Folded(value, folds) != [] && Folded(value, folds)[0] == value[0]
  {
    if |value| > 1 {
      FoldedBegins(value[..|value| - 1], folds);
    } else {
      assert value[..0] == [];
    }
  }

  /** A value that is refused. */
  lemma RefuseValue(p: Parser, h: Header, folds: set<nat>, l: Length, coded: bool)
    requires Printable(h) && Foldable(h, folds) && h.value != []
    requires p.state == HeaderValueDiscardWs && Holds(p, l, coded)
    requires p.headerState == ContentLength && IsLength(h) && With(l, h).Refused?
    ensures Fails(p, Folded(h.value, folds), With(l, h).e)
  {
    hide StepState, Fails, IsNumber, NumberOf, IsLength, Folded;
    var v := Folded(h.value, folds);
    FoldedBegins(h.value, folds);
    assert v == [v[0]] + v[1..];
    if l.Absent? && IsNum(v[0]) {
      RefuseNumber(p, h.value, folds, coded);
    } else {
      LengthBegins(p, v[0]);
      FailsAtByte(p, v[0], With(l, h).e);
      FailsWithMore(p, [v[0]], With(l, h).e, v[1..]);
    }
  }

  /** Only a content length is refused; without a value it is invalid. */
  lemma RefusedIsLength(p: Parser, l: Length, coded: bool, h: Header)
    requires AtLine(p, l, coded) && With(l, h).Refused?
    ensures IsLength(h) && (h.value == [] ==> With(l, h).e == InvalidContentLength)
  {
    hide IsLength, IsNumber, NumberOf;
  }

  lemma Regroup(h: Header, folds: set<nat>, tail: text)
    ensures
      h.name + [':'] + [' '] + Folded(h.value, folds) + ([CR, LF] + tail) == PrintHeader(h, folds) + tail
  {
  }

  /** A header that is refused makes the parser fail with the error, at the latest at the byte that follows. */
  lemma {:induction false} RefuseHeader(p: Parser, h: Header, folds: set<nat>, l: Length, coded: bool, tail: text)
    requires AtLine(p, l, coded) && Printable(h) && Foldable(h, folds) && With(l, h).Refused?
    requires tail != [] && tail[0] != ' ' && tail[0] != TAB
    ensures Fails(p, PrintHeader(h, folds) + tail, With(l, h).e)
  {
    hide Reads, Fails, StepState, AllData, IsLength, IsCoding, With, Printable, Foldable, Holds, Folded, PrintHeader;
    var b := ReadUpToValue(p, h, l, coded);
    var s, es, e := h.name + [':'] + [' '], AllData(FieldData, h.name), With(l, h).e;
    LineParts(h, folds);
    RefusedIsLength(p, l, coded, h);
    if h.value == [] {
      var q := ReadLineEnd(p, s, b, es);
      EmptyLengthFails(q, tail[0]);
      ReadsIsFine(p, s + [CR, LF], q, es);
      FailsAtByte(q, tail[0], e);
      FailsWithMore(q, [tail[0]], e, tail[1..]);
      assert [tail[0]] + tail[1..] == tail;
      ReadsThenFails(p, s + [CR, LF], q, es, tail, e);
    } else {
      var v := Folded(h.value, folds);
      RefuseValue(b, h, folds, l, coded || IsCoding(h));
      ReadsThenFails(p, s, b, es, v, e);
      FailsWithMore(p, s + v, e, [CR, LF] + tail);
      Regroup(h, folds, tail);
    }
  }
}
