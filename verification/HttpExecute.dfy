/**
  The buffered parser: one pass over a buffer with marks where data begin, fast inner scans over
  header names and values, and a byte count that the scans bring up to date only when they end.
  It is proved to agree with the automaton of `HttpParser` on every buffer.
 */
module HttpExecute {
  import opened HttpParser

  /** A call back to the user of the parser: a notification, or a piece of data in one buffer. */
  datatype Callback =
    | Notify(event: Event)
    | DataCall(kind: Kind, bytes: seq<octet>)

  /** The bytes of a piece of data, one by one. */
  function AllData(kind: Kind, bytes: seq<octet>): seq<Event> {
    seq(|bytes|, i requires 0 <= i < |bytes| => Data(kind, bytes[i]))
  }

  /** Callbacks without the division of data into pieces. */
  function Flat(cs: seq<Callback>): seq<Event> {
    if cs == [] then []
    else
      var last := cs[|cs| - 1];
      Flat(cs[..|cs| - 1]) + match last { case Notify(e) => [e] case DataCall(k, bytes) => AllData(k, bytes) }
  }

  lemma FlatNotify(cs: seq<Callback>, e: Event)
    ensures Flat(cs + [Notify(e)]) == Flat(cs) + [e]
  {
  }

  lemma FlatData(cs: seq<Callback>, kind: Kind, bytes: seq<octet>)
    ensures Flat(cs + [DataCall(kind, bytes)]) == Flat(cs) + AllData(kind, bytes)
  {
  }

  lemma AllDataAppend(kind: Kind, data: seq<octet>, i: nat, j: nat, k: nat)
    requires i <= j <= k <= |data|
    ensures AllData(kind, data[i..k]) == AllData(kind, data[i..j]) + AllData(kind, data[j..k])
  {
  }

  lemma AllDataOne(kind: Kind, data: seq<octet>, j: nat)
    requires j < |data|
    ensures AllData(kind, data[j..j + 1]) == [Data(kind, data[j])]
  {
  }

  // ---- What the scans rely on ----

  lemma FeedStep(p: Parser, nread: nat, data: seq<octet>, i: nat)
    requires i < |data|
    ensures
      var step := StepByte(p, nread, data[i]);
      Feed(p, nread, data, i) ==
        if step.p.errno != OK then Outcome(step.p, nread, [], i, false)
        else if step.stop then Outcome(step.p, 0, step.notices, i + 1, true)
        else After(step.notices + DataEvent(step.p.state, data[i]), Feed(step.p, nread + 1, data, i + 1))
  {
  }

  /** The parser after the bytes from `i` to `j`, the count and errors aside. */
  function Path(p: Parser, data: seq<octet>, i: nat, j: nat): Parser
    requires i <= j <= |data|
  {
    if i == j then p else StepState(Path(p, data, i, j - 1), data[j - 1]).p
  }

  lemma PathOneMore(p: Parser, data: seq<octet>, i: nat, j: nat)
    requires i <= j < |data|
    ensures Path(p, data, i, j + 1) == StepState(Path(p, data, i, j), data[j]).p
    ensures Path(p, data, i, i) == p
  {
    hide StepState;
  }

  lemma {:induction false} PathThen(p: Parser, data: seq<octet>, i: nat, j: nat, k: nat)
    requires i <= j <= k <= |data|
    ensures Path(Path(p, data, i, j), data, j, k) == Path(p, data, i, k)
    decreases k
  {
    hide StepState;
    if j < k {
      PathThen(p, data, i, j, k - 1);
    }
  }

  /** All the way from byte `i` to byte `j` the parser is in data of one kind. */
  ghost predicate Within(p: Parser, data: seq<octet>, i: nat, j: nat, kind: Kind)
    requires i <= j <= |data|
  {
    forall k :: i <= k <= j ==> KindOf(Path(p, data, i, k).state) == kind
  }

  lemma WithinOneMore(p: Parser, data: seq<octet>, i: nat, j: nat, kind: Kind)
    requires i <= j < |data| && Within(p, data, i, j, kind)
    requires KindOf(StepState(Path(p, data, i, j), data[j]).p.state) == kind
    ensures Within(p, data, i, j + 1, kind)
  {
    hide StepState, KindOf, Path;
    PathOneMore(p, data, i, j);
  }

  /** The parser that is left after error `r`: the scan over a value writes the header state back when it ends,
      but not when it meets a byte that no value may hold. */
  function Stale(r: Parser, inValue: bool, h: HeaderState): Parser {
    if inValue && r.errno == InvalidHeaderToken then r.(headerState := h) else r
  }

  /** The automaton passes the header limit within data of one kind. */
  ghost predicate PassesLimit(p: Parser, nread: nat, data: seq<octet>, start: nat, kind: Kind)
    requires start <= |data|
  {
    var all := Feed(p, nread, data, start);
    all.p.errno == HeaderOverflow && start < all.pos <= |data| && Within(p, data, start, all.pos, kind)
  }

  /** A scan that began at `start`, `nread` bytes being counted before it, has reached `j` with
      parser `q`: so has the automaton, unless its count has passed the limit on the way. */
  ghost predicate Reached(p: Parser, nread: nat, data: seq<octet>, start: nat, q: Parser, kind: Kind, j: nat)
    requires start <= j <= |data|
  {
    var all := Feed(p, nread, data, start);
    var count := nread + (j - start);
    && nread < MAX_HEADER_SIZE
    && if count <= MAX_HEADER_SIZE then
      && all == After(AllData(kind, data[start..j]), Feed(q, count, data, j))
      && q == Path(p, data, start, j) && Within(p, data, start, j, kind)
    else PassesLimit(p, nread, data, start, kind)
  }

  /** How a scan fails: with some error when the automaton fails because of the header limit; otherwise with the
      automaton's error at the automaton's place, all before it being data. */
  ghost predicate FailsLike(p: Parser, nread: nat, data: seq<octet>, i: nat, q: Parser, kind: Kind, j: nat)
    requires i <= j <= |data|
  {
    var all := Feed(p, nread, data, i);
    && q.errno != OK
    && if all.p.errno == HeaderOverflow then PassesLimit(p, nread, data, i, kind)
       else
         && all.pos == j && !all.complete && all.events == AllData(kind, data[i..j])
         && q == Stale(all.p, kind == ValueData, p.headerState) && Within(p, data, i, j, kind)
  }

  /** One byte that the automaton reads as part of the same data. */
  lemma ReachedNext(p: Parser, nread: nat, data: seq<octet>, start: nat, q: Parser, kind: Kind, j: nat, q': Parser)
    requires start <= j < |data| && Reached(p, nread, data, start, q, kind, j)
    requires StepState(q, data[j]) == Step(q', [], false)
    requires q'.errno == OK && kind != NoData && KindOf(q'.state) == kind
    ensures Reached(p, nread, data, start, q', kind, j + 1)
  {
    hide StepState, Feed, KindOf, AllData, Within, Path;
    var count := nread + (j - start);
    if count <= MAX_HEADER_SIZE {
      FeedStep(q, count, data, j);
    }
    if count + 1 <= MAX_HEADER_SIZE {
      PathOneMore(p, data, start, j);
      WithinOneMore(p, data, start, j, kind);
      AllDataAppend(kind, data, start, j, j + 1);
      AllDataOne(kind, data, j);
      var rest := Feed(q', count + 1, data, j + 1).events;
      assert AllData(kind, data[start..j]) + ([Data(kind, data[j])] + rest)
          == AllData(kind, data[start..j]) + [Data(kind, data[j])] + rest;
    }
  }

  /** Past the limit no byte matters any more. */
  lemma ReachedOverflow(p: Parser, nread: nat, data: seq<octet>, start: nat, q: Parser, kind: Kind, j: nat, q': Parser)
    requires start <= j < |data| && Reached(p, nread, data, start, q, kind, j)
    requires nread + (j - start) >= MAX_HEADER_SIZE
    ensures Reached(p, nread, data, start, q', kind, j + 1)
  {
    hide StepState, Feed, AllData, Path, Within;
    if nread + (j - start) == MAX_HEADER_SIZE {
      FeedStep(q, MAX_HEADER_SIZE, data, j);
    }
  }

  /** The byte at `j` is an error for the automaton, or the count passes the limit. */
  lemma ReachedError(p: Parser, nread: nat, data: seq<octet>, start: nat, q: Parser, kind: Kind, j: nat, q': Parser)
    requires start <= j < |data| && Reached(p, nread, data, start, q, kind, j)
    requires StepState(q, data[j]).p.errno != OK && StepState(q, data[j]).p.errno != HeaderOverflow
    requires q' == Stale(StepState(q, data[j]).p, kind == ValueData, p.headerState)
    ensures FailsLike(p, nread, data, start, q', kind, j)
  {
    hide StepState, Feed, AllData, Path, Within;
    var count := nread + (j - start);
    if count <= MAX_HEADER_SIZE {
      FeedStep(q, count, data, j);
      assert AllData(kind, data[start..j]) + [] == AllData(kind, data[start..j]);
    }
  }

  lemma ReachedStart(p: Parser, nread: nat, data: seq<octet>, start: nat, kind: Kind)
    requires start < |data| && nread < MAX_HEADER_SIZE && KindOf(p.state) == kind
    ensures Reached(p, nread, data, start, p, kind, start)
  {
    hide Feed, KindOf, StepState;
    assert AllData(kind, data[start..start]) == [];
  }

  /** The error that a scan over a value comes to when it goes on, as it does past the header limit: that of the
      first byte that the value refuses, or the limit if its line or the buffer ends first. Of a value that
      means nothing to the parser `left` bytes are looked at, then one is not, and so on. */
  function Reports(q: Parser, data: seq<octet>, i: nat, left: nat): Errno
    requires i <= |data|
    decreases |data| - i
  {
    if i == |data| then HeaderOverflow
    else if q.headerState == General && left == 0 then Reports(q, data, i + 1, MAX_HEADER_SIZE)
    else if data[i] == CR || data[i] == LF then HeaderOverflow
    else
      var next := StepState(q, data[i]).p;
      if next.errno != OK then next.errno
      else Reports(next, data, i + 1, if q.headerState == General then left - 1 else MAX_HEADER_SIZE)
  }

  /** The error that a scan from byte `i` on reports when the header limit is passed in it. */
  function ReportsOver(p: Parser, data: seq<octet>, i: nat, kind: Kind): Errno
    requires i <= |data|
  {
    if kind == ValueData then Reports(p, data, i, MAX_HEADER_SIZE) else HeaderOverflow
  }

  /** How a scan over data of some kind may end: in error, at the end of the buffer, or at a byte
      after which the parser is no longer in such data. In error a scan over a name has counted its bytes, a scan
      over a value only the first. */
  ghost predicate Scanned(p: Parser, nread: nat, data: seq<octet>, i: nat, q: Parser, count: nat, kind: Kind, j: nat)
    requires i < |data|
  {
    var all := Feed(p, nread, data, i);
    && i <= j <= |data|
    && if q.errno != OK then
         && FailsLike(p, nread, data, i, q, kind, j)
         && if all.p.errno == HeaderOverflow then q.errno == ReportsOver(p, data, i, kind)
            else count == nread + 1 + if kind == ValueData then 0 else j - i
       else
         && count == nread + (j - i) && q == Path(p, data, i, j)
         && if KindOf(q.state) == kind then
              && j == |data| && all == After(AllData(kind, data[i..j]), Feed(q, count, data, j))
              && Within(p, data, i, j, kind)
            else
              && j > i && KindOf(q.state) == NoData
              && all == After(AllData(kind, data[i..j - 1]), Feed(q, count, data, j))
              && Within(p, data, i, j - 1, kind)
  }

  lemma ScannedMoves(p: Parser, nread: nat, data: seq<octet>, i: nat, q: Parser, count: nat, kind: Kind, j: nat)
    requires i < |data| && Scanned(p, nread, data, i, q, count, kind, j)
    ensures i <= j <= |data| && (q.errno == OK ==> i < j)
  {
    hide Feed, Path, Within, FailsLike, KindOf;
  }

  /** The scan ends past the limit: so does the automaton, at this byte or before it. */
  lemma EndsOver(p: Parser, nread: nat, data: seq<octet>, i: nat, scanned: Parser, kind: Kind, j: nat,
                 q: Parser, count: nat, end: nat)
    requires i < |data| && i <= j <= |data| && Reached(p, nread, data, i, scanned, kind, j)
    requires nread + (j - i) + (if j < |data| then 1 else 0) > MAX_HEADER_SIZE
    requires q.errno == HeaderOverflow == ReportsOver(p, data, i, kind) && i <= end <= |data|
    ensures Scanned(p, nread, data, i, q, count, kind, end)
  {
    hide Feed, Path, Within, ReportsOver;
    if j < |data| {
      ReachedOverflow(p, nread, data, i, scanned, kind, j, q);
    }
  }

  /** The scan ends with the buffer. */
  lemma EndsWithBuffer(p: Parser, nread: nat, data: seq<octet>, i: nat, q: Parser, kind: Kind)
    requires i < |data| && Reached(p, nread, data, i, q, kind, |data|)
    requires nread + (|data| - i) <= MAX_HEADER_SIZE
    requires q.errno == OK && KindOf(q.state) == kind
    ensures Scanned(p, nread, data, i, q, nread + (|data| - i), kind, |data|)
  {
    hide Feed, KindOf, AllData, Path, Within;
  }

  /** The scan ends at a byte that is not part of the data. */
  lemma EndsAtByte(p: Parser, nread: nat, data: seq<octet>, i: nat, scanned: Parser, kind: Kind, j: nat, q: Parser)
    requires i <= j < |data| && Reached(p, nread, data, i, scanned, kind, j)
    requires nread + (j - i) + 1 <= MAX_HEADER_SIZE
    requires StepState(scanned, data[j]) == Step(q, [], false)
    requires kind != NoData
    requires if q.errno == OK then KindOf(q.state) == NoData else kind == FieldData && q.errno != HeaderOverflow
    ensures Scanned(p, nread, data, i, q, nread + (j - i) + 1, kind, if q.errno != OK then j else j + 1)
  {
    hide Feed, KindOf, AllData, StepState, Path, Within;
    FeedStep(scanned, nread + (j - i), data, j);
    PathOneMore(p, data, i, j);
    assert AllData(kind, data[i..j]) + [] == AllData(kind, data[i..j]);
  }

  // ---- Header names ----

  lemma InField(q: Parser, ch: octet)
    requires q.state == HeaderField
    ensures StepState(q, ch) == StepHeaderField(q, ch)
  {
    hide StepHeaderField, StepStart, StepStatusLine, StepRequestLine;
  }

  lemma FieldCharKeeps(q: Parser, ch: octet)
    ensures FieldChar(q, ch).state == q.state && FieldChar(q, ch).errno == q.errno
    ensures q.headerState == General ==> FieldChar(q, ch) == q
  {
    hide Match, Lower;
  }

  /** One more token character. */
  lemma ScannedToken(p: Parser, nread: nat, data: seq<octet>, start: nat, q: Parser, j: nat)
    requires start <= j < |data| && Reached(p, nread, data, start, q, FieldData, j)
    requires q.errno == OK && q.state == HeaderField && IsToken(data[j])
    ensures
      var next := FieldChar(q, data[j]);
      && Reached(p, nread, data, start, next, FieldData, j + 1)
      && next.state == HeaderField && next.errno == OK
      && (q.headerState == General ==> next == q)
  {
    hide StepState, FieldChar, Reached, IsToken;
    InField(q, data[j]);
    FieldCharKeeps(q, data[j]);
    ReachedNext(p, nread, data, start, q, FieldData, j, FieldChar(q, data[j]));
  }

  /** Reads on from a character of a name: over this one, or over all that follow when the name is none that the
      parser knows. */
  method NextTokens(ghost p: Parser, ghost nread: nat, data: seq<octet>, i: nat, scanned: Parser, from: nat)
    returns (q: Parser, j: nat)
    requires i <= from < |data| && IsToken(data[from]) && nread < MAX_HEADER_SIZE
    requires scanned.errno == OK && scanned.state == HeaderField
    requires Reached(p, nread, data, i, scanned, FieldData, from)
    ensures from < j <= |data| && q.errno == OK && q.state == HeaderField
    ensures Reached(p, nread, data, i, q, FieldData, j)
  {
    hide *;
    q, j := scanned, from;
    ScannedToken(p, nread, data, i, q, j);
    if q.headerState == General {
      var limit := j + if |data| - j < MAX_HEADER_SIZE then |data| - j else MAX_HEADER_SIZE;
      while j + 1 < limit && IsToken(data[j + 1])
        invariant from <= j < limit <= |data|
        invariant Reached(p, nread, data, i, q, FieldData, j + 1)
      {
        j := j + 1;
        ScannedToken(p, nread, data, i, q, j);
      }
    } else {
      q := FieldChar(q, data[j]);
    }
    j := j + 1;
  }

  /** The scan over the characters of a header name, which are not looked at one by one unless the
      name may still be one the parser knows. */
  method ScanTokens(p: Parser, ghost nread: nat, data: seq<octet>, i: nat) returns (q: Parser, j: nat)
    requires i < |data| && p.errno == OK && p.state == HeaderField && nread < MAX_HEADER_SIZE
    ensures i <= j <= |data| && (j < |data| ==> !IsToken(data[j]))
    ensures q.errno == OK && q.state == HeaderField
    ensures Reached(p, nread, data, i, q, FieldData, j)
  {
    hide *;
    q := p;
    j := i;
    NameKinds();
    ReachedStart(p, nread, data, i, FieldData);
    while j < |data| && IsToken(data[j])
      invariant i <= j <= |data|
      invariant q.errno == OK && q.state == HeaderField
      invariant Reached(p, nread, data, i, q, FieldData, j)
    {
      q, j := NextTokens(p, nread, data, i, q, j);
    }
  }

  lemma FieldEnds(q: Parser, ch: octet)
    requires q.state == HeaderField && q.errno == OK && !IsToken(ch)
    ensures
      var q' := if ch == ':' then q.(state := HeaderValueDiscardWs) else q.(errno := InvalidHeaderToken);
      StepState(q, ch) == Step(q', [], false)
  {
    hide IsToken, StepState;
    InField(q, ch);
  }

  /** Scans a header name from byte `i` on, which the caller has counted: `counted` is the count
      with that byte. The scan counts the other bytes when it ends. */
  method ScanField(p: Parser, counted: nat, data: seq<octet>, i: nat) returns (q: Parser, count: nat, j: nat)
    requires i < |data| && p.errno == OK && p.state == HeaderField
    requires 0 < counted <= MAX_HEADER_SIZE
    ensures q.errno == OK ==> q.state == HeaderField || q.state == HeaderValueDiscardWs
    ensures Scanned(p, counted - 1, data, i, q, count, FieldData, j)
  {
    hide *;
    q, j := ScanTokens(p, counted - 1, data, i);
    count := counted + (if j == |data| then j - 1 else j) - i;
    if count > MAX_HEADER_SIZE {
      ghost var scanned, at := q, j;
      q := q.(errno := HeaderOverflow);
      j := if j == |data| then j - 1 else j;
      NothingElse(p, data, i);
      EndsOver(p, counted - 1, data, i, scanned, FieldData, at, q, count, j);
    } else if j == |data| {
      NameKinds();
      EndsWithBuffer(p, counted - 1, data, i, q, FieldData);
    } else {
      ghost var scanned := q;
      FieldEnds(q, data[j]);
      ghost var at := j;
      if data[j] == ':' {
        q := q.(state := HeaderValueDiscardWs);
        j := j + 1;
      } else {
        q := q.(errno := InvalidHeaderToken);
      }
      NameKinds();
      EndsAtByte(p, counted - 1, data, i, scanned, FieldData, at, q);
    }
  }

  lemma NothingElse(p: Parser, data: seq<octet>, i: nat)
    requires i <= |data|
    ensures ReportsOver(p, data, i, FieldData) == HeaderOverflow
  {
  }

  lemma NameKinds()
    ensures KindOf(HeaderField) == FieldData && KindOf(HeaderValue) == ValueData
    ensures KindOf(HeaderValueDiscardWs) == KindOf(HeaderAlmostDone) == KindOf(HeaderValueLws) == NoData
  {
  }

  lemma KindOfNames(s: State)
    ensures s == HeaderField <==> KindOf(s) == FieldData
    ensures s == HeaderValue <==> KindOf(s) == ValueData
    ensures s == HeaderValueDiscardWs || s == HeaderAlmostDone || s == HeaderValueLws ==> KindOf(s) == NoData
  {
  }

  // ---- Header values ----

  lemma InValue(q: Parser, ch: octet)
    requires q.state == HeaderValue
    ensures StepState(q, ch) == StepHeaderValue(q, ch)
  {
    hide StepHeaderValue, StepStart, StepStatusLine, StepRequestLine;
  }

  lemma ConnectionCharKeeps(q: Parser, ch: octet)
    ensures ConnectionValueChar(q, ch).state == q.state && ConnectionValueChar(q, ch).errno == q.errno
  {
    hide Match, Lower, IsToken;
  }

  lemma TransferEncodingCharKeeps(q: Parser, ch: octet)
    ensures TransferEncodingValueChar(q, ch).state == q.state && TransferEncodingValueChar(q, ch).errno == q.errno
  {
    hide Match, Lower, IsToken;
  }

  lemma ValueCharKeeps(q: Parser, ch: octet)
    ensures
      var next := ValueChar(q, ch);
      && next.p.state == q.state && next.notices == [] && !next.stop
      && (next.p.errno == q.errno || next.p.errno == InvalidContentLength)
    ensures q.headerState == General ==> ValueChar(q, ch).p == q
  {
    hide ConnectionValueChar, TransferEncodingValueChar;
    ConnectionCharKeeps(q, ch);
    TransferEncodingCharKeeps(q, ch);
  }

  /** One more value character. */
  lemma ScannedCharacter(p: Parser, nread: nat, data: seq<octet>, start: nat, q: Parser, j: nat)
    requires start <= j < |data| && Reached(p, nread, data, start, q, ValueData, j)
    requires q.errno == OK && q.state == HeaderValue
    requires data[j] != CR && data[j] != LF
    ensures
      var next := ValueChar(q, data[j]).p;
      if !IsHeaderChar(data[j]) then FailsLike(p, nread, data, start, BadByte(q, p.headerState), ValueData, j)
      else if next.errno != OK then FailsLike(p, nread, data, start, next, ValueData, j)
      else Reached(p, nread, data, start, next, ValueData, j + 1) && next.state == HeaderValue
    ensures q.headerState == General ==> ValueChar(q, data[j]).p == q
  {
    hide StepState, ValueChar, Reached, IsHeaderChar, Feed, FailsLike;
    var next := ValueChar(q, data[j]).p;
    InValue(q, data[j]);
    ValueCharKeeps(q, data[j]);
    if IsHeaderChar(data[j]) && next.errno == OK {
      ReachedNext(p, nread, data, start, q, ValueData, j, next);
    } else {
      ReachedError(p, nread, data, start, q, ValueData, j,
                   if IsHeaderChar(data[j]) then next else BadByte(q, p.headerState));
    }
  }

  /** The parser after a byte that no value may hold; `h` is the header state at which the scan began. */
  function BadByte(q: Parser, h: HeaderState): Parser {
    q.(errno := InvalidHeaderToken, headerState := h)
  }

  /** One byte on. */
  lemma ReportsNext(q: Parser, data: seq<octet>, j: nat, left: nat)
    requires j < |data| && q.errno == OK && q.state == HeaderValue && data[j] != CR && data[j] != LF
    requires q.headerState == General ==> left > 0
    ensures
      var next := ValueChar(q, data[j]).p;
      Reports(q, data, j, left) ==
      if !IsHeaderChar(data[j]) then InvalidHeaderToken
      else if next.errno != OK then next.errno
      else Reports(next, data, j + 1, if q.headerState == General then left - 1 else MAX_HEADER_SIZE)
  {
    hide StepState, IsHeaderChar, ValueChar;
    InValue(q, data[j]);
  }

  lemma ReportsNothing(q: Parser, data: seq<octet>, j: nat, left: nat)
    requires j <= |data| && left > 0 && (j < |data| ==> data[j] == CR || data[j] == LF)
    ensures Reports(q, data, j, left) == HeaderOverflow
  {
    hide StepState;
  }

  lemma ReportsSkipped(q: Parser, data: seq<octet>, j: nat)
    requires j < |data| && q.headerState == General
    ensures Reports(q, data, j, 0) == Reports(q, data, j + 1, MAX_HEADER_SIZE)
  {
    hide StepState;
  }

  /** Where the value has no meaning to the parser, it is skipped at once, at most `MAX_HEADER_SIZE` bytes at a
      time. The result is the last byte skipped, or the byte after such a full skip; this is not looked at, but
      then the header limit has been passed. */
  method SkipCharacters(p: Parser, ghost nread: nat, data: seq<octet>, i: nat, scanned: Parser, from: nat)
    returns (q: Parser, j: nat)
    requires i <= from < |data| && data[from] != CR && data[from] != LF && nread < MAX_HEADER_SIZE
    requires scanned.errno == OK && scanned.state == HeaderValue && scanned.headerState == General
    requires Reached(p, nread, data, i, scanned, ValueData, from)
    ensures from <= j < |data| && q.state == HeaderValue
    ensures
      var reports := Reports(scanned, data, from, MAX_HEADER_SIZE);
      if q.errno != OK then q.errno == reports && FailsLike(p, nread, data, i, q, ValueData, j)
      else
        && q == scanned && Reached(p, nread, data, i, q, ValueData, j + 1)
        && Reports(q, data, j + 1, MAX_HEADER_SIZE) == reports
  {
    hide *;
    q, j := scanned, from;
    ghost var reports := Reports(q, data, from, MAX_HEADER_SIZE);
    var limit := j + if |data| - j < MAX_HEADER_SIZE then |data| - j else MAX_HEADER_SIZE;
    while j != limit
      invariant from <= j <= limit <= |data| && q == scanned
      invariant j == from ==> data[j] != CR && data[j] != LF
      invariant Reached(p, nread, data, i, q, ValueData, j)
      invariant Reports(q, data, j, from + MAX_HEADER_SIZE - j) == reports
      decreases limit - j
    {
      if data[j] == CR || data[j] == LF {
        ReportsNothing(q, data, j, from + MAX_HEADER_SIZE - j);
        ReportsNothing(q, data, j, MAX_HEADER_SIZE);
        j := j - 1;
        return;
      }
      ScannedCharacter(p, nread, data, i, q, j);
      ReportsNext(q, data, j, from + MAX_HEADER_SIZE - j);
      if !IsHeaderChar(data[j]) {
        BadByteIs(q, p.headerState);
        q := BadByte(q, p.headerState);
        return;
      }
      j := j + 1;
    }
    if j == |data| {
      ReportsAtEnd(q, data, from + MAX_HEADER_SIZE - j, MAX_HEADER_SIZE);
      j := j - 1;
    } else {
      ReportsSkipped(q, data, j);
      ReachedOverflow(p, nread, data, i, q, ValueData, j, q);
    }
  }

  lemma ReportsAtEnd(q: Parser, data: seq<octet>, left: nat, left': nat)
    ensures Reports(q, data, |data|, left) == HeaderOverflow == Reports(q, data, |data|, left')
  {
  }

  /** Reads on from a character of a value: over this one, or over all that have no meaning to the parser. */
  method NextCharacters(p: Parser, ghost nread: nat, data: seq<octet>, i: nat, scanned: Parser, from: nat)
    returns (q: Parser, j: nat)
    requires i <= from < |data| && data[from] != CR && data[from] != LF && nread < MAX_HEADER_SIZE
    requires scanned.errno == OK && scanned.state == HeaderValue
    requires Reached(p, nread, data, i, scanned, ValueData, from)
    ensures from <= j <= |data| && q.state == HeaderValue && (q.errno == OK ==> from < j)
    ensures
      var reports := Reports(scanned, data, from, MAX_HEADER_SIZE);
      if q.errno != OK then q.errno == reports && FailsLike(p, nread, data, i, q, ValueData, j)
      else Reached(p, nread, data, i, q, ValueData, j) && Reports(q, data, j, MAX_HEADER_SIZE) == reports
  {
    hide *;
    ScannedCharacter(p, nread, data, i, scanned, from);
    ReportsNext(scanned, data, from, MAX_HEADER_SIZE);
    q, j := scanned, from;
    if !IsHeaderChar(data[j]) {
      BadByteIs(q, p.headerState);
      q := BadByte(q, p.headerState);
      return;
    }
    if q.headerState == General {
      q, j := SkipCharacters(p, nread, data, i, q, j);
    } else {
      ValueCharKeeps(q, data[j]);
      q := ValueChar(q, data[j]).p;
    }
    if q.errno != OK {
      return;
    }
    j := j + 1;
  }

  /** The scan over the characters of a header value, up to the end of the line, the end of the
      buffer, or an error. */
  method ScanCharacters(p: Parser, ghost nread: nat, data: seq<octet>, i: nat) returns (q: Parser, j: nat)
    requires i < |data| && p.errno == OK && p.state == HeaderValue && nread < MAX_HEADER_SIZE
    ensures i <= j <= |data| && q.state == HeaderValue
    ensures
      var reports := Reports(p, data, i, MAX_HEADER_SIZE);
      if q.errno != OK then q.errno == reports && FailsLike(p, nread, data, i, q, ValueData, j)
      else
        && (j < |data| ==> data[j] == CR || data[j] == LF)
        && Reached(p, nread, data, i, q, ValueData, j) && reports == HeaderOverflow
  {
    hide *;
    q := p;
    j := i;
    NameKinds();
    ReachedStart(p, nread, data, i, ValueData);
    while j < |data| && data[j] != CR && data[j] != LF
      invariant i <= j <= |data|
      invariant q.errno == OK && q.state == HeaderValue
      invariant Reached(p, nread, data, i, q, ValueData, j)
      invariant Reports(q, data, j, MAX_HEADER_SIZE) == Reports(p, data, i, MAX_HEADER_SIZE)
    {
      q, j := NextCharacters(p, nread, data, i, q, j);
      if q.errno != OK {
        return;
      }
    }
    ReportsNothing(q, data, j, MAX_HEADER_SIZE);
  }

  lemma BadByteIs(q: Parser, h: HeaderState)
    ensures BadByte(q, h).errno == InvalidHeaderToken && BadByte(q, h).state == q.state
    ensures BadByte(q, h).headerState == h
  {
  }

  lemma ValueEnds(q: Parser, ch: octet)
    requires q.state == HeaderValue && q.errno == OK && (ch == CR || ch == LF)
    ensures StepState(q, ch) == Step(q.(state := if ch == CR then HeaderAlmostDone else HeaderValueLws), [], false)
  {
    hide StepState;
    InValue(q, ch);
  }

  /** Scans a header value from byte `i` on, which the caller has counted. */
  method ScanValue(p: Parser, counted: nat, data: seq<octet>, i: nat) returns (q: Parser, count: nat, j: nat)
    requires i < |data| && p.errno == OK && p.state == HeaderValue
    requires 0 < counted <= MAX_HEADER_SIZE
    ensures q.errno == OK ==> q.state == HeaderValue || q.state == HeaderAlmostDone || q.state == HeaderValueLws
    ensures Scanned(p, counted - 1, data, i, q, count, ValueData, j)
  {
    hide *;
    q, j := ScanCharacters(p, counted - 1, data, i);
    OverValue(p, data, i);
    count := counted;
    if q.errno != OK {
      ScanFails(p, counted - 1, data, i, q, count, j);
    } else if j == |data| {
      q, count, j := EndBuffer(p, counted, data, i, q);
    } else {
      q, count, j := EndLine(p, counted, data, i, q, j);
    }
  }

  lemma OverValue(p: Parser, data: seq<octet>, i: nat)
    requires i <= |data|
    ensures ReportsOver(p, data, i, ValueData) == Reports(p, data, i, MAX_HEADER_SIZE)
  {
  }

  /** The end of the buffer within a value. */
  method EndBuffer(ghost p: Parser, counted: nat, data: seq<octet>, i: nat, scanned: Parser)
    returns (q: Parser, count: nat, j: nat)
    requires i < |data| && 0 < counted
    requires Reached(p, counted - 1, data, i, scanned, ValueData, |data|)
    requires scanned.errno == OK && scanned.state == HeaderValue
    requires ReportsOver(p, data, i, ValueData) == HeaderOverflow
    ensures q.errno == OK ==> q.state == HeaderValue
    ensures Scanned(p, counted - 1, data, i, q, count, ValueData, j)
  {
    hide *;
    q := scanned;
    count := counted + (|data| - 1) - i;
    j := |data|;
    if count > MAX_HEADER_SIZE {
      q := q.(errno := HeaderOverflow);
      j := |data| - 1;
      EndsOver(p, counted - 1, data, i, scanned, ValueData, |data|, q, count, j);
    } else {
      NameKinds();
      EndsWithBuffer(p, counted - 1, data, i, q, ValueData);
    }
  }

  /** The end of the line of a value; at a line feed the byte is taken once more, as the end of the
      line, and the header state is written back only after the bytes have been counted. */
  method EndLine(p: Parser, counted: nat, data: seq<octet>, i: nat, scanned: Parser, at: nat)
    returns (q: Parser, count: nat, j: nat)
    requires i <= at < |data| && (data[at] == CR || data[at] == LF) && 0 < counted
    requires Reached(p, counted - 1, data, i, scanned, ValueData, at)
    requires scanned.errno == OK && scanned.state == HeaderValue
    requires ReportsOver(p, data, i, ValueData) == HeaderOverflow
    ensures q.errno == OK ==> q.state == HeaderAlmostDone || q.state == HeaderValueLws
    ensures Scanned(p, counted - 1, data, i, q, count, ValueData, j)
  {
    hide *;
    q := scanned.(state := HeaderAlmostDone);
    count := counted + (at - i);
    j := at;
    if count > MAX_HEADER_SIZE {
      q := q.(errno := HeaderOverflow, headerState := if data[at] == CR then q.headerState else p.headerState);
      EndsOver(p, counted - 1, data, i, scanned, ValueData, at, q, count, j);
      return;
    }
    ValueEnds(scanned, data[at]);
    if data[at] != CR {
      q := q.(state := HeaderValueLws);
    }
    NameKinds();
    EndsAtByte(p, counted - 1, data, i, scanned, ValueData, at, q);
    j := at + 1;
  }

  lemma ScanFails(p: Parser, nread: nat, data: seq<octet>, i: nat, q: Parser, count: nat, j: nat)
    requires i < |data| && i <= j <= |data| && FailsLike(p, nread, data, i, q, ValueData, j) && count == nread + 1
    requires q.errno == ReportsOver(p, data, i, ValueData)
    ensures Scanned(p, nread, data, i, q, count, ValueData, j)
  {
    hide Feed, Within, Path, ReportsOver;
  }

  /** Inside data the automaton gives no notifications. */
  lemma QuietInData(p: Parser, ch: octet)
    requires KindOf(p.state) != NoData
    ensures
      var step := StepState(p, ch);
      step.p.errno == OK && KindOf(step.p.state) == KindOf(p.state) ==> step.notices == []
  {
    hide StepStatusLine, StepStart, StepRequestLine, ParseUrlChar, FieldChar, ValueChar, IsToken, IsHeaderChar;
    ValueCharKeeps(p, ch);
  }

  lemma NewMessageKind(p: Parser)
    ensures KindOf(NewMessage(p)) == NoData
  {
  }

  /** A step that completes a message says so and leaves no data open; another one does not say so. */
  predicate StopsRight(step: Step) {
    if step.stop then step.notices == [HeadersComplete, MessageComplete] && KindOf(step.p.state) == NoData
    else step.notices <= [MessageBegin]
  }

  lemma HeadersEnd(p: Parser, ch: octet)
    ensures StopsRight(StepHeaderFieldStart(p, ch))
    ensures StopsRight(StepHeadersAlmostDone(p, ch))
  {
    hide KindOf, NewMessage, IsToken, Lower;
    NewMessageKind(p.(upgrade := true, flags := p.flags.(skipBody := true)));
  }

  lemma StartLineGoesOn(p: Parser, ch: octet)
    ensures !StepStart(p, ch).stop && StepStart(p, ch).notices <= [MessageBegin]
    ensures !StepStatusLine(p, ch).stop && StepStatusLine(p, ch).notices <= [MessageBegin]
  {
    hide FirstMethod;
  }

  lemma RequestLineGoesOn(p: Parser, ch: octet)
    ensures !StepRequestLine(p, ch).stop && StepRequestLine(p, ch).notices <= [MessageBegin]
    ensures !StepUrlState(p, ch).stop && StepUrlState(p, ch).notices == []
  {
    hide FirstMethod, MethodString, SwitchMethod, ParseUrlChar;
  }

  lemma HeaderStops(p: Parser, ch: octet)
    ensures StopsRight(StepHeader(p, ch))
  {
    hide StepHeaderFieldStart, StepHeadersAlmostDone, KindOf, FieldChar, ValueChar, IsToken, IsHeaderChar, FinishHeader;
    ValueCharKeeps(p, ch);
    HeadersEnd(p, ch);
    HeadersEnd(FinishHeader(p), ch);
  }

  /** The parser returns to its caller only at the end of the headers. */
  lemma {:induction false} StepStopsRight(p: Parser, ch: octet)
    ensures StopsRight(StepState(p, ch))
  {
    hide StepStart, StepStatusLine, StepRequestLine, StepUrlState, StepHeader, KindOf;
    StartLineGoesOn(p, ch);
    RequestLineGoesOn(p, ch);
    HeaderStops(p, ch);
  }

  lemma StopsOutsideData(p: Parser, ch: octet)
    ensures StepState(p, ch).stop ==> KindOf(StepState(p, ch).p.state) == NoData
  {
    hide StepState, KindOf;
    StepStopsRight(p, ch);
  }

  /** The bytes of the data the parser is in, from the mark on: not yet called back. */
  function Pending(s: State, data: seq<octet>, mark: nat, i: nat): seq<Event>
    requires mark <= i <= |data|
  {
    if KindOf(s) == NoData then [] else AllData(KindOf(s), data[mark..i])
  }

  /** Where the data that the parser is in after `j` bytes of the buffer begin in it. */
  function MarkAt(p: Parser, data: seq<octet>, j: nat): (mark: nat)
    requires j <= |data|
    ensures mark <= j
  {
    if j == 0 then 0
    else if KindOf(Path(p, data, 0, j).state) == KindOf(Path(p, data, 0, j - 1).state) then MarkAt(p, data, j - 1)
    else j - 1
  }

  /** Where the last scan over a header value began, after `j` bytes of the buffer. */
  function ScanAt(p: Parser, data: seq<octet>, j: nat): (start: nat)
    requires j <= |data|
    ensures start <= j
  {
    if j == 0 then 0
    else if Path(p, data, 0, j).state == HeaderValue != Path(p, data, 0, j - 1).state then j
    else ScanAt(p, data, j - 1)
  }

  /** What has been read before byte `n` and not yet been called back. */
  function Unreported(p: Parser, data: seq<octet>, n: nat): seq<Event>
    requires n <= |data|
  {
    Pending(Path(p, data, 0, n).state, data, MarkAt(p, data, n), n)
  }

  /** The bytes counted when byte `n` is in error: a scan over a header value counts its bytes late. */
  function CountedAt(p: Parser, data: seq<octet>, n: nat): nat
    requires n <= |data|
  {
    1 + if Path(p, data, 0, n).state == HeaderValue then ScanAt(p, data, n) else n
  }

  /** The parser that an error at byte `n` leaves behind. */
  function LeftBehind(p: Parser, data: seq<octet>, n: nat, r: Parser): Parser
    requires n <= |data|
  {
    Stale(r, Path(p, data, 0, n).state == HeaderValue, Path(p, data, 0, ScanAt(p, data, n)).headerState)
  }

  /** The error that is reported when the automaton passes the header limit at byte `n`: the limit, unless a scan
      over a value that began earlier in the buffer goes on and meets a byte that the value refuses. */
  function AtLimit(p: Parser, data: seq<octet>, n: nat): Errno
    requires n <= |data|
  {
    var start := ScanAt(p, data, n);
    if Path(p, data, 0, n).state == HeaderValue && start < n
    then Reports(Path(p, data, 0, start), data, start, MAX_HEADER_SIZE)
    else HeaderOverflow
  }

  /** Parser, count and marks of the loop at byte `i`. */
  ghost predicate Tracks(p: Parser, nread: nat, data: seq<octet>, q: Parser, count: nat, mark: nat, i: nat)
    requires i <= |data|
  {
    && q == Path(p, data, 0, i) && count == nread + i
    && (KindOf(q.state) != NoData ==> mark == MarkAt(p, data, i))
    && (q.state == HeaderValue && i < |data| ==> ScanAt(p, data, i) == i)
  }

  /** The callbacks made and the pending data are what the automaton has reported before byte `i`. */
  ghost predicate Follows(p: Parser, nread: nat, data: seq<octet>, calls: seq<Callback>, q: Parser, count: nat,
                          mark: nat, i: nat)
  {
    && mark <= i <= |data|
    && Feed(p, nread, data, 0) == After(Flat(calls) + Pending(q.state, data, mark, i), Feed(q, count, data, i))
    && Tracks(p, nread, data, q, count, mark, i)
  }

  /** The error of the automaton at its place; what has not been called back is what the parser was in the middle
      of. */
  ghost predicate FailsExactly(p: Parser, nread: nat, data: seq<octet>, q: Parser, count: nat, n: nat,
                               calls: seq<Callback>)
  {
    var all := Feed(p, nread, data, 0);
    && n == all.pos <= |data| && !all.complete
    && all.events == Flat(calls) + Unreported(p, data, n)
    && count == nread + CountedAt(p, data, n)
    && q == LeftBehind(p, data, n, all.p)
  }

  /** The parser fails at byte `n` after the callbacks `calls`, and so does the automaton; at the header limit the
      error that the parser reports may be another. */
  ghost predicate FailsAs(p: Parser, nread: nat, data: seq<octet>, q: Parser, count: nat, n: nat, calls: seq<Callback>) {
    var all := Feed(p, nread, data, 0);
    && q.errno != OK && all.p.errno != OK
    && if all.p.errno == HeaderOverflow then all.pos <= |data| && q.errno == AtLimit(p, data, all.pos)
       else FailsExactly(p, nread, data, q, count, n, calls)
  }

  lemma FollowsStart(p: Parser, nread: nat, data: seq<octet>)
    ensures Follows(p, nread, data, [], p, nread, 0, 0)
  {
    hide Feed, KindOf;
    assert AllData(KindOf(p.state), data[0..0]) == [];
  }

  lemma FollowsOver(p: Parser, nread: nat, data: seq<octet>, calls: seq<Callback>, q: Parser, count: nat, mark: nat,
                    i: nat, count': nat)
    requires Follows(p, nread, data, calls, q, count, mark, i) && i < |data| && count + 1 > MAX_HEADER_SIZE
    ensures FailsAs(p, nread, data, q.(errno := HeaderOverflow), count', i, calls)
  {
    hide Feed, Flat, Pending, FailsExactly, Path, MarkAt, ScanAt, KindOf;
    FeedStep(q, count, data, i);
  }

  lemma MarksStayOne(p: Parser, data: seq<octet>, j: nat)
    requires 0 < j <= |data| && KindOf(Path(p, data, 0, j).state) == KindOf(Path(p, data, 0, j - 1).state)
    ensures MarkAt(p, data, j) == MarkAt(p, data, j - 1) && ScanAt(p, data, j) == ScanAt(p, data, j - 1)
  {
    hide KindOf, Path;
    KindOfNames(Path(p, data, 0, j).state);
    KindOfNames(Path(p, data, 0, j - 1).state);
  }

  /** Within data of one kind the marks stay. */
  lemma {:induction false} MarksStay(p: Parser, data: seq<octet>, i: nat, j: nat, kind: Kind)
    requires i <= j <= |data| && Within(Path(p, data, 0, i), data, i, j, kind)
    ensures Path(p, data, 0, j) == Path(Path(p, data, 0, i), data, i, j) && KindOf(Path(p, data, 0, j).state) == kind
    ensures MarkAt(p, data, j) == MarkAt(p, data, i) && ScanAt(p, data, j) == ScanAt(p, data, i)
    decreases j
  {
    hide KindOf, Path, MarkAt, ScanAt;
    PathThen(p, data, 0, i, j);
    if i < j {
      MarksStay(p, data, i, j - 1, kind);
      MarksStayOne(p, data, j);
    }
  }

  /** A scan: the data it ends are called back. */
  lemma FollowsScan(p: Parser, nread: nat, data: seq<octet>, calls: seq<Callback>, q: Parser, count: nat, mark: nat,
                    i: nat, q': Parser, count': nat, kind: Kind, j: nat)
    requires Follows(p, nread, data, calls, q, count, mark, i) && i < |data| && KindOf(q.state) == kind
    requires kind == FieldData || kind == ValueData
    requires Scanned(q, count, data, i, q', count', kind, j) && q'.errno == OK
    ensures mark <= i < j <= |data|
    ensures
      if KindOf(q'.state) == kind then Follows(p, nread, data, calls, q', count', mark, j)
      else j > mark && Follows(p, nread, data, calls + [DataCall(kind, data[mark..j - 1])], q', count', mark, j)
  {
    hide Feed, Flat, KindOf, AllData, Path, Within, MarkAt, ScanAt;
    var end := if KindOf(q'.state) == kind then j else j - 1;
    AllDataAppend(kind, data, mark, i, end);
    FlatData(calls, kind, data[mark..end]);
    var rest := Feed(q', count', data, j).events;
    assert Flat(calls) + AllData(kind, data[mark..i]) + (AllData(kind, data[i..end]) + rest)
        == Flat(calls) + (AllData(kind, data[mark..i]) + AllData(kind, data[i..end])) + rest;
    assert Flat(calls) + AllData(kind, data[mark..end]) + [] == Flat(calls) + AllData(kind, data[mark..end]);
    MarksStay(p, data, i, end, kind);
    PathThen(p, data, 0, i, j);
    KindOfNames(q'.state);
  }

  /** A scan in error: the data it was in are not called back. */
  lemma FollowsScanError(p: Parser, nread: nat, data: seq<octet>, calls: seq<Callback>, q: Parser, count: nat,
                         mark: nat, i: nat, q': Parser, count': nat, kind: Kind, j: nat, calls': seq<Callback>)
    requires Follows(p, nread, data, calls, q, count, mark, i) && i < |data| && KindOf(q.state) == kind
    requires kind == FieldData || kind == ValueData
    requires Scanned(q, count, data, i, q', count', kind, j) && q'.errno != OK
    requires q'.errno != HeaderOverflow ==> calls' == calls
    ensures mark <= i <= j <= |data| && FailsAs(p, nread, data, q', count', j, calls')
  {
    hide Feed, Flat, KindOf, AllData, Path, Within, MarkAt, ScanAt, Reports;
    if Feed(p, nread, data, 0).p.errno == HeaderOverflow {
      var n := Feed(p, nread, data, 0).pos;
      MarksStay(p, data, i, n, kind);
      KindOfNames(Path(p, data, 0, n).state);
      KindOfNames(q.state);
    } else {
      AllDataAppend(kind, data, mark, i, j);
      assert Flat(calls) + AllData(kind, data[mark..i]) + AllData(kind, data[i..j])
          == Flat(calls) + (AllData(kind, data[mark..i]) + AllData(kind, data[i..j]));
      MarksStay(p, data, i, j, kind);
      KindOfNames(Path(p, data, 0, j).state);
      KindOfNames(q.state);
    }
  }

  function Notices(notices: seq<Event>): seq<Callback> {
    seq(|notices|, k requires 0 <= k < |notices| => Notify(notices[k]))
  }

  lemma {:induction false} FlatNotices(calls: seq<Callback>, notices: seq<Event>)
    ensures Flat(calls + Notices(notices)) == Flat(calls) + notices
  {
    hide Flat;
    if notices == [] {
      assert calls + Notices(notices) == calls;
    } else {
      var n := |notices| - 1;
      FlatNotices(calls, notices[..n]);
      assert notices[..n] + [notices[n]] == notices;
      FlatNotify(calls + Notices(notices[..n]), notices[n]);
      assert calls + Notices(notices) == calls + Notices(notices[..n]) + [Notify(notices[n])];
    }
  }

  /** The callbacks of one byte: data that end with it come first; an empty value, which has no
      byte of its own, is called back when the line after its name turns out not to continue it. */
  function Calls(q: Parser, step: Step, data: seq<octet>, mark: nat, i: nat): seq<Callback>
    requires mark <= i < |data|
  {
    (if KindOf(q.state) != NoData && KindOf(step.p.state) != KindOf(q.state)
     then [DataCall(KindOf(q.state), data[mark..i])]
     else if q.state == HeaderValueDiscardLws && step.p.state != HeaderValueDiscardWs
     then [DataCall(ValueData, [])]
     else [])
    + Notices(step.notices)
  }

  lemma FlatCalls(calls: seq<Callback>, q: Parser, data: seq<octet>, mark: nat, i: nat)
    requires mark <= i < |data|
    requires
      KindOf(StepState(q, data[i]).p.state) == KindOf(q.state) ==>
        KindOf(q.state) == NoData || StepState(q, data[i]).notices == []
    ensures
      var step := StepState(q, data[i]);
      Flat(calls + Calls(q, step, data, mark, i)) ==
        Flat(calls)
        + (if KindOf(step.p.state) == KindOf(q.state) then [] else Pending(q.state, data, mark, i))
        + step.notices
  {
    hide StepState, KindOf, Flat;
    var step := StepState(q, data[i]);
    var before := Calls(q, step.(notices := []), data, mark, i);
    assert before + Notices(step.notices) == Calls(q, step, data, mark, i);
    assert calls + (before + Notices(step.notices)) == calls + before + Notices(step.notices);
    FlatNotices(calls + before, step.notices);
    assert AllData(ValueData, []) == [];
    if before == [] {
      assert calls + before == calls;
    } else {
      FlatData(calls, before[0].kind, before[0].bytes);
      assert before == [DataCall(before[0].kind, before[0].bytes)];
    }
  }

  /** The callbacks of one byte in error: an empty value is called back before the byte is looked at as the
      beginning of a line. */
  function ErrorCalls(q: Parser): seq<Callback> {
    if q.state == HeaderValueDiscardLws && q.headerState != ContentLength then [DataCall(ValueData, [])] else []
  }

  lemma FlatErrorCalls(calls: seq<Callback>, q: Parser)
    ensures Flat(calls + ErrorCalls(q)) == Flat(calls)
  {
    hide Flat;
    FlatData(calls, ValueData, []);
    assert AllData(ValueData, []) == [];
    assert calls + [] == calls;
  }

  /** The marks after one byte outside the scans. */
  lemma TracksByte(p: Parser, nread: nat, data: seq<octet>, q: Parser, count: nat, mark: nat, i: nat)
    requires i < |data| && mark <= i && Tracks(p, nread, data, q, count, mark, i) && q.state != HeaderValue
    ensures
      var step := StepState(q, data[i]);
      var mark' := if KindOf(step.p.state) == KindOf(q.state) then mark else i;
      Tracks(p, nread, data, step.p, count + 1, mark', i + 1)
  {
    hide StepState, KindOf, Path;
    PathOneMore(p, data, 0, i);
  }

  lemma FollowsByteError(p: Parser, nread: nat, data: seq<octet>, calls: seq<Callback>, q: Parser, count: nat,
                         mark: nat, i: nat)
    requires Follows(p, nread, data, calls, q, count, mark, i) && i < |data| && count + 1 <= MAX_HEADER_SIZE
    requires q.state != HeaderValue && StepState(q, data[i]).p.errno != OK
    ensures FailsAs(p, nread, data, StepState(q, data[i]).p, count + 1, i, calls + ErrorCalls(q))
  {
    hide StepState, KindOf, Flat, Feed, AllData, Path, MarkAt, ScanAt, ErrorCalls;
    FeedStep(q, count, data, i);
    FlatErrorCalls(calls, q);
    assert Flat(calls) + Pending(q.state, data, mark, i) + [] == Flat(calls) + Pending(q.state, data, mark, i);
  }

  /** One byte outside the scans: a mark is set where data begin. */
  lemma FollowsByte(p: Parser, nread: nat, data: seq<octet>, calls: seq<Callback>, q: Parser, count: nat, mark: nat,
                    i: nat)
    requires Follows(p, nread, data, calls, q, count, mark, i) && i < |data| && count + 1 <= MAX_HEADER_SIZE
    requires q.state != HeaderValue && StepState(q, data[i]).p.errno == OK
    ensures
      var step := StepState(q, data[i]);
      var calls' := calls + Calls(q, step, data, mark, i);
      var mark' := if KindOf(step.p.state) == KindOf(q.state) then mark else i;
      if step.stop then Feed(p, nread, data, 0) == Outcome(step.p, 0, Flat(calls'), i + 1, true)
      else Follows(p, nread, data, calls', step.p, count + 1, mark', i + 1)
  {
    hide StepState, KindOf, Flat, Feed, Calls, AllData, Tracks, Pending, DataEvent;
    FeedStep(q, count, data, i);
    var step := StepState(q, data[i]);
    StopsOutsideData(q, data[i]);
    if KindOf(q.state) != NoData {
      QuietInData(q, data[i]);
    }
    FlatCalls(calls, q, data, mark, i);
    NothingPending(q.state, data, mark, i);
    var same := KindOf(step.p.state) == KindOf(q.state);
    Regrouped(Flat(calls), Pending(q.state, data, mark, i), step.notices, DataEvent(step.p.state, data[i]),
              if step.stop then [] else Feed(step.p, count + 1, data, i + 1).events, same);
    if !step.stop {
      TracksByte(p, nread, data, q, count, mark, i);
      NextPending(q.state, step.p.state, data, mark, i);
    }
  }

  lemma NothingPending(s: State, data: seq<octet>, mark: nat, i: nat)
    requires mark <= i <= |data|
    ensures KindOf(s) == NoData ==> Pending(s, data, mark, i) == []
  {
    hide KindOf;
  }

  /** At the end of the buffer the pending data are called back. */
  lemma FollowsEnd(p: Parser, nread: nat, data: seq<octet>, calls: seq<Callback>, q: Parser, count: nat, mark: nat)
    requires Follows(p, nread, data, calls, q, count, mark, |data|)
    ensures
      var calls' := if KindOf(q.state) == NoData then calls else calls + [DataCall(KindOf(q.state), data[mark..])];
      Feed(p, nread, data, 0) == Outcome(q, count, Flat(calls'), |data|, false)
  {
    hide KindOf, Flat, AllData, Tracks;
    if KindOf(q.state) == NoData {
      assert Flat(calls) + [] + [] == Flat(calls);
    } else {
      assert data[mark..] == data[mark..|data|];
      FlatData(calls, KindOf(q.state), data[mark..]);
      assert Flat(calls) + AllData(KindOf(q.state), data[mark..]) + []
          == Flat(calls) + AllData(KindOf(q.state), data[mark..]);
    }
  }

  /** Called back, pending, the notices and the data of a byte, and the rest, before and after the byte. */
  lemma Regrouped(before: seq<Event>, pending: seq<Event>, notices: seq<Event>, data: seq<Event>, rest: seq<Event>,
                  same: bool)
    requires same ==> notices == [] || pending == []
    ensures
      before + pending + (notices + data + rest)
      == before + (if same then [] else pending) + notices + ((if same then pending else []) + data) + rest
    ensures pending == [] || !same ==> before + pending + notices == before + (if same then [] else pending) + notices
  {
    assert [] + data == data && before + [] == before;
    if same && notices == [] {
      assert before + pending + (notices + data + rest) == before + (pending + data) + rest;
      assert before + [] + notices == before;
    }
  }

  lemma NextPending(s: State, s': State, data: seq<octet>, mark: nat, i: nat)
    requires mark <= i < |data|
    ensures
      var mark' := if KindOf(s') == KindOf(s) then mark else i;
      Pending(s', data, mark', i + 1) ==
        (if KindOf(s') == KindOf(s) then Pending(s, data, mark, i) else []) + DataEvent(s', data[i])
  {
    hide KindOf, AllData;
    AllDataAppend(KindOf(s'), data, mark, i, i + 1);
    AllDataOne(KindOf(s'), data, i);
  }

  /** A name is never called back in a piece without bytes. */
  ghost predicate FieldCallsHaveBytes(calls: seq<Callback>) {
    forall k :: 0 <= k < |calls| && calls[k].DataCall? && calls[k].kind == FieldData ==> calls[k].bytes != []
  }

  lemma MoreFieldCalls(a: seq<Callback>, b: seq<Callback>)
    ensures FieldCallsHaveBytes([])
    ensures FieldCallsHaveBytes(a) && FieldCallsHaveBytes(b) ==> FieldCallsHaveBytes(a + b)
    ensures |b| == 1 && b[0].DataCall? && (b[0].kind == FieldData ==> b[0].bytes != []) ==> FieldCallsHaveBytes(b)
  {
  }

  lemma CallsOutsideNames(q: Parser, step: Step, data: seq<octet>, mark: nat, i: nat)
    requires mark <= i < |data| && q.state != HeaderField
    ensures FieldCallsHaveBytes(Calls(q, step, data, mark, i))
    ensures step.p.state == HeaderField ==> KindOf(step.p.state) != KindOf(q.state)
  {
  }

  // ---- The parser object ----

  /** `http_parser` with its callbacks recorded in the order in which they are made. */
  class Parsing {
    var p: Parser
    var nread: nat
    var trace: seq<Callback>

    constructor ()
      ensures p == INIT && nread == 0 && trace == []
    {
      p, nread, trace := INIT, 0, [];
    }

    /** Makes the parser forget everything, for a new message. */
    method Init()
      modifies this
      ensures p == INIT && nread == 0 && trace == []
    {
      p, nread, trace := INIT, 0, [];
    }

    /** Parses what the caller has read; an empty read is the end of the input. */
    method Execute(data: seq<octet>) returns (n: nat)
      modifies this
      ensures |old(trace)| <= |trace| && trace[..|old(trace)|] == old(trace)
      ensures
        var all := Feed(old(p), old(nread), data, 0);
        var calls := trace[|old(trace)|..];
        if old(p).errno != OK then n == 0 && p == old(p) && calls == []
        else if data == [] then
          var atStart := old(p).state in {Dead, StartReqOrRes, StartRes, StartReq};
          && calls == []
          && n == (if atStart then 0 else 1)
          && p == if atStart then old(p) else old(p).(errno := InvalidEofState)
        else
          if p.errno == OK then p == all.p && nread == all.nread && n == all.pos && Flat(calls) == all.events
          else FailsAs(old(p), old(nread), data, p, nread, n, calls)
      ensures old(p).state != HeaderField ==> FieldCallsHaveBytes(trace[|old(trace)|..])
    {
      if p.errno != OK {
        return 0;
      }
      if data == [] {
        if p.state in {Dead, StartReqOrRes, StartRes, StartReq} {
          return 0;
        }
        p := p.(errno := InvalidEofState);
        return 1;
      }
      hide *;
      n := ExecuteBytes(data);
    }

    /** Parses one buffer. Without an error the parser, its count and the callbacks are those of the
        automaton, byte by byte, up to the division of data into pieces. With an error that is not
        the header limit, error and place are the automaton's; called back is all that the automaton reports
        but the data the parser was in the middle of, which began in this buffer or before it; and the count
        leaves out the value it was scanning. When the automaton fails at the header limit, the parser fails
        too, and `AtLimit` is the error it reports. */
    method ExecuteBytes(data: seq<octet>) returns (n: nat)
      requires data != [] && p.errno == OK
      modifies this
      ensures |old(trace)| <= |trace| && trace[..|old(trace)|] == old(trace)
      ensures
        var all := Feed(old(p), old(nread), data, 0);
        var calls := trace[|old(trace)|..];
        if p.errno == OK then p == all.p && nread == all.nread && n == all.pos && Flat(calls) == all.events
        else FailsAs(old(p), old(nread), data, p, nread, n, calls)
      ensures old(p).state != HeaderField ==> FieldCallsHaveBytes(trace[|old(trace)|..])
    {
      hide *;
      ghost var p0, nread0 := p, nread;
      var calls := [];
      var q, stop := p, false;
      var count: nat, mark: nat, i: nat := nread, 0, 0;
      RunningStart(p, nread, data);
      while i < |data| && q.errno == OK && !stop
        invariant mark <= i <= |data| && trace == old(trace)
        invariant Running(p0, nread0, data, calls, q, count, mark, i, stop)
        decreases |data| - i, if q.errno == OK then 1 else 0
      {
        if count + 1 > MAX_HEADER_SIZE {
          RunningOver(p0, nread0, data, calls, q, count, mark, i);
          q := q.(errno := HeaderOverflow);
          count := count + 1;
        } else if q.state == HeaderField {
          calls, q, count, i := OnField(p0, nread0, data, calls, q, count, mark, i);
        } else if q.state == HeaderValue {
          calls, q, count, i := OnValue(p0, nread0, data, calls, q, count, mark, i);
        } else {
          calls, q, count, mark, i, stop := OnByte(p0, nread0, data, calls, q, count, mark, i);
        }
      }
      RunningEnd(p0, nread0, data, calls, q, count, mark, i, stop);
      if q.errno == OK && !stop && KindOf(q.state) != NoData {
        calls := calls + [DataCall(KindOf(q.state), data[mark..])];
      }
      p, nread, n := q, count, i;
      trace := trace + calls;
      assert trace[|old(trace)|..] == calls;
    }
  }

  /** The rest of a header name, as far as the buffer has it. */
  method OnField(ghost p: Parser, ghost nread: nat, data: seq<octet>, before: seq<Callback>, from: Parser, counted: nat,
                 mark: nat, start: nat)
    returns (calls: seq<Callback>, q: Parser, count: nat, i: nat)
    requires mark <= start < |data| && from.errno == OK && from.state == HeaderField && counted + 1 <= MAX_HEADER_SIZE
    requires Running(p, nread, data, before, from, counted, mark, start, false)
    ensures start <= i <= |data| && (q.errno == OK ==> start < i)
    ensures Running(p, nread, data, calls, q, count, mark, i, false)
  {
    hide *;
    calls := before;
    q, count, i := ScanField(from, counted + 1, data, start);
    ScannedMoves(from, counted, data, start, q, count, FieldData, i);
    if q.errno == OK && q.state != HeaderField {
      calls := calls + [DataCall(FieldData, data[mark..i - 1])];
    }
    RunningScan(p, nread, data, before, from, counted, mark, start, q, count, FieldData, i, calls);
  }

  /** The rest of a line of a header value, as far as the buffer has it. */
  method OnValue(ghost p: Parser, ghost nread: nat, data: seq<octet>, before: seq<Callback>, from: Parser, counted: nat,
                 mark: nat, start: nat)
    returns (calls: seq<Callback>, q: Parser, count: nat, i: nat)
    requires mark <= start < |data| && from.errno == OK && from.state == HeaderValue && counted + 1 <= MAX_HEADER_SIZE
    requires Running(p, nread, data, before, from, counted, mark, start, false)
    ensures start <= i <= |data| && (q.errno == OK ==> start < i)
    ensures Running(p, nread, data, calls, q, count, mark, i, false)
  {
    hide *;
    calls := before;
    q, count, i := ScanValue(from, counted + 1, data, start);
    ScannedMoves(from, counted, data, start, q, count, ValueData, i);
    if q.errno == OK && q.state != HeaderValue {
      calls := calls + [DataCall(ValueData, data[mark..i - 1])];
    } else if q.errno == HeaderOverflow && q.state == HeaderAlmostDone && i < |data| && data[i] == CR {
      calls := calls + [DataCall(ValueData, data[mark..i])];
    }
    RunningScan(p, nread, data, before, from, counted, mark, start, q, count, ValueData, i, calls);
  }

  /** One byte outside names and values. */
  method OnByte(ghost p: Parser, ghost nread: nat, data: seq<octet>, before: seq<Callback>, from: Parser, counted: nat,
                marked: nat, start: nat)
    returns (calls: seq<Callback>, q: Parser, count: nat, mark: nat, i: nat, stop: bool)
    requires marked <= start < |data| && from.errno == OK && counted + 1 <= MAX_HEADER_SIZE
    requires from.state != HeaderField && from.state != HeaderValue
    requires Running(p, nread, data, before, from, counted, marked, start, false)
    ensures mark <= i <= |data| && start <= i && (q.errno == OK ==> start < i)
    ensures Running(p, nread, data, calls, q, count, mark, i, stop)
  {
    hide *;
    var step := StepState(from, data[start]);
    RunningByte(p, nread, data, before, from, counted, marked, start);
    q := step.p;
    if q.errno != OK {
      calls, count, mark, i, stop := before + ErrorCalls(from), counted + 1, marked, start, false;
    } else {
      calls := before + Calls(from, step, data, marked, start);
      mark := if KindOf(q.state) == KindOf(from.state) then marked else start;
      count := if step.stop then 0 else counted + 1;
      i, stop := start + 1, step.stop;
    }
  }

  /** The state of the loop over the buffer. Unless the buffer begins inside a name, names are called back in
      pieces that have bytes. */
  ghost predicate Running(p: Parser, nread: nat, data: seq<octet>, calls: seq<Callback>, q: Parser, count: nat,
                          mark: nat, i: nat, stop: bool)
    requires mark <= i <= |data|
  {
    && (q.errno != OK ==> FailsAs(p, nread, data, q, count, i, calls))
    && (q.errno == OK && !stop ==> Follows(p, nread, data, calls, q, count, mark, i))
    && (q.errno == OK && stop ==> Feed(p, nread, data, 0) == Outcome(q, count, Flat(calls), i, true))
    && (p.state != HeaderField ==> FieldCallsHaveBytes(calls) && (q.errno == OK && q.state == HeaderField ==> mark < i))
  }

  lemma RunningStart(p: Parser, nread: nat, data: seq<octet>)
    requires p.errno == OK
    ensures Running(p, nread, data, [], p, nread, 0, 0, false)
  {
    hide Feed, Follows;
    FollowsStart(p, nread, data);
  }

  lemma RunningOver(p: Parser, nread: nat, data: seq<octet>, calls: seq<Callback>, q: Parser, count: nat, mark: nat,
                    i: nat)
    requires mark <= i < |data| && q.errno == OK && count + 1 > MAX_HEADER_SIZE
    requires Running(p, nread, data, calls, q, count, mark, i, false)
    ensures Running(p, nread, data, calls, q.(errno := HeaderOverflow), count + 1, mark, i, false)
  {
    hide Feed, Follows, FailsAs;
    FollowsOver(p, nread, data, calls, q, count, mark, i, count + 1);
  }

  /** After a scan, data that have ended are called back; a value that ends with a carriage return is called back
      before it is counted. */
  lemma RunningScan(p: Parser, nread: nat, data: seq<octet>, calls: seq<Callback>, q: Parser, count: nat, mark: nat,
                    i: nat, q': Parser, count': nat, kind: Kind, j: nat, calls': seq<Callback>)
    requires mark <= i <= j <= |data| && i < |data| && q.errno == OK
    requires (q.state == HeaderField && kind == FieldData) || (q.state == HeaderValue && kind == ValueData)
    requires Running(p, nread, data, calls, q, count, mark, i, false)
    requires Scanned(q, count, data, i, q', count', kind, j)
    requires q'.errno == OK ==>
      q'.state == q.state || q'.state == HeaderValueDiscardWs || q'.state == HeaderAlmostDone || q'.state == HeaderValueLws
    requires
      if q'.errno == OK && q'.state != q.state then mark < j && calls' == calls + [DataCall(kind, data[mark..j - 1])]
      else calls' == calls || (q'.errno == HeaderOverflow && calls' == calls + [DataCall(ValueData, data[mark..j])])
    ensures q'.errno == OK ==> i < j
    ensures Running(p, nread, data, calls', q', count', mark, j, false)
  {
    hide Feed, Follows, FailsAs, Scanned, FieldCallsHaveBytes, KindOf;
    KindOfNames(q.state);
    KindOfNames(q'.state);
    if q'.errno == OK {
      FollowsScan(p, nread, data, calls, q, count, mark, i, q', count', kind, j);
    } else {
      FollowsScanError(p, nread, data, calls, q, count, mark, i, q', count', kind, j, calls');
    }
    if q'.errno == OK && q'.state != q.state {
      MoreFieldCalls(calls, [DataCall(kind, data[mark..j - 1])]);
    } else if q'.errno == HeaderOverflow {
      MoreFieldCalls(calls, [DataCall(ValueData, data[mark..j])]);
    }
  }

  lemma RunningByte(p: Parser, nread: nat, data: seq<octet>, calls: seq<Callback>, q: Parser, count: nat, mark: nat,
                    i: nat)
    requires mark <= i < |data| && q.errno == OK && count + 1 <= MAX_HEADER_SIZE
    requires q.state != HeaderField && q.state != HeaderValue
    requires Running(p, nread, data, calls, q, count, mark, i, false)
    ensures
      var step := StepState(q, data[i]);
      if step.p.errno != OK then Running(p, nread, data, calls + ErrorCalls(q), step.p, count + 1, mark, i, false)
      else
        Running(p, nread, data, calls + Calls(q, step, data, mark, i), step.p, if step.stop then 0 else count + 1,
                if KindOf(step.p.state) == KindOf(q.state) then mark else i, i + 1, step.stop)
  {
    hide Feed, Follows, FailsAs, FieldCallsHaveBytes, KindOf, Calls, StepState, Flat;
    var step := StepState(q, data[i]);
    if step.p.errno != OK {
      FollowsByteError(p, nread, data, calls, q, count, mark, i);
      MoreFieldCalls(calls, ErrorCalls(q));
    } else {
      FollowsByte(p, nread, data, calls, q, count, mark, i);
      CallsOutsideNames(q, step, data, mark, i);
      MoreFieldCalls(calls, Calls(q, step, data, mark, i));
    }
  }

  lemma RunningEnd(p: Parser, nread: nat, data: seq<octet>, calls: seq<Callback>, q: Parser, count: nat, mark: nat,
                   i: nat, stop: bool)
    requires mark <= i <= |data| && Running(p, nread, data, calls, q, count, mark, i, stop)
    requires q.errno == OK && !stop ==> i == |data|
    ensures
      var all := Feed(p, nread, data, 0);
      var calls' :=
        if q.errno == OK && !stop && KindOf(q.state) != NoData then calls + [DataCall(KindOf(q.state), data[mark..])]
        else calls;
      && (p.state != HeaderField ==> FieldCallsHaveBytes(calls'))
      && if q.errno == OK then q == all.p && count == all.nread && i == all.pos && Flat(calls') == all.events
         else FailsAs(p, nread, data, q, count, i, calls')
  {
    hide Feed, Follows, FailsAs, FieldCallsHaveBytes, KindOf, Flat;
    if q.errno == OK && !stop {
      KindOfNames(q.state);
      FollowsEnd(p, nread, data, calls, q, count, mark);
      MoreFieldCalls(calls, [DataCall(KindOf(q.state), data[mark..])]);
    }
  }
}
