/**
  The RTSP message parser: it turns the callbacks of the HTTP parser into a method, a URL and a
  map of headers.
 */
module RtspParser {
  import opened HttpParser
  import opened HttpExecute

  /** What the callbacks have gathered. */
  datatype Gathered = Gathered(field: text, value: text, url: text, headers: map<text, text>, complete: bool)

  const NOTHING := Gathered([], [], [], map[], false)

  /** Inserts a header unless its name is there already. */
  function Emplace(headers: map<text, text>, field: text, value: text): map<text, text> {
    if field in headers then headers else headers[field := value]
  }

  /** A header name begins only after a value: the header before is then complete. */
  function Flush(g: Gathered): Gathered {
    if g.value == [] then g
    else g.(headers := Emplace(g.headers, g.field, g.value), field := [], value := [])
  }

  function OnData(g: Gathered, kind: Kind, bytes: text): Gathered {
    match kind
    case NoData => g
    case UrlData => g.(url := g.url + bytes)
    case FieldData => var f := Flush(g); f.(field := f.field + bytes)
    case ValueData => g.(value := g.value + bytes)
  }

  function OnEvent(g: Gathered, e: Event): Gathered {
    match e
    case MessageBegin => g
    case HeadersComplete => if g.field == [] then g else g.(headers := Emplace(g.headers, g.field, g.value))
    case MessageComplete => g.(complete := true)
    case Data(kind, b) => OnData(g, kind, [b])
  }

  function OnCallback(g: Gathered, c: Callback): Gathered {
    match c
    case Notify(e) => OnEvent(g, e)
    case DataCall(kind, bytes) => OnData(g, kind, bytes)
  }

  function GatherEvents(g: Gathered, es: seq<Event>): Gathered {
    if es == [] then g else OnEvent(GatherEvents(g, es[..|es| - 1]), es[|es| - 1])
  }

  function GatherCallbacks(g: Gathered, cs: seq<Callback>): Gathered {
    if cs == [] then g else OnCallback(GatherCallbacks(g, cs[..|cs| - 1]), cs[|cs| - 1])
  }

  lemma {:induction false} GatherEventsAppend(g: Gathered, a: seq<Event>, b: seq<Event>)
    ensures GatherEvents(g, a + b) == GatherEvents(GatherEvents(g, a), b)
  {
    if b == [] {
      assert a + b == a;
    } else {
      var n := |b| - 1;
      GatherEventsAppend(g, a, b[..n]);
      assert (a + b)[..|a + b| - 1] == a + b[..n];
    }
  }

  /** Data may come in one piece or byte by byte; only for a name must the piece have bytes, since an
      empty piece would already end the header before. */
  lemma {:induction false} OnDataByBytes(g: Gathered, kind: Kind, bytes: text)
    requires kind == FieldData ==> bytes != []
    ensures OnData(g, kind, bytes) == GatherEvents(g, AllData(kind, bytes))
  {
    var es := AllData(kind, bytes);
    if bytes != [] {
      var n := |bytes| - 1;
      assert es[..n] == AllData(kind, bytes[..n]);
      assert bytes == bytes[..n] + [bytes[n]];
      if n == 0 {
        assert bytes[..n] == [] && bytes == [bytes[n]];
      } else {
        OnDataByBytes(g, kind, bytes[..n]);
        var f := Flush(g);
        assert f.field + bytes[..n] + [bytes[n]] == f.field + bytes;
        assert g.url + bytes[..n] + [bytes[n]] == g.url + bytes;
        assert g.value + bytes[..n] + [bytes[n]] == g.value + bytes;
      }
    } else {
      assert g.url + bytes == g.url && g.value + bytes == g.value;
    }
  }

  /** How data are divided into pieces makes no difference to what is gathered. */
  lemma {:induction false} DivisionIsInvisible(g: Gathered, cs: seq<Callback>)
    requires FieldCallsHaveBytes(cs)
    ensures GatherCallbacks(g, cs) == GatherEvents(g, Flat(cs))
  {
    if cs != [] {
      var n := |cs| - 1;
      assert cs[..n] + [cs[n]] == cs;
      DivisionIsInvisible(g, cs[..n]);
      match cs[n] {
        case Notify(e) =>
          GatherEventsAppend(g, Flat(cs[..n]), [e]);
          assert GatherEvents(GatherEvents(g, Flat(cs[..n])), [e]) == OnEvent(GatherEvents(g, Flat(cs[..n])), e);
        case DataCall(kind, bytes) =>
          OnDataByBytes(GatherCallbacks(g, cs[..n]), kind, bytes);
          GatherEventsAppend(g, Flat(cs[..n]), AllData(kind, bytes));
      }
    }
  }

  // ---- One message ----

  datatype Message = Message(verb: text, url: text, headers: map<text, text>) {
    /** The value of a header, empty when it is absent. */
    function Header(name: text): text {
      if name in headers then headers[name] else []
    }
  }

  datatype Parsed = Error | Continue | Done(n: nat, message: Message)

  /** Parsing the bytes from their beginning, by the automaton. */
  function ParseMessage(data: seq<octet>): Parsed {
    var o := Feed(INIT, 0, data, 0);
    var g := GatherEvents(NOTHING, o.events);
    if o.p.errno != OK then Error
    else if !o.complete then Continue
    else Done(o.pos, Message(MethodString(o.p.verb), g.url, g.headers))
  }

  /** The message-complete callback is made exactly when the parser returns for it. */
  lemma {:induction false} CompleteExactlyWhen(p: Parser, nread: nat, data: seq<octet>, i: nat, g: Gathered)
    requires i <= |data|
    ensures
      var o := Feed(p, nread, data, i);
      GatherEvents(g, o.events).complete == (g.complete || o.complete)
    decreases |data| - i
  {
    hide StepByte, StepState, KindOf, GatherEvents;
    if i == |data| {
      NothingGathered(g);
    } else {
      var step := StepByte(p, nread, data[i]);
      ByteIsCounted(p, nread, data[i]);
      if step.p.errno != OK {
        NothingGathered(g);
      } else {
        StepStopsRight(p, data[i]);
        if step.stop {
          EndCompletes(g);
        } else {
          var es := step.notices + DataEvent(step.p.state, data[i]);
          QuietEvents(g, es);
          CompleteExactlyWhen(step.p, nread + 1, data, i + 1, GatherEvents(g, es));
          GatherEventsAppend(g, es, Feed(step.p, nread + 1, data, i + 1).events);
        }
      }
    }
  }

  lemma NothingGathered(g: Gathered)
    ensures GatherEvents(g, []) == g
  {
  }

  lemma EndCompletes(g: Gathered)
    ensures GatherEvents(g, [HeadersComplete, MessageComplete]).complete
  {
    var es: seq<Event> := [HeadersComplete, MessageComplete];
    assert es[..1] == [HeadersComplete] && es[..1][..0] == [];
  }

  lemma {:induction false} QuietEvents(g: Gathered, es: seq<Event>)
    requires MessageComplete !in es
    ensures GatherEvents(g, es).complete == g.complete
  {
    if es != [] {
      QuietEvents(g, es[..|es| - 1]);
    }
  }

  /** A verdict on some bytes stands whatever bytes follow, and a whole message takes at least one
      byte and at most the header limit. */
  lemma {:induction false} VerdictStands(a: seq<octet>, b: seq<octet>)
    ensures !ParseMessage(a).Continue? ==> ParseMessage(a + b) == ParseMessage(a)
    ensures ParseMessage(a).Done? ==> 0 < ParseMessage(a).n <= |a| && ParseMessage(a).n <= MAX_HEADER_SIZE
    ensures ParseMessage(a).Continue? ==> |a| <= MAX_HEADER_SIZE
  {
    hide Feed;
    Segmentation(INIT, 0, a, b);
    FeedPosition(INIT, 0, a, 0);
  }

  // ---- The parser object ----

  class MessageParser {
    const parsing: Parsing
    var field: text
    var value: text
    var url: text
    var headers: map<text, text>
    var complete: bool
    var verb: text

    ghost function AsGathered(): Gathered
      reads this
    {
      Gathered(field, value, url, headers, complete)
    }

    /** Ready for a new message. */
    ghost predicate Fresh()
      reads this, parsing
    {
      AsGathered() == NOTHING && parsing.p == INIT && parsing.nread == 0 && parsing.trace == []
    }

    constructor ()
      ensures Fresh() && fresh(parsing)
    {
      parsing := new Parsing();
      field, value, url, headers, complete, verb := [], [], [], map[], false, "";
    }

    method Reset()
      modifies this, parsing
      ensures Fresh()
    {
      parsing.Init();
      field, value, url, headers, complete := [], [], [], map[], false;
    }

    function Header(name: text): text
      reads this
    {
      if name in headers then headers[name] else []
    }

    method OnUrl(at: text)
      modifies this`url
      ensures AsGathered() == old(OnData(AsGathered(), UrlData, at))
    {
      url := url + at;
    }

    method OnHeaderField(at: text)
      modifies this`field, this`value, this`headers
      ensures AsGathered() == old(OnData(AsGathered(), FieldData, at))
    {
      if value != [] {
        headers := Emplace(headers, field, value);
        field := [];
        value := [];
      }
      field := field + at;
    }

    method OnHeaderValue(at: text)
      modifies this`value
      ensures AsGathered() == old(OnData(AsGathered(), ValueData, at))
    {
      value := value + at;
    }

    method OnHeadersComplete() returns (r: int)
      modifies this`headers
      ensures AsGathered() == old(OnEvent(AsGathered(), HeadersComplete)) && r == 2
    {
      if field != [] {
        headers := Emplace(headers, field, value);
      }
      r := 2;
    }

    method OnMessageComplete()
      modifies this`complete, this`verb
      ensures AsGathered() == old(OnEvent(AsGathered(), MessageComplete)) && verb == MethodString(parsing.p.verb)
    {
      complete := true;
      verb := MethodString(parsing.p.verb);
    }

    /** Parses the bytes gathered so far for one message: -1 on an error, -2 when the message is not
        complete, otherwise its length. After an error only `Reset` makes it parse again. */
    method Input(data: seq<octet>) returns (r: int)
      requires data != [] && (Fresh() || parsing.p.errno != OK)
      modifies this, parsing
      ensures old(parsing.p.errno) != OK ==> r == -1 && parsing.p.errno != OK
      ensures old(Fresh()) ==>
        match ParseMessage(data)
        case Error => r == -1 && parsing.p.errno != OK
        case Continue => r == -2
        case Done(n, message) =>
          r == n && complete && verb == message.verb && url == message.url && headers == message.headers
    {
      hide Feed, Flat, OnData, OnEvent, GatherEvents;
      var made := |parsing.trace|;
      ghost var before := parsing.trace;
      var consumed := parsing.Execute(data);
      ghost var calls := parsing.trace[made..];
      RunCallbacks(made);
      if parsing.p.errno != OK {
        return -1;
      }
      assert made == 0 && parsing.trace == calls;
      DivisionIsInvisible(NOTHING, calls);
      CompleteExactlyWhen(INIT, 0, data, 0, NOTHING);
      if !complete {
        return -2;
      }
      r := consumed;
    }

    /** Makes the callbacks recorded from the `made`-th on. */
    method RunCallbacks(made: nat)
      requires made <= |parsing.trace|
      modifies this
      ensures AsGathered() == old(GatherCallbacks(AsGathered(), parsing.trace[made..]))
      ensures old(!complete) && complete ==> verb == MethodString(parsing.p.verb)
    {
      hide OnData, MethodString;
      var calls := parsing.trace[made..];
      ghost var g := AsGathered();
      var k := 0;
      while k < |calls|
        invariant k <= |calls| && AsGathered() == GatherCallbacks(g, calls[..k])
        invariant old(!complete) && complete ==> verb == MethodString(parsing.p.verb)
      {
        assert calls[..k + 1][..k] == calls[..k];
        match calls[k] {
          case Notify(e) =>
            match e {
              case MessageBegin =>
              case HeadersComplete => var _ := OnHeadersComplete();
              case MessageComplete => OnMessageComplete();
              case Data(kind, b) => OnDataCall(kind, [b]);
            }
          case DataCall(kind, bytes) => OnDataCall(kind, bytes);
        }
        k := k + 1;
      }
      assert calls[..k] == calls;
    }

    method OnDataCall(kind: Kind, bytes: text)
      modifies this`url, this`field, this`value, this`headers
      ensures AsGathered() == old(OnData(AsGathered(), kind, bytes))
    {
      match kind {
        case NoData =>
        case UrlData => OnUrl(bytes);
        case FieldData => OnHeaderField(bytes);
        case ValueData => OnHeaderValue(bytes);
      }
    }
  }
}
