/**
  RTSP framing: requests mixed with interleaved binary frames (section 10.12 of RFC 2326), cut out
  of a byte stream that arrives in reads of any size.
 */
module RtspServerContext {
  import opened HttpParser
  import opened RtspParser

  /** What the connection's owner is called with. */
  datatype Delivery =
    | Options(url: text)
    | Describe(url: text)
    | Setup(url: text, session: text, transport: text)
    | Play(url: text, session: text)
    | Teardown(url: text, session: text)
    | Interleaved(channel: nat, payload: seq<octet>)

  /** Requests with another method are read and dropped. */
  function Dispatch(m: Message): seq<Delivery> {
    if m.verb == "OPTIONS" then [Options(m.url)]
    else if m.verb == "DESCRIBE" then [Describe(m.url)]
    else if m.verb == "SETUP" then [Setup(m.url, m.Header("Session"), m.Header("Transport"))]
    else if m.verb == "PLAY" then [Play(m.url, m.Header("Session"))]
    else if m.verb == "TEARDOWN" then [Teardown(m.url, m.Header("Session"))]
    else []
  }

  // ---- The stream as a whole ----

  const INTERLEAVED_PREFIX := 4
  const MIN_INTERLEAVED := 12

  /** What the front of the bytes is: too short to tell, not acceptable, or something of length `n`. */
  datatype Next = Wait | Bad | Got(n: nat, deliveries: seq<Delivery>)

  function NextInterleaved(data: seq<octet>): Next {
    if |data| < INTERLEAVED_PREFIX then Wait
    else
      var length := data[2] as int * 256 + data[3] as int;
      if length < MIN_INTERLEAVED then Bad
      else if |data| < length + INTERLEAVED_PREFIX then Wait
      else Got(length + INTERLEAVED_PREFIX, [Interleaved(data[1] as int, data[4..4 + length])])
  }

  function NextMessage(data: seq<octet>): Next {
    match ParseMessage(data)
    case Error => Bad
    case Continue => Wait
    case Done(n, message) => Got(n, Dispatch(message))
  }

  function NextItem(data: seq<octet>): (next: Next)
    requires data != []
    ensures next.Got? ==> 0 < next.n <= |data|
  {
    if data[0] == '$' then NextInterleaved(data)
    else
      VerdictStands(data, []);
      NextMessage(data)
  }

  /** The deliveries of a byte stream, the bytes left over, and whether it is not acceptable. */
  datatype Framing = Framing(deliveries: seq<Delivery>, rest: seq<octet>, failed: bool)

  function Frames(data: seq<octet>): Framing
    decreases |data|
  {
    if data == [] then Framing([], [], false)
    else
      match NextItem(data)
      case Wait => Framing([], data, false)
      case Bad => Framing([], data, true)
      case Got(n, deliveries) => Prepend(deliveries, Frames(data[n..]))
  }

  function Prepend(deliveries: seq<Delivery>, f: Framing): Framing {
    f.(deliveries := deliveries + f.deliveries)
  }

  // ---- Framing does not depend on segmentation ----

  /** Bytes that arrive later change nothing about an item that is already whole, or not acceptable. */
  lemma {:induction false} NextItemStands(a: seq<octet>, b: seq<octet>)
    requires a != [] && !NextItem(a).Wait?
    ensures NextItem(a + b) == NextItem(a)
  {
    if a[0] == '$' {
      if NextItem(a).Got? {
        assert (a + b)[4..NextItem(a).n] == a[4..NextItem(a).n];
      }
    } else {
      VerdictStands(a, b);
    }
  }

  lemma {:induction false} FramesAppend(a: seq<octet>, b: seq<octet>)
    ensures
      var f := Frames(a);
      Frames(a + b) == if f.failed then f.(rest := f.rest + b) else Prepend(f.deliveries, Frames(f.rest + b))
    decreases |a|
  {
    hide NextItem;
    if a == [] {
      assert a + b == b;
    } else if NextItem(a).Wait? {
    } else {
      NextItemStands(a, b);
      if NextItem(a).Got? {
        var n := NextItem(a).n;
        FramesAppend(a[n..], b);
        assert (a + b)[n..] == a[n..] + b;
        var f := Frames(a[n..]);
        var d := Frames(f.rest + b).deliveries;
        assert NextItem(a).deliveries + (f.deliveries + d) == NextItem(a).deliveries + f.deliveries + d;
      }
    }
  }

  /** The bytes kept between reads never exceed a header at the limit or the largest frame. */
  lemma {:induction false} RestIsBounded(data: seq<octet>)
    ensures !Frames(data).failed ==> |Frames(data).rest| <= 80 * 1024
    decreases |data|
  {
    if data != [] {
      VerdictStands(data, []);
      if NextItem(data).Got? {
        RestIsBounded(data[NextItem(data).n..]);
      }
    }
  }

  lemma FramesFirst(data: seq<octet>)
    requires data != []
    ensures
      var next := NextItem(data);
      Frames(data) ==
        if next.Got? then Prepend(next.deliveries, Frames(data[next.n..])) else Framing([], data, next.Bad?)
  {
  }

  /** Bytes that are not acceptable are kept, and stay so. */
  lemma {:induction false} FailedRest(data: seq<octet>)
    ensures Frames(data).failed ==> Frames(data).rest != [] && NextItem(Frames(data).rest).Bad?
    decreases |data|
  {
    if data != [] && NextItem(data).Got? {
      FailedRest(data[NextItem(data).n..]);
    }
  }

  lemma PrependTwice(a: seq<Delivery>, b: seq<Delivery>, f: Framing)
    ensures Prepend(a, Prepend(b, f)) == Prepend(a + b, f)
  {
  }

  // ---- The connection object ----

  lemma NothingLeft()
    ensures Frames([]) == Framing([], [], false)
  {
  }

  class ServerContext {
    var cache: seq<octet>
    const parser: MessageParser
    /** The calls made to the owner, in order. */
    var delivered: seq<Delivery>
    /** Everything received so far. */
    ghost var stream: seq<octet>

    ghost predicate Valid()
      reads this, parser, parser.parsing
    {
      var f := Frames(stream);
      && cache == f.rest
      && delivered == f.deliveries
      && (parser.Fresh() || (f.failed && parser.parsing.p.errno != OK && cache != [] && cache[0] != '$'))
    }

    constructor ()
      ensures Valid() && fresh(parser) && fresh(parser.parsing)
      ensures stream == [] && delivered == []
    {
      cache, delivered, stream := [], [], [];
      parser := new MessageParser();
    }

    /** One read. Whatever reads the stream came in, the calls made so far and the bytes kept are
        those of the stream as a whole, and -1 is returned exactly when it is not acceptable. */
    method Input(data: seq<octet>) returns (r: int)
      requires Valid()
      modifies this, parser, parser.parsing
      ensures Valid()
      ensures stream == old(stream) + data
      ensures r == -1 <==> Frames(stream).failed
      ensures r >= -1
    {
      hide Frames, NextItem, Dispatch, MessageParser.Fresh;
      FailedRest(stream);
      FramesAppend(stream, data);
      if cache != [] && NextItem(cache).Bad? {
        NextItemStands(cache, data);
        FramesFirst(cache + data);
      }
      assert delivered + [] == delivered;
      stream := stream + data;
      cache := cache + data;
      r := 0;
      while cache != []
        invariant stream == old(stream) + data
        invariant Frames(stream) == Prepend(delivered, Frames(cache))
        invariant parser.Fresh() ||
          (parser.parsing.p.errno != OK && cache != [] && cache[0] != '$' && NextItem(cache).Bad?)
        invariant r >= 0
        decreases |cache|
      {
        FramesFirst(cache);
        ghost var before := delivered;
        if cache[0] == '$' {
          r := ParseInterleaved();
        } else {
          r := ParseRequest();
        }
        if r == -2 {
          return 0;
        }
        if r == -1 {
          return;
        }
        PrependTwice(before, NextItem(cache).deliveries, Frames(cache[r..]));
        cache := cache[r..];
      }
      NothingLeft();
    }

    /** A frame `$`, channel, 16-bit length, payload. */
    method ParseInterleaved() returns (r: int)
      requires cache != [] && cache[0] == '$'
      modifies this`delivered
      ensures
        match NextItem(cache)
        case Wait => r == -2 && delivered == old(delivered)
        case Bad => r == -1 && delivered == old(delivered)
        case Got(n, deliveries) => r == n && delivered == old(delivered) + deliveries
    {
      if |cache| < INTERLEAVED_PREFIX {
        return -2;
      }
      var channel := cache[1] as int;
      var length := cache[2] as int * 256 + cache[3] as int;
      if length < MIN_INTERLEAVED {
        return -1;
      }
      if |cache| < length + INTERLEAVED_PREFIX {
        return -2;
      }
      delivered := delivered + [Interleaved(channel, cache[4..4 + length])];
      r := length + INTERLEAVED_PREFIX;
    }

    /** A request: parsed from its beginning each time, with the parser reset while it is incomplete. */
    method ParseRequest() returns (r: int)
      requires cache != [] && cache[0] != '$'
      requires parser.Fresh() || (parser.parsing.p.errno != OK && NextItem(cache).Bad?)
      modifies this`delivered, parser, parser.parsing
      ensures
        match NextItem(cache)
        case Wait => r == -2 && delivered == old(delivered) && parser.Fresh()
        case Bad => r == -1 && delivered == old(delivered) && parser.parsing.p.errno != OK
        case Got(n, deliveries) => r == n && delivered == old(delivered) + deliveries && parser.Fresh()
    {
      hide ParseMessage, Dispatch, MessageParser.Fresh;
      r := parser.Input(cache);
      if r == -1 {
        return;
      }
      if r == -2 {
        parser.Reset();
        return;
      }
      assert parser.complete;
      ProcessRequest();
      parser.Reset();
    }

    /** Calls the owner for one of the five methods. */
    method ProcessRequest()
      modifies this`delivered
      ensures delivered == old(delivered) + Dispatch(Message(parser.verb, parser.url, parser.headers))
    {
      var session := parser.Header("Session");
      if parser.verb == "OPTIONS" {
        delivered := delivered + [Options(parser.url)];
      } else if parser.verb == "DESCRIBE" {
        delivered := delivered + [Describe(parser.url)];
      } else if parser.verb == "SETUP" {
        delivered := delivered + [Setup(parser.url, session, parser.Header("Transport"))];
      } else if parser.verb == "PLAY" {
        delivered := delivered + [Play(parser.url, session)];
      } else if parser.verb == "TEARDOWN" {
        delivered := delivered + [Teardown(parser.url, session)];
      }
    }
  }
}
