/**
  The line in front of a chunk of a chunked body: its size in hexadecimal digits, and parameters that are
  ignored.
 */
module ChunkSizes {
  import opened HttpParser
  import opened Sequences

  /** The largest number that another digit may follow. */
  const CHUNK_LIMIT: nat := (ULLONG_MAX - 16) / 16

  /** The value of a byte in the table of digits, -1 for a byte that is none. The table has entries for the
      first half of the bytes only: those of the other half count as the digit 0. */
  function Unhex(ch: octet): (v: int)
    ensures -1 <= v < 16
  {
    if '0' <= ch <= '9' then ch as int - '0' as int
    else if 'A' <= ch <= 'F' then ch as int - 'A' as int + 10
    else if 'a' <= ch <= 'f' then ch as int - 'a' as int + 10
    else if ch as int >= 128 then 0
    else -1
  }

  datatype LineState = SizeStart | Size | Parameters | SizeAlmostDone | Ready

  /** Where the parser is in the line, the size read so far, and the count of bytes. */
  datatype Line = Line(state: LineState, size: nat, nread: nat, errno: Errno)

  const NEW_LINE := Line(SizeStart, 0, 0, OK)

  predicate Ended(c: Line) {
    c.errno != OK || c.state == Ready
  }

  function Refuse(c: Line, e: Errno): Line
    requires e != OK
  {
    c.(errno := e)
  }

  /** What one byte does, which has been counted. */
  function StepLine(c: Line, ch: octet): Line {
    var v := Unhex(ch);
    match c.state
    case SizeStart => if v == -1 then Refuse(c, InvalidChunkSize) else c.(state := Size, size := v)
    case Size =>
      if ch == CR then c.(state := SizeAlmostDone)
      else if v == -1 then
        if ch == ';' || ch == ' ' then c.(state := Parameters) else Refuse(c, InvalidChunkSize)
      else if CHUNK_LIMIT < c.size then Refuse(c, InvalidContentLength)
      else c.(size := c.size * 16 + v)
    case Parameters => if ch == CR then c.(state := SizeAlmostDone) else c
    case SizeAlmostDone => if ch != LF then Refuse(c, StrictError) else c.(state := Ready, nread := 0)
    case Ready => c
  }

  /** One byte, counted against the header limit; after the end of the line, or an error, nothing is read. */
  function Next(c: Line, ch: octet): Line {
    if Ended(c) then c
    else if c.nread + 1 > MAX_HEADER_SIZE then Refuse(c.(nread := c.nread + 1), HeaderOverflow)
    else StepLine(c.(nread := c.nread + 1), ch)
  }

  function Read(c: Line, s: text): Line {
    if s == [] then c else Next(Read(c, s[..|s| - 1]), s[|s| - 1])
  }

  lemma ReadOneMore(c: Line, s: text, ch: octet)
    ensures Read(c, s + [ch]) == Next(Read(c, s), ch)
  {
    assert (s + [ch])[..|s|] == s;
  }

  /** How the line is cut into buffers makes no difference. */
  lemma {:induction false} ReadAppend(c: Line, a: text, b: text)
    ensures Read(c, a + b) == Read(Read(c, a), b)
  {
    hide Next;
    if b == [] {
      assert a + b == a;
    } else {
      var n := |b| - 1;
      ReadAppend(c, a, b[..n]);
      assert a + b == (a + b[..n]) + [b[n]];
      ReadOneMore(c, a + b[..n], b[n]);
    }
  }

  lemma {:induction false} NothingMore(c: Line, s: text)
    requires Ended(c)
    ensures Read(c, s) == c
  {
    if s != [] {
      NothingMore(c, s[..|s| - 1]);
    }
  }

  lemma ReadRest(c: Line, data: text, n: nat)
    requires n <= |data|
    ensures Ended(Read(c, data[..n])) ==> Read(c, data) == Read(c, data[..n])
    ensures data[..|data|] == data
  {
    hide Next;
    TwoParts(data, n);
    ReadAppend(c, data[..n], data[n..]);
    if Ended(Read(c, data[..n])) {
      NothingMore(Read(c, data[..n]), data[n..]);
    }
  }

  lemma NotEnded(c: Line)
    ensures Ended(c) <==> c.errno != OK || c.state == Ready
  {
  }

  lemma ReadNothing(c: Line)
    ensures Read(c, []) == c
  {
  }

  // ---- The parser ----

  class ChunkLine {
    var state: LineState
    var size: nat
    var nread: nat
    var errno: Errno

    ghost function AsLine(): Line
      reads this
    {
      Line(state, size, nread, errno)
    }

    constructor ()
      ensures AsLine() == NEW_LINE
    {
      state, size, nread, errno := SizeStart, 0, 0, OK;
    }

    /** Reads the line, as far as the buffer has it. It stops behind the line feed that ends the line, or at
        the byte in error. */
    method Execute(data: text) returns (n: nat)
      requires !Ended(AsLine())
      modifies this
      ensures n <= |data| && AsLine() == Read(old(AsLine()), data)
      ensures forall k :: 0 <= k < n ==> !Ended(Read(old(AsLine()), data[..k]))
      ensures
        if errno != OK then n < |data| && Read(old(AsLine()), data[..n + 1]) == AsLine()
        else Read(old(AsLine()), data[..n]) == AsLine() && (state != Ready ==> n == |data|)
    {
      hide Read, Next, Ended;
      n := 0;
      ghost var c := AsLine();
      NotEnded(c);
      ReadNothing(c);
      assert data[..0] == [];
      while n < |data| && state != Ready
        invariant n <= |data| && errno == OK && AsLine() == Read(c, data[..n])
        invariant n < |data| && state != Ready ==> !Ended(AsLine())
        invariant forall k :: 0 <= k < n ==> !Ended(Read(c, data[..k]))
      {
        OneMore(data, n);
        ReadOneMore(c, data[..n], data[n]);
        OnByte(data[n]);
        ReadRest(c, data, n + 1);
        NotEnded(AsLine());
        if errno != OK {
          return;
        }
        n := n + 1;
      }
      ReadRest(c, data, n);
      NotEnded(AsLine());
    }

    /** One byte of the line, counted first. */
    method OnByte(ch: octet)
      requires !Ended(AsLine())
      modifies this
      ensures AsLine() == old(Next(AsLine(), ch))
    {
      nread := nread + 1;
      if nread > MAX_HEADER_SIZE {
        errno := HeaderOverflow;
        return;
      }
      if state == SizeStart {
        ReadFirstDigit(ch);
      } else if state == Size {
        ReadDigit(ch);
      } else if state == Parameters {
        if ch == CR {
          state := SizeAlmostDone;
        }
      } else if ch != LF {
        errno := StrictError;
      } else {
        nread := 0;
        state := Ready;
      }
    }

    method ReadFirstDigit(ch: octet)
      requires state == SizeStart && errno == OK
      modifies this
      ensures AsLine() == old(StepLine(AsLine(), ch))
    {
      var v := Unhex(ch);
      if v == -1 {
        errno := InvalidChunkSize;
      } else {
        size := v;
        state := Size;
      }
    }

    method ReadDigit(ch: octet)
      requires state == Size && errno == OK
      modifies this
      ensures AsLine() == old(StepLine(AsLine(), ch))
    {
      if ch == CR {
        state := SizeAlmostDone;
        return;
      }
      var v := Unhex(ch);
      if v == -1 {
        if ch == ';' || ch == ' ' {
          state := Parameters;
          return;
        }
        errno := InvalidChunkSize;
        return;
      }
      var t := size * 16 + v;
      if (ULLONG_MAX - 16) / 16 < size {
        errno := InvalidContentLength;
        return;
      }
      size := t;
    }
  }

  // ---- Numbers ----

  predicate AllHex(s: text) {
    forall k :: 0 <= k < |s| ==> Unhex(s[k]) >= 0
  }

  /** The value of a string of hexadecimal digits. */
  function Hex(s: text): nat
    requires AllHex(s)
  {
    if s == [] then 0 else Hex(s[..|s| - 1]) * 16 + Unhex(s[|s| - 1])
  }

  lemma HexOfOneMore(s: text, ch: octet)
    requires AllHex(s) && Unhex(ch) >= 0
    ensures AllHex(s + [ch]) && Hex(s + [ch]) == Hex(s) * 16 + Unhex(ch)
  {
    assert (s + [ch])[..|s|] == s;
  }

  /** The number is within what the parser takes: so it is unless what stands before its last digit is above
      the limit. */
  predicate Fits(digits: text)
    requires AllHex(digits) && digits != []
  {
    Hex(digits[..|digits| - 1]) <= CHUNK_LIMIT
  }

  /** Exactly the numbers up to 18446744073709551599 fit: none of them is the mark of an absent length, and a
      further digit never passes 64 bits. */
  lemma {:induction false} FitsExactlyWhen(digits: text)
    requires AllHex(digits) && digits != []
    ensures Fits(digits) <==> Hex(digits) <= 18446744073709551599
    ensures Fits(digits) ==> Hex(digits) < ULLONG_MAX
  {
    assert AllHex(digits[..|digits| - 1]);
  }

  /** A further digit is refused exactly when the number read so far is above the limit; otherwise the number
      is that of all digits. */
  lemma {:induction false} HexDigitAcceptedExactlyWhen(c: Line, digits: text, ch: octet)
    requires c.state == Size && c.errno == OK && AllHex(digits) && c.size == Hex(digits) && Unhex(ch) >= 0
    requires c.nread < MAX_HEADER_SIZE
    ensures Next(c, ch).errno == OK <==> Hex(digits) <= CHUNK_LIMIT
    ensures Next(c, ch).errno != OK ==> Next(c, ch).errno == InvalidContentLength
    ensures
      Next(c, ch).errno == OK ==>
        Next(c, ch).state == Size && AllHex(digits + [ch]) && Next(c, ch).size == Hex(digits + [ch])
  {
    HexOfOneMore(digits, ch);
  }

  /** A number is read as its value exactly when it fits. */
  lemma {:induction false} HexNumberAcceptedExactlyWhen(digits: text)
    requires AllHex(digits) && digits != [] && |digits| <= MAX_HEADER_SIZE
    ensures
      var c := Read(NEW_LINE, digits);
      if Fits(digits) then c == Line(Size, Hex(digits), |digits|, OK) else c.errno == InvalidContentLength
    decreases |digits|
  {
    hide Unhex;
    var before, ch := digits[..|digits| - 1], digits[|digits| - 1];
    if before == [] {
      assert Read(NEW_LINE, before) == NEW_LINE;
      assert Hex(before) == 0;
    } else {
      HexNumberAcceptedExactlyWhen(before);
      HexGrows(before);
      assert digits == before + [ch];
      if Fits(before) {
        HexDigitAcceptedExactlyWhen(Read(NEW_LINE, before), before, ch);
      }
    }
  }

  lemma HexGrows(s: text)
    requires AllHex(s) && s != []
    ensures AllHex(s[..|s| - 1]) && Hex(s[..|s| - 1]) <= Hex(s)
  {
  }

  // ---- Lines ----

  /** What may stand between the size and the end of the line. */
  predicate IsParameters(s: text) {
    s == [] || ((s[0] == ';' || s[0] == ' ') && CR !in s)
  }

  predicate IsLine(line: text, digits: text, params: text) {
    && line == digits + params + [CR, LF]
    && digits != [] && AllHex(digits) && Fits(digits)
    && IsParameters(params)
    && |line| <= MAX_HEADER_SIZE
  }

  lemma ParameterIsRead(c: Line, ch: octet)
    requires c.errno == OK && c.nread < MAX_HEADER_SIZE && ch != CR
    requires c.state == Parameters || (c.state == Size && (ch == ';' || ch == ' '))
    ensures Next(c, ch) == c.(state := Parameters, nread := c.nread + 1)
  {
  }

  lemma {:induction false} ReadParameters(c: Line, params: text)
    requires c.state == Size && c.errno == OK && IsParameters(params) && params != []
    requires c.nread + |params| <= MAX_HEADER_SIZE
    ensures Read(c, params) == c.(state := Parameters, nread := c.nread + |params|)
    decreases |params|
  {
    hide Read, Next;
    var before, ch := params[..|params| - 1], params[|params| - 1];
    assert params == before + [ch] && ch in params;
    ReadOneMore(c, before, ch);
    if before == [] {
      ReadNothing(c);
      ParameterIsRead(c, ch);
    } else {
      assert before[0] == params[0];
      ReadParameters(c, before);
      ParameterIsRead(Read(c, before), ch);
    }
  }

  lemma LineEnds(c: Line)
    requires (c.state == Size || c.state == Parameters) && c.errno == OK && c.nread + 2 <= MAX_HEADER_SIZE
    ensures Next(c, CR) == c.(state := SizeAlmostDone, nread := c.nread + 1)
    ensures Next(Next(c, CR), LF) == c.(state := Ready, nread := 0)
  {
  }

  lemma LineIsRead(line: text, digits: text, params: text)
    requires IsLine(line, digits, params)
    ensures Read(NEW_LINE, line) == Line(Ready, Hex(digits), 0, OK)
    ensures !Ended(Read(NEW_LINE, line[..|line| - 1]))
  {
    hide Read, Next, Fits, Hex, IsParameters, Unhex;
    HexNumberAcceptedExactlyWhen(digits);
    var c := Read(NEW_LINE, digits);
    ReadAppend(NEW_LINE, digits, params);
    if params == [] {
      ReadNothing(c);
    } else {
      ReadParameters(c, params);
    }
    var d := Read(c, params);
    LineEnds(d);
    ReadOneMore(NEW_LINE, digits + params, CR);
    ReadOneMore(NEW_LINE, digits + params + [CR], LF);
    assert line == digits + params + [CR] + [LF];
    assert line[..|line| - 1] == digits + params + [CR];
  }

  /** What has been read, by the state it has led to. */
  ghost predicate ShapeOf(s: text, c: Line, digits: text, params: text) {
    && c.errno == OK
    && (c.state != Ready ==> c.nread == |s| <= MAX_HEADER_SIZE)
    && (c.state == SizeStart <==> s == [])
    && (s != [] ==> digits != [] && AllHex(digits) && Fits(digits) && IsParameters(params) && c.size == Hex(digits))
    && (c.state == Size ==> s == digits && params == [])
    && (c.state == Parameters ==> s == digits + params && params != [])
    && (c.state == SizeAlmostDone ==> s == digits + params + [CR])
  }

  /** The digits and parameters of what has been read. */
  lemma {:induction false} ShapeAfter(s: text) returns (digits: text, params: text)
    requires !Ended(Read(NEW_LINE, s))
    ensures ShapeOf(s, Read(NEW_LINE, s), digits, params)
    decreases |s|
  {
    if s == [] {
      digits, params := [], [];
    } else {
      hide ShapeOf, Next, StepLine;
      var before, ch := s[..|s| - 1], s[|s| - 1];
      assert s == before + [ch];
      var c := Read(NEW_LINE, before);
      EndedStays(c, ch);
      var ds, ps := ShapeAfter(before);
      digits, params := ShapeNext(before, c, ds, ps, ch);
    }
  }

  lemma EndedStays(c: Line, ch: octet)
    ensures Ended(c) ==> Ended(Next(c, ch))
  {
  }

  lemma ShapeNext(s: text, c: Line, digits: text, params: text, ch: octet) returns (ds: text, ps: text)
    requires !Ended(c) && ShapeOf(s, c, digits, params) && !Ended(Next(c, ch))
    ensures ShapeOf(s + [ch], Next(c, ch), ds, ps)
  {
    hide ShapeOf, Next;
    match c.state
    case SizeStart =>
      ShapeStart(s, c, digits, params, ch);
      ds, ps := [ch], [];
    case Size =>
      ds, ps := ShapeInSize(s, c, digits, params, ch);
    case Parameters =>
      ShapeInParameters(s, c, digits, params, ch);
      ds, ps := digits, if ch == CR then params else params + [ch];
    case SizeAlmostDone =>
      AlmostDoneEnds(c, ch);
  }

  lemma AlmostDoneEnds(c: Line, ch: octet)
    requires c.state == SizeAlmostDone
    ensures Ended(Next(c, ch))
  {
  }

  lemma ShapeStart(s: text, c: Line, digits: text, params: text, ch: octet)
    requires c.state == SizeStart && ShapeOf(s, c, digits, params) && !Ended(Next(c, ch))
    ensures ShapeOf(s + [ch], Next(c, ch), [ch], [])
  {
    hide Hex, Unhex, Fits;
    OneHex(ch);
    assert s + [ch] == [ch];
  }

  lemma ShapeInSize(s: text, c: Line, digits: text, params: text, ch: octet) returns (ds: text, ps: text)
    requires c.state == Size && ShapeOf(s, c, digits, params) && !Ended(Next(c, ch))
    ensures ShapeOf(s + [ch], Next(c, ch), ds, ps)
  {
    hide Hex, Unhex;
    ds, ps := digits, params;
    if ch == CR {
      assert digits + [] == digits;
    } else if Unhex(ch) >= 0 {
      ds := digits + [ch];
      HexOfOneMore(digits, ch);
      assert ds[..|ds| - 1] == digits;
    } else {
      ps := [ch];
    }
  }

  lemma ShapeInParameters(s: text, c: Line, digits: text, params: text, ch: octet)
    requires c.state == Parameters && ShapeOf(s, c, digits, params) && !Ended(Next(c, ch))
    ensures ShapeOf(s + [ch], Next(c, ch), digits, if ch == CR then params else params + [ch])
  {
    hide Hex, Unhex, Fits;
    assert digits + params + [ch] == digits + (params + [ch]);
  }

  lemma OneHex(ch: octet)
    requires Unhex(ch) >= 0
    ensures AllHex([ch]) && Hex([ch]) == Unhex(ch) && Fits([ch])
  {
    assert [ch][..0] == [];
  }

  lemma {:induction false} LineIsLine(line: text) returns (digits: text, params: text)
    requires line != [] && !Ended(Read(NEW_LINE, line[..|line| - 1]))
    requires Read(NEW_LINE, line).errno == OK && Read(NEW_LINE, line).state == Ready
    ensures IsLine(line, digits, params) && Read(NEW_LINE, line).size == Hex(digits)
  {
    hide Hex, Fits, Unhex, IsParameters;
    var before, ch := line[..|line| - 1], line[|line| - 1];
    digits, params := ShapeAfter(before);
    assert line == before + [ch];
    LastOfLine(Read(NEW_LINE, before), ch);
    assert digits + params + [CR] + [LF] == digits + params + [CR, LF];
  }

  lemma LastOfLine(c: Line, ch: octet)
    requires !Ended(c) && Next(c, ch).errno == OK && Next(c, ch).state == Ready
    ensures c.state == SizeAlmostDone && ch == LF && c.nread + 1 <= MAX_HEADER_SIZE && Next(c, ch).size == c.size
  {
  }

  /** `line` is read whole, its last byte being the one that ends it. */
  predicate ReadWhole(line: text) {
    && line != [] && !Ended(Read(NEW_LINE, line[..|line| - 1]))
    && Read(NEW_LINE, line).errno == OK && Read(NEW_LINE, line).state == Ready
  }

  /** Exactly these lines are accepted: digits whose number fits, then nothing or parameters behind a semicolon
      or a space, then CR LF, within the header limit; and the size is the number. */
  lemma {:induction false} LineAcceptedExactlyWhen(line: text)
    ensures ReadWhole(line) <==> exists digits, params :: IsLine(line, digits, params)
    ensures
      forall digits, params :: IsLine(line, digits, params) ==>
        Read(NEW_LINE, line).size == Hex(digits) <= 18446744073709551599
  {
    hide Fits, Hex, Read, IsParameters;
    if ReadWhole(line) {
      var digits, params := LineIsLine(line);
    }
    forall digits, params | IsLine(line, digits, params)
      ensures ReadWhole(line) && Read(NEW_LINE, line).size == Hex(digits) <= 18446744073709551599
    {
      LineIsRead(line, digits, params);
      DigitsOfLine(line, digits, params);
    }
  }

  lemma DigitsOfLine(line: text, digits: text, params: text)
    requires IsLine(line, digits, params)
    ensures line != [] && Hex(digits) <= 18446744073709551599
  {
    hide Hex, Fits;
    FitsExactlyWhen(digits);
  }

  // ---- Printed sizes ----

  function HexDigit(v: nat): (ch: octet)
    requires v < 16
    ensures Unhex(ch) == v
  {
    if v < 10 then ('0' as int + v) as char else ('a' as int + v - 10) as char
  }

  /** A number in hexadecimal digits. */
  function HexText(n: nat): (s: text)
    ensures s != [] && AllHex(s)
  {
    (if n < 16 then [] else HexText(n / 16)) + [HexDigit(n % 16)]
  }

  lemma {:induction false} HexReadsBack(n: nat)
    ensures Hex(HexText(n)) == n
  {
    hide Unhex, HexDigit;
    var ch := HexDigit(n % 16);
    if n >= 16 {
      HexReadsBack(n / 16);
      HexOfOneMore(HexText(n / 16), ch);
    } else {
      OneHex(ch);
    }
  }

  function Power16(k: nat): nat {
    if k == 0 then 1 else 16 * Power16(k - 1)
  }

  lemma {:induction false} HexTextIsShort(n: nat, digits: nat)
    requires digits > 0 && n < Power16(digits)
    ensures |HexText(n)| <= digits
    decreases digits
  {
    if n >= 16 {
      HexTextIsShort(n / 16, digits - 1);
    }
  }

  lemma SixteenDigits()
    ensures Power16(16) == ULLONG_MAX + 1
  {
    assert Power16(4) == 0x1_0000;
    assert Power16(8) == 0x1_0000 * Power16(4);
    assert Power16(12) == 0x1_0000 * Power16(8);
    assert Power16(16) == 0x1_0000 * Power16(12);
  }

  /** A printed size comes back exactly up to 18446744073709551599: the sixteen larger ones that fit in 64 bits
      are refused. */
  lemma {:induction false} SizeReadsBackExactlyWhen(n: nat)
    ensures
      var line := HexText(n) + [CR, LF];
      ReadWhole(line) && Read(NEW_LINE, line).size == n <==> n <= 18446744073709551599
  {
    hide Read, Fits, Hex, HexText, Next, ReadWhole, IsLine, Power16;
    var digits := HexText(n);
    var line := digits + [CR, LF];
    HexReadsBack(n);
    FitsExactlyWhen(digits);
    LineAcceptedExactlyWhen(line);
    if n <= 18446744073709551599 {
      SixteenDigits();
      HexTextIsShort(n, 16);
      BareLine(digits);
    } else if ReadWhole(line) {
      var ds, ps :| IsLine(line, ds, ps);
      DigitsOnly(digits, ds, ps);
    }
  }

  lemma BareLine(digits: text)
    requires digits != [] && AllHex(digits) && Fits(digits) && |digits| <= 16
    ensures IsLine(digits + [CR, LF], digits, [])
  {
    hide Fits;
    assert digits + [] + [CR, LF] == digits + [CR, LF];
  }

  lemma DigitsOnly(digits: text, ds: text, ps: text)
    requires AllHex(digits) && digits != [] && IsLine(digits + [CR, LF], ds, ps)
    ensures Fits(digits)
  {
    hide Fits;
    assert (digits + [CR, LF])[..|digits|] == digits && (ds + ps + [CR, LF])[..|ds + ps|] == ds + ps;
    assert digits == ds + ps;
    if ps != [] {
      ParametersAreNoDigits(ds, ps);
    }
    assert ds + [] == ds;
  }

  lemma ParametersAreNoDigits(ds: text, ps: text)
    requires IsParameters(ps) && ps != []
    ensures !AllHex(ds + ps)
  {
    assert (ds + ps)[|ds|] == ps[0];
  }

  /** A byte above 127 is taken for the digit 0. */
  lemma HighBytesAreDigits(ch: octet)
    requires ch as int >= 128
    ensures Read(NEW_LINE, ['1', ch, CR, LF]) == Line(Ready, 16, 0, OK)
  {
    var s: text := ['1', ch];
    HexOfOneMore([], '1');
    HexOfOneMore(['1'], ch);
    assert [] + ['1'] == ['1'] && ['1'] + [ch] == s;
    assert s[..1] == ['1'];
    assert ['1', ch, CR, LF] == s + [] + [CR, LF];
    LineIsRead(['1', ch, CR, LF], s, []);
  }
}
