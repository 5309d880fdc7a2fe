/**
  The second half of the URL splitter: an authority into user information, host and port.
 */
module UrlAuthority {
  import opened HttpParser

  datatype HostState =
    | HostDead | UserinfoStart | Userinfo | HostStart | HostV6Start | Host | HostV6 | HostV6End
    | HostV6ZoneStart | HostV6Zone | PortStart | Port

  predicate IsV6Char(ch: octet) {
    IsHex(ch) || ch == ':' || ch == '.'
  }

  predicate IsZoneChar(ch: octet) {
    IsAlphaNum(ch) || ch == '%' || ch == '.' || ch == '-' || ch == '_' || ch == '~'
  }

  function ParseHostChar(s: HostState, ch: octet): HostState {
    match s
    case UserinfoStart => ParseUserinfoChar(ch)
    case Userinfo => ParseUserinfoChar(ch)
    case HostStart => if ch == '[' then HostV6Start else if IsHostChar(ch) then Host else HostDead
    case Host => if IsHostChar(ch) then Host else if ch == ':' then PortStart else HostDead
    case HostV6End => if ch == ':' then PortStart else HostDead
    case HostV6 =>
      if ch == ']' then HostV6End
      else if IsV6Char(ch) then HostV6
      else if ch == '%' then HostV6ZoneStart
      else HostDead
    case HostV6Start => if IsV6Char(ch) then HostV6 else HostDead
    case HostV6Zone => if ch == ']' then HostV6End else if IsZoneChar(ch) then HostV6Zone else HostDead
    case HostV6ZoneStart => if IsZoneChar(ch) then HostV6Zone else HostDead
    case Port => if IsNum(ch) then Port else HostDead
    case PortStart => if IsNum(ch) then Port else HostDead
    case HostDead => HostDead
  }

  function ParseUserinfoChar(ch: octet): HostState {
    if ch == '@' then HostStart else if IsUserinfoChar(ch) then Userinfo else HostDead
  }

  function Start(foundAt: bool): HostState {
    if foundAt then UserinfoStart else HostStart
  }

  /** The state after the first `i` bytes of authority `a`. */
  function StateAt(a: text, foundAt: bool, i: nat): HostState
    requires i <= |a|
  {
    if i == 0 then Start(foundAt) else ParseHostChar(StateAt(a, foundAt, i - 1), a[i - 1])
  }

  /** The states in which an authority may end. */
  predicate Accepts(s: HostState) {
    s == Host || s == HostV6End || s == Port
  }

  // ---- The form of an authority ----

  /** Where the parts of an authority are: the user information is `[0, at)`, the host `[lo, hi)`, of
      which `[lo, z)` is the address and what follows `%` the zone when it stands in brackets, and
      the port follows the colon at `end`, where there is one. */
  datatype Cuts = Cuts(at: nat, lo: nat, z: nat, hi: nat, end: nat)

  function Begin(foundAt: bool, c: Cuts): nat {
    if foundAt then c.at + 1 else 0
  }

  predicate All(a: text, lo: nat, hi: nat, p: octet -> bool) {
    hi <= |a| && forall k :: lo <= k < hi ==> p(a[k])
  }

  /** The user information and its `@` stand before position `i`. */
  predicate AfterUserinfo(a: text, foundAt: bool, c: Cuts, i: nat)
    requires i <= |a|
  {
    foundAt ==> c.at < i && a[c.at] == '@' && All(a, 0, c.at, IsUserinfoChar)
  }

  /** The host, with its brackets, is `[Begin, end)`. */
  predicate HostIs(a: text, foundAt: bool, c: Cuts) {
    var begin := Begin(foundAt, c);
    && begin < c.end <= |a|
    && AfterUserinfo(a, foundAt, c, begin)
    && c.lo < c.hi
    && if a[begin] == '[' then
         && c.lo == begin + 1 && c.hi + 1 == c.end && a[c.hi] == ']'
         && c.lo < c.z <= c.hi && All(a, c.lo, c.z, IsV6Char)
         && (c.z < c.hi ==> a[c.z] == '%' && c.z + 1 < c.hi && All(a, c.z + 1, c.hi, IsZoneChar))
       else
         c.lo == begin && c.hi == c.end && All(a, c.lo, c.hi, IsHostChar)
  }

  /** `[ userinfo "@" ] host [ ":" port ]`, with `host` a name or an address in brackets. */
  predicate HasForm(a: text, foundAt: bool, c: Cuts) {
    && HostIs(a, foundAt, c)
    && (c.end < |a| ==> a[c.end] == ':' && c.end + 1 < |a| && All(a, c.end + 1, |a|, IsNum))
  }

  ghost predicate IsAuthority(a: text, foundAt: bool) {
    exists c :: HasForm(a, foundAt, c)
  }

  /** What the state after `i` bytes says about them. */
  predicate Describes(a: text, foundAt: bool, i: nat, c: Cuts)
    requires i <= |a|
  {
    var begin := Begin(foundAt, c);
    var inHost := AfterUserinfo(a, foundAt, c, i) && begin < i;
    var inBrackets := inHost && a[begin] == '[' && c.lo == begin + 1;
    match StateAt(a, foundAt, i)
    case HostDead => true
    case UserinfoStart => foundAt && i == 0
    case Userinfo => foundAt && i > 0 && All(a, 0, i, IsUserinfoChar)
    case HostStart => AfterUserinfo(a, foundAt, c, i) && i == begin && c.lo == begin
    case Host => inHost && a[begin] != '[' && c.lo == begin && All(a, c.lo, i, IsHostChar)
    case HostV6Start => inBrackets && i == c.lo
    case HostV6 => inBrackets && c.lo < i && All(a, c.lo, i, IsV6Char)
    case HostV6ZoneStart =>
      inBrackets && c.lo < c.z && All(a, c.lo, c.z, IsV6Char) && c.z + 1 == i && a[c.z] == '%'
    case HostV6Zone =>
      && inBrackets && c.lo < c.z && All(a, c.lo, c.z, IsV6Char)
      && c.z + 1 < i && a[c.z] == '%' && All(a, c.z + 1, i, IsZoneChar)
    case HostV6End => HostIs(a, foundAt, c) && a[begin] == '[' && c.end == i
    case PortStart => HostIs(a, foundAt, c) && c.end + 1 == i && a[c.end] == ':'
    case Port => HostIs(a, foundAt, c) && c.end + 1 < i && a[c.end] == ':' && All(a, c.end + 1, i, IsNum)
  }

  /** The cuts as far as the state after one more byte, `s'`, knows them. */
  function NextCuts(c: Cuts, s: HostState, s': HostState, i: nat): Cuts {
    match s'
    case HostStart => c.(at := i, lo := i + 1)
    case HostV6Start => c.(lo := i + 1)
    case HostV6ZoneStart => c.(z := i)
    case HostV6End => if s == HostV6 then c.(z := i, hi := i, end := i + 1) else c.(hi := i, end := i + 1)
    case PortStart => if s == Host then c.(hi := i, end := i) else c
    case _ => c
  }

  lemma AdvanceBefore(a: text, foundAt: bool, i: nat, c: Cuts)
    requires i < |a| && Describes(a, foundAt, i, c)
    requires
      var s := StateAt(a, foundAt, i);
      s == HostDead || s == UserinfoStart || s == Userinfo || s == HostStart || s == Host
    ensures Describes(a, foundAt, i + 1, NextCuts(c, StateAt(a, foundAt, i), StateAt(a, foundAt, i + 1), i))
  {
    hide IsUserinfoChar, IsHostChar, IsV6Char, IsZoneChar, IsNum;
  }

  lemma AdvanceAfter(a: text, foundAt: bool, i: nat, c: Cuts)
    requires i < |a| && Describes(a, foundAt, i, c)
    requires
      var s := StateAt(a, foundAt, i);
      s != HostDead && s != UserinfoStart && s != Userinfo && s != HostStart && s != Host
    ensures Describes(a, foundAt, i + 1, NextCuts(c, StateAt(a, foundAt, i), StateAt(a, foundAt, i + 1), i))
  {
    hide IsUserinfoChar, IsHostChar, IsV6Char, IsZoneChar, IsNum;
  }

  lemma Advance(a: text, foundAt: bool, i: nat, c: Cuts)
    requires i < |a| && Describes(a, foundAt, i, c)
    ensures Describes(a, foundAt, i + 1, NextCuts(c, StateAt(a, foundAt, i), StateAt(a, foundAt, i + 1), i))
  {
    hide StateAt, Describes, NextCuts;
    var s := StateAt(a, foundAt, i);
    if s == HostDead || s == UserinfoStart || s == Userinfo || s == HostStart || s == Host {
      AdvanceBefore(a, foundAt, i, c);
    } else {
      AdvanceAfter(a, foundAt, i, c);
    }
  }

  // ---- Every authority of that form is accepted ----

  lemma {:induction false} Stays(a: text, foundAt: bool, p: nat, q: nat, s: HostState, kind: octet -> bool)
    requires p <= q <= |a| && StateAt(a, foundAt, p) == s && All(a, p, q, kind)
    requires forall ch: octet :: kind(ch) ==> ParseHostChar(s, ch) == s
    ensures StateAt(a, foundAt, q) == s
  {
    hide ParseHostChar;
    if p < q {
      Stays(a, foundAt, p, q - 1, s, kind);
      assert kind(a[q - 1]);
    }
  }

  /** From `s`, one byte of a class leads to `t`, in which further ones stay. */
  lemma Enters(a: text, foundAt: bool, p: nat, q: nat, s: HostState, t: HostState, kind: octet -> bool)
    requires p < q <= |a| && StateAt(a, foundAt, p) == s && All(a, p, q, kind)
    requires forall ch: octet :: kind(ch) ==> ParseHostChar(s, ch) == t && ParseHostChar(t, ch) == t
    ensures StateAt(a, foundAt, q) == t
  {
    hide ParseHostChar;
    assert kind(a[p]);
    Stays(a, foundAt, p + 1, q, t, kind);
  }

  lemma UserinfoRead(a: text, foundAt: bool, c: Cuts)
    requires HostIs(a, foundAt, c)
    ensures StateAt(a, foundAt, Begin(foundAt, c)) == HostStart
  {
    if foundAt && c.at > 0 {
      Enters(a, foundAt, 0, c.at, UserinfoStart, Userinfo, IsUserinfoChar);
    }
  }

  lemma HostRead(a: text, foundAt: bool, c: Cuts)
    requires HostIs(a, foundAt, c)
    ensures StateAt(a, foundAt, c.end) == if a[Begin(foundAt, c)] == '[' then HostV6End else Host
  {
    hide IsHostChar, IsV6Char, IsZoneChar;
    UserinfoRead(a, foundAt, c);
    var begin := Begin(foundAt, c);
    if a[begin] == '[' {
      V6NotBracket();
      Enters(a, foundAt, c.lo, c.z, HostV6Start, HostV6, IsV6Char);
      if c.z < c.hi {
        Enters(a, foundAt, c.z + 1, c.hi, HostV6ZoneStart, HostV6Zone, IsZoneChar);
      }
    } else {
      assert IsHostChar(a[begin]);
      NameNotBracket();
      Enters(a, foundAt, c.lo, c.hi, HostStart, Host, IsHostChar);
    }
  }

  lemma V6NotBracket()
    ensures !IsV6Char(']') && !IsV6Char('%') && !IsZoneChar(']')
    ensures forall ch: octet :: IsV6Char(ch) ==> ch != ']'
    ensures forall ch: octet :: IsZoneChar(ch) ==> ch != ']'
  {
  }

  lemma NameNotBracket()
    ensures forall ch: octet :: IsHostChar(ch) ==> ch != '[' && ch != ':'
  {
  }

  /** The automaton accepts exactly the authorities that have the form. */
  lemma {:induction false} AcceptsExactlyForms(a: text, foundAt: bool)
    ensures Accepts(StateAt(a, foundAt, |a|)) <==> IsAuthority(a, foundAt)
  {
    if c :| HasForm(a, foundAt, c) {
      FormAccepted(a, foundAt, c);
    }
    if Accepts(StateAt(a, foundAt, |a|)) {
      AcceptedForm(a, foundAt);
    }
  }

  function FinalCuts(a: text, foundAt: bool): Cuts {
    var c := CutsAt(a, foundAt, |a|);
    if StateAt(a, foundAt, |a|) == Host then c.(hi := |a|, end := |a|) else c
  }

  lemma AcceptedForm(a: text, foundAt: bool)
    requires Accepts(StateAt(a, foundAt, |a|))
    ensures HasForm(a, foundAt, FinalCuts(a, foundAt))
  {
    var c := DescribedCuts(a, foundAt, |a|);
  }

  lemma FormAccepted(a: text, foundAt: bool, c: Cuts)
    requires HasForm(a, foundAt, c)
    ensures Accepts(StateAt(a, foundAt, |a|))
  {
    hide IsNum;
    HostRead(a, foundAt, c);
    assert c.end <= |a|;
    if c.end < |a| {
      PortBegins(a, foundAt, c);
      Enters(a, foundAt, c.end + 1, |a|, PortStart, Port, IsNum);
    }
  }

  lemma PortBegins(a: text, foundAt: bool, c: Cuts)
    requires HostIs(a, foundAt, c) && c.end < |a| && a[c.end] == ':'
    requires StateAt(a, foundAt, c.end) == Host || StateAt(a, foundAt, c.end) == HostV6End
    ensures StateAt(a, foundAt, c.end + 1) == PortStart
  {
    assert !IsHostChar(':');
  }

  function CutsAt(a: text, foundAt: bool, i: nat): Cuts
    requires i <= |a|
  {
    if i == 0 then Cuts(0, 0, 0, 0, 0)
    else NextCuts(CutsAt(a, foundAt, i - 1), StateAt(a, foundAt, i - 1), StateAt(a, foundAt, i), i - 1)
  }

  lemma {:induction false} DescribedCuts(a: text, foundAt: bool, i: nat) returns (c: Cuts)
    requires i <= |a|
    ensures c == CutsAt(a, foundAt, i) && Describes(a, foundAt, i, c)
  {
    if i == 0 {
      c := Cuts(0, 0, 0, 0, 0);
    } else {
      var before := DescribedCuts(a, foundAt, i - 1);
      Advance(a, foundAt, i - 1, before);
      c := CutsAt(a, foundAt, i);
    }
  }

  /** An authority can be cut up in one way only. */
  lemma {:induction false} FormIsUnique(a: text, foundAt: bool, c: Cuts, d: Cuts)
    requires HasForm(a, foundAt, c) && HasForm(a, foundAt, d)
    ensures foundAt ==> c.at == d.at
    ensures c.lo == d.lo && c.hi == d.hi && c.end == d.end
    ensures a[Begin(foundAt, c)] == '[' ==> c.z == d.z
  {
    hide IsHostChar, IsV6Char, IsZoneChar, IsUserinfoChar, IsNum;
    V6NotBracket();
    NameNotBracket();
    assert !IsUserinfoChar('@') by {
      AtNotUserinfo();
    }
  }

  lemma AtNotUserinfo()
    ensures !IsUserinfoChar('@')
  {
  }

  // ---- The loop ----

  datatype Range = Range(off: nat, len: nat)

  /** What the loop has found of an authority. */
  datatype Found = Found(host: Range, port: Range, hasPort: bool, userinfo: Range, hasUserinfo: bool)

  /** `f` are the parts of the authority that begins at `off` and has `len` bytes, cut at `c`. */
  predicate Parts(f: Found, off: nat, len: nat, foundAt: bool, c: Cuts) {
    && c.lo <= c.hi <= c.end <= len
    && f.host == Range(off + c.lo, c.hi - c.lo)
    && (f.hasPort <==> c.end < len)
    && (f.hasPort ==> f.port == Range(off + c.end + 1, len - c.end - 1))
    && (f.hasUserinfo <==> foundAt && c.at > 0)
    && (f.hasUserinfo ==> f.userinfo == Range(off, c.at))
  }

  /** What the variables of the loop hold after `i` bytes. */
  predicate FoundSoFar(f: Found, off: nat, foundAt: bool, s: HostState, c: Cuts, i: nat) {
    && (s == HostStart || s == Userinfo || s == UserinfoStart || s == HostV6Start ==> f.host.len == 0)
    && (s == Host || s == HostV6 ==> c.lo <= i && f.host == Range(off + c.lo, i - c.lo))
    && (s == HostV6ZoneStart || s == HostV6Zone ==> c.lo <= i && f.host == Range(off + c.lo, i - c.lo))
    && (s == HostV6End || s == PortStart || s == Port ==> c.lo <= c.hi && f.host == Range(off + c.lo, c.hi - c.lo))
    && (f.hasPort <==> s == Port)
    && (s == Port ==> c.end < i && f.port == Range(off + c.end + 1, i - c.end - 1))
    && (s == UserinfoStart ==> !f.hasUserinfo)
    && (s == Userinfo ==> f.hasUserinfo && f.userinfo == Range(off, i))
    && (s != UserinfoStart && s != Userinfo ==>
          && (f.hasUserinfo <==> foundAt && c.at > 0)
          && (f.hasUserinfo ==> f.userinfo == Range(off, c.at)))
  }

  /** What the byte at `at`, which led from `s` to `s'`, adds to the parts. */
  function Note(f: Found, s: HostState, s': HostState, at: nat): Found {
    match s'
    case Host => f.(host := Extend(f.host, s == s', at))
    case HostV6 => f.(host := Extend(f.host, s == s', at))
    case HostV6ZoneStart => f.(host := Extend(f.host, true, at))
    case HostV6Zone => f.(host := Extend(f.host, true, at))
    case Port => f.(port := Extend(if s == s' then f.port else Range(0, 0), s == s', at), hasPort := true)
    case Userinfo =>
      f.(userinfo := Extend(if s == s' then f.userinfo else Range(0, 0), s == s', at), hasUserinfo := true)
    case _ => f
  }

  /** One more byte of a part, which begins at `at` unless it has begun before. */
  function Extend(r: Range, begun: bool, at: nat): Range {
    Range(if begun then r.off else at, r.len + 1)
  }

  lemma DescribedNow(a: text, foundAt: bool, i: nat)
    requires i <= |a|
    ensures Describes(a, foundAt, i, CutsAt(a, foundAt, i))
  {
    var _ := DescribedCuts(a, foundAt, i);
  }

  lemma FoundAdvances(a: text, off: nat, foundAt: bool, i: nat, c: Cuts, f: Found)
    requires i < |a| && Describes(a, foundAt, i, c)
    requires FoundSoFar(f, off, foundAt, StateAt(a, foundAt, i), c, i)
    ensures
      var s, s' := StateAt(a, foundAt, i), StateAt(a, foundAt, i + 1);
      s' != HostDead ==> FoundSoFar(Note(f, s, s', off + i), off, foundAt, s', NextCuts(c, s, s', i), i + 1)
  {
    hide IsUserinfoChar, IsHostChar, IsV6Char, IsZoneChar, IsNum, All;
  }

  lemma FinalParts(a: text, off: nat, foundAt: bool, f: Found)
    requires Accepts(StateAt(a, foundAt, |a|))
    requires FoundSoFar(f, off, foundAt, StateAt(a, foundAt, |a|), CutsAt(a, foundAt, |a|), |a|)
    ensures Parts(f, off, |a|, foundAt, FinalCuts(a, foundAt))
  {
    hide IsUserinfoChar, IsHostChar, IsV6Char, IsZoneChar, IsNum, All;
    DescribedNow(a, foundAt, |a|);
  }

  lemma NothingFound(a: text, off: nat, foundAt: bool)
    ensures
      FoundSoFar(Found(Range(off, 0), Range(0, 0), false, Range(0, 0), false), off, foundAt, Start(foundAt),
                 CutsAt(a, foundAt, 0), 0)
  {
  }

  lemma CutsAdvance(a: text, foundAt: bool, i: nat)
    requires i < |a|
    ensures
      CutsAt(a, foundAt, i + 1) ==
      NextCuts(CutsAt(a, foundAt, i), StateAt(a, foundAt, i), StateAt(a, foundAt, i + 1), i)
  {
    hide NextCuts, StateAt;
  }

  /** Splits the authority `[off, off + len)` of a buffer: it succeeds exactly for an authority of the
      form, and then finds its parts. */
  method ParseHost(buf: text, off: nat, len: nat, foundAt: bool) returns (ok: bool, f: Found, ghost c: Cuts)
    requires off + len <= |buf|
    ensures ok <==> IsAuthority(buf[off..off + len], foundAt)
    ensures ok ==> HasForm(buf[off..off + len], foundAt, c) && Parts(f, off, len, foundAt, c)
  {
    hide ParseHostChar, Describes, HasForm, NextCuts, Note, FoundSoFar, CutsAt, Parts, FinalCuts;
    ghost var a := buf[off..off + len];
    f := Found(Range(off, 0), Range(0, 0), false, Range(0, 0), false);
    var s := Start(foundAt);
    AcceptsExactlyForms(a, foundAt);
    NothingFound(a, off, foundAt);
    c := CutsAt(a, foundAt, 0);
    var i := 0;
    while i < len
      invariant i <= len && s == StateAt(a, foundAt, i) && s != HostDead
      invariant c == CutsAt(a, foundAt, i)
      invariant FoundSoFar(f, off, foundAt, s, c, i)
    {
      assert buf[off + i] == a[i];
      var s' := ParseHostChar(s, buf[off + i]);
      if s' == HostDead {
        DeadStays(a, foundAt, i + 1, len);
        ok := false;
        return;
      }
      DescribedNow(a, foundAt, i);
      CutsAdvance(a, foundAt, i);
      FoundAdvances(a, off, foundAt, i, c, f);
      f := Note(f, s, s', off + i);
      c := NextCuts(c, s, s', i);
      s := s';
      i := i + 1;
    }
    ok := Accepts(s);
    if ok {
      AcceptedForm(a, foundAt);
      FinalParts(a, off, foundAt, f);
      c := FinalCuts(a, foundAt);
    }
  }

  lemma {:induction false} DeadStays(a: text, foundAt: bool, i: nat, j: nat)
    requires i <= j <= |a| && StateAt(a, foundAt, i) == HostDead
    ensures StateAt(a, foundAt, j) == HostDead
  {
    if i < j {
      DeadStays(a, foundAt, i, j - 1);
    }
  }
}
