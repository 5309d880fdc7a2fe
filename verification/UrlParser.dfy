/**
  The URL splitter: it runs the automaton of the request line over a URL and notes where its parts
  begin and how long they are.
 */
module UrlParser {
  import opened HttpParser
  import opened UrlAuthority
  import opened Decimals

  datatype Field = Schema | HostField | PortField | Path | Query | Fragment | UserinfoField

  /** Offsets and lengths are 16-bit. */
  const MAX_URL := 0xFFFF

  // ---- The states along a URL ----

  function First(isConnect: bool): State {
    if isConnect then ReqServerStart else ReqSpacesBeforeUrl
  }

  /** The state after the first `i` bytes. */
  function StateAfter(url: text, isConnect: bool, i: nat): State
    requires i <= |url|
  {
    if i == 0 then First(isConnect) else ParseUrlChar(StateAfter(url, isConnect, i - 1), url[i - 1])
  }

  /** The order in which a URL goes through its parts and the delimiters between them: schema, `:`,
      `/`, `/`, authority, path, `?`, query, `#`, fragment. */
  function Rank(s: State): nat {
    match s
    case ReqSchema => 1
    case ReqSchemaSlash => 2
    case ReqSchemaSlashSlash => 3
    case ReqServerStart => 4
    case ReqServer => 5
    case ReqServerWithAt => 5
    case ReqPath => 6
    case ReqQueryStringStart => 7
    case ReqQueryString => 8
    case ReqFragmentStart => 9
    case ReqFragment => 10
    case _ => 0
  }

  /** The rank of the byte at position `i`. */
  function RankAt(url: text, isConnect: bool, i: nat): nat
    requires i < |url|
  {
    Rank(StateAfter(url, isConnect, i + 1))
  }

  function RankOf(f: Field): nat {
    match f
    case Schema => 1
    case HostField => 5
    case Path => 6
    case Query => 8
    case Fragment => 10
    case _ => 11
  }

  lemma RankGrows(s: State, ch: octet)
    requires Rank(s) > 0 || s == ReqSpacesBeforeUrl
    ensures
      var s' := ParseUrlChar(s, ch);
      s' != Dead ==>
        && 0 < Rank(s') && Rank(s) <= Rank(s')
        && (Rank(s') == 2 ==> ch == ':' && Rank(s) == 1)
        && (Rank(s') == 3 ==> ch == '/' && Rank(s) == 2)
        && (Rank(s') == 4 ==> ch == '/' && Rank(s) == 3)
        && (Rank(s') == 7 ==> ch == '?' && Rank(s) < 7)
        && (Rank(s') == 8 ==> 7 <= Rank(s) <= 8)
        && (Rank(s') == 9 ==> ch == '#')
        && (Rank(s') == 10 ==> 9 <= Rank(s) <= 10)
        && (Rank(s) == 1 ==> Rank(s') <= 2) && (Rank(s) == 2 ==> Rank(s') == 3) && (Rank(s) == 3 ==> Rank(s') == 4)
        && (s == ReqSpacesBeforeUrl ==> Rank(s') == 1 || Rank(s') == 6)
        && (Rank(s') == 5 ==> (s' == ReqServerWithAt <==> ch == '@'))
  {
    hide IsUrlChar, IsUserinfoChar, IsAlpha;
  }

  /** The first `i` bytes are those of a URL, as far as it goes. */
  predicate Alive(url: text, isConnect: bool, i: nat)
    requires i <= |url|
  {
    StateAfter(url, isConnect, i) != Dead
  }

  lemma {:induction false} AliveBefore(url: text, isConnect: bool, i: nat, j: nat)
    requires i <= j <= |url| && Alive(url, isConnect, j)
    ensures Alive(url, isConnect, i)
  {
    hide ParseUrlChar;
    if i < j {
      DeadIsFinal(url[j - 1]);
      AliveBefore(url, isConnect, i, j - 1);
    }
  }

  lemma DeadIsFinal(ch: octet)
    ensures ParseUrlChar(Dead, ch) == Dead
  {
  }

  /** Along a URL the ranks never decrease. */
  lemma {:induction false} RanksGrow(url: text, isConnect: bool, i: nat, j: nat)
    requires i <= j <= |url| && Alive(url, isConnect, j)
    ensures Rank(StateAfter(url, isConnect, i)) <= Rank(StateAfter(url, isConnect, j))
    ensures 0 < j ==> Rank(StateAfter(url, isConnect, j)) > 0
    decreases j
  {
    hide ParseUrlChar, Rank;
    RankOfFirst();
    if 0 < j {
      AliveBefore(url, isConnect, j - 1, j);
      if i < j {
        RanksGrow(url, isConnect, i, j - 1);
      } else {
        RanksGrow(url, isConnect, j - 1, j - 1);
      }
      RankGrows(StateAfter(url, isConnect, j - 1), url[j - 1]);
    }
  }

  lemma RankOfFirst()
    ensures Rank(ReqSpacesBeforeUrl) == 0 && Rank(ReqServerStart) == 4
  {
  }

  /** How many of the first `i` bytes have a rank below `r`: all those before that position. */
  function Cut(url: text, isConnect: bool, r: nat, i: nat): (n: nat)
    requires i <= |url|
    ensures n <= i
  {
    if i == 0 then 0
    else Cut(url, isConnect, r, i - 1) + if RankAt(url, isConnect, i - 1) < r then 1 else 0
  }

  /** The bytes of one rank stand together: their positions are those between two cuts. */
  lemma {:induction false} CutsAreSharp(url: text, isConnect: bool, r: nat, i: nat)
    requires i <= |url| && Alive(url, isConnect, i)
    ensures forall k :: 0 <= k < i ==> (RankAt(url, isConnect, k) < r <==> k < Cut(url, isConnect, r, i))
  {
    hide StateAfter, Rank;
    if i > 0 {
      AliveBefore(url, isConnect, i - 1, i);
      CutsAreSharp(url, isConnect, r, i - 1);
      forall k | 0 <= k < i - 1
        ensures RankAt(url, isConnect, k) <= RankAt(url, isConnect, i - 1)
      {
        RanksGrow(url, isConnect, k + 1, i);
      }
      if RankAt(url, isConnect, i - 1) < r && i > 1 {
        assert RankAt(url, isConnect, i - 2) < r;
      }
    }
  }

  lemma {:induction false} CutAll(url: text, isConnect: bool, r: nat, i: nat)
    requires i <= |url| && forall k :: 0 <= k < i ==> RankAt(url, isConnect, k) < r
    ensures Cut(url, isConnect, r, i) == i
  {
    if i > 0 {
      CutAll(url, isConnect, r, i - 1);
    }
  }

  lemma {:induction false} CutNone(url: text, isConnect: bool, r: nat, i: nat)
    requires i <= |url| && forall k :: 0 <= k < i ==> RankAt(url, isConnect, k) >= r
    ensures Cut(url, isConnect, r, i) == 0
  {
    if i > 0 {
      CutNone(url, isConnect, r, i - 1);
    }
  }

  /** A new byte of rank `R`: cuts above `R` are at the end so far. */
  lemma CutsAbove(url: text, isConnect: bool, i: nat, r: nat)
    requires i < |url| && Alive(url, isConnect, i + 1) && RankAt(url, isConnect, i) < r
    ensures Cut(url, isConnect, r, i) == i
  {
    hide StateAfter, Rank;
    forall k | 0 <= k < i
      ensures RankAt(url, isConnect, k) < r
    {
      RanksGrow(url, isConnect, k + 1, i + 1);
    }
    CutAll(url, isConnect, r, i);
  }

  // ---- The parts tile the URL ----

  /** The part of the URL that is field `f`. */
  function PartOf(url: text, isConnect: bool, f: Field): (r: Range)
    requires f != PortField && f != UserinfoField
    ensures r.off + r.len <= |url|
  {
    var lo := Cut(url, isConnect, RankOf(f), |url|);
    var hi := Cut(url, isConnect, RankOf(f) + 1, |url|);
    Range(lo, if hi < lo then 0 else hi - lo)
  }

  lemma {:induction false} CutsAreOrdered(url: text, isConnect: bool, r: nat, q: nat, i: nat)
    requires i <= |url| && r <= q
    ensures Cut(url, isConnect, r, i) <= Cut(url, isConnect, q, i)
  {
    if i > 0 {
      CutsAreOrdered(url, isConnect, r, q, i - 1);
    }
  }

  lemma StepAt(url: text, isConnect: bool, k: nat)
    requires k < |url| && Alive(url, isConnect, |url|)
    ensures
      var s, s' := StateAfter(url, isConnect, k), StateAfter(url, isConnect, k + 1);
      s' == ParseUrlChar(s, url[k]) && s' != Dead && (Rank(s) > 0 || s == ReqSpacesBeforeUrl)
  {
    hide ParseUrlChar, Rank;
    AliveBefore(url, isConnect, k, |url|);
    AliveBefore(url, isConnect, k + 1, |url|);
    RankOfFirst();
    if k > 0 {
      RanksGrow(url, isConnect, k, k);
    }
  }

  /** The bytes between the cuts `r` and `r + 1` are those of rank `r`. */
  lemma BytesOfRank(url: text, isConnect: bool, r: nat, k: nat)
    requires Alive(url, isConnect, |url|)
    requires Cut(url, isConnect, r, |url|) <= k < Cut(url, isConnect, r + 1, |url|)
    ensures RankAt(url, isConnect, k) == r
  {
    hide StateAfter, Rank;
    CutsAreSharp(url, isConnect, r, |url|);
    CutsAreSharp(url, isConnect, r + 1, |url|);
  }

  /** At most one byte introduces the query; any number of `#` introduces the fragment. */
  lemma QueryAndFragmentMarks(url: text, isConnect: bool)
    requires Alive(url, isConnect, |url|)
    ensures
      var c7, c8 := Cut(url, isConnect, 7, |url|), Cut(url, isConnect, 8, |url|);
      c7 <= c8 <= c7 + 1 && (c7 < c8 ==> url[c7] == '?')
    ensures
      var c9, c10 := Cut(url, isConnect, 9, |url|), Cut(url, isConnect, 10, |url|);
      c9 <= c10 && forall k :: c9 <= k < c10 ==> url[k] == '#'
  {
    hide ParseUrlChar, Rank, StateAfter, Cut;
    CutsAreOrdered(url, isConnect, 7, 8, |url|);
    CutsAreOrdered(url, isConnect, 9, 10, |url|);
    var c7, c8 := Cut(url, isConnect, 7, |url|), Cut(url, isConnect, 8, |url|);
    if c7 < c8 {
      BytesOfRank(url, isConnect, 7, c7);
      StepAt(url, isConnect, c7);
      RankGrows(StateAfter(url, isConnect, c7), url[c7]);
      if c7 + 1 < c8 {
        BytesOfRank(url, isConnect, 7, c7 + 1);
        StepAt(url, isConnect, c7 + 1);
        RankGrows(StateAfter(url, isConnect, c7 + 1), url[c7 + 1]);
      }
    }
    forall k | Cut(url, isConnect, 9, |url|) <= k < Cut(url, isConnect, 10, |url|)
      ensures url[k] == '#'
    {
      BytesOfRank(url, isConnect, 9, k);
      StepAt(url, isConnect, k);
      RankGrows(StateAfter(url, isConnect, k), url[k]);
    }
  }

  /** An authority that does not begin the URL follows a schema and `://`. */
  lemma SchemaMark(url: text)
    requires Alive(url, false, |url|) && PartOf(url, false, HostField).len > 0
    ensures
      var c2, c5 := Cut(url, false, 2, |url|), Cut(url, false, 5, |url|);
      c2 > 0 && c5 == c2 + 3 && url[c2..c5] == [':', '/', '/'] && Cut(url, false, 1, |url|) == 0
  {
    hide ParseUrlChar, Rank, StateAfter, Cut;
    var k := Cut(url, false, 5, |url|);
    BytesOfRank(url, false, 5, k);
    var k4 := MarkBefore(url, k, 5);
    var k3 := MarkBefore(url, k4, 4);
    var k2 := MarkBefore(url, k3, 3);
    var k1 := MarkBefore(url, k2, 2);
    CutsAreSharp(url, false, 2, |url|);
    assert Cut(url, false, 2, |url|) == k2;
    CutNone(url, false, 1, |url|) by {
      forall i | 0 <= i < |url| ensures RankAt(url, false, i) >= 1 {
        AliveBefore(url, false, i + 1, |url|);
        RanksGrow(url, false, i + 1, i + 1);
      }
    }
  }

  /** The byte before one of rank `r` in the schema mark or the authority is the one of rank `r - 1`. */
  lemma MarkBefore(url: text, k: nat, r: nat) returns (j: nat)
    requires k < |url| && Alive(url, false, |url|) && 2 <= r <= 5 && RankAt(url, false, k) == r
    requires r == 5 ==> k == Cut(url, false, 5, |url|)
    ensures j + 1 == k && RankAt(url, false, j) == r - 1
    ensures r == 2 ==> url[k] == ':'
    ensures r == 3 || r == 4 ==> url[k] == '/'
  {
    hide ParseUrlChar, Cut;
    StepAt(url, false, k);
    RankGrows(StateAfter(url, false, k), url[k]);
    if r == 5 && k > 0 {
      CutsAreSharp(url, false, 5, |url|);
      assert RankAt(url, false, k - 1) < 5;
    }
    j := k - 1;
  }

  /** A first byte of the query follows its mark, one of the fragment its. */
  lemma PartFollowsMark(url: text, isConnect: bool, r: nat)
    requires Alive(url, isConnect, |url|) && (r == 8 || r == 10)
    requires Cut(url, isConnect, r, |url|) < Cut(url, isConnect, r + 1, |url|)
    ensures Cut(url, isConnect, r - 1, |url|) < Cut(url, isConnect, r, |url|)
  {
    hide ParseUrlChar, StateAfter, Cut;
    var k := Cut(url, isConnect, r, |url|);
    FirstState(url, isConnect);
    BytesOfRank(url, isConnect, r, k);
    StepAt(url, isConnect, k);
    RankGrows(StateAfter(url, isConnect, k), url[k]);
    CutsAreSharp(url, isConnect, r, |url|);
    CutsAreSharp(url, isConnect, r - 1, |url|);
    if k > 0 {
      assert RankAt(url, isConnect, k - 1) < r;
    }
  }

  /** Nothing stands before the schema or after the fragment; the target of CONNECT has no schema. */
  lemma OuterCuts(url: text, isConnect: bool)
    requires Alive(url, isConnect, |url|)
    ensures Cut(url, isConnect, 1, |url|) == 0 && Cut(url, isConnect, 11, |url|) == |url|
    ensures isConnect ==> Cut(url, isConnect, 5, |url|) == Cut(url, isConnect, 2, |url|) == 0
  {
    hide ParseUrlChar, StateAfter, Cut;
    forall k | 0 <= k < |url|
      ensures 1 <= RankAt(url, isConnect, k) < 11
      ensures isConnect ==> RankAt(url, isConnect, k) >= 5
    {
      AliveBefore(url, isConnect, k + 1, |url|);
      RanksGrow(url, isConnect, k + 1, k + 1);
      if isConnect {
        ConnectRank(url, k);
      }
    }
    CutNone(url, isConnect, 1, |url|);
    CutAll(url, isConnect, 11, |url|);
    if isConnect {
      CutNone(url, isConnect, 5, |url|);
      CutNone(url, isConnect, 2, |url|);
    }
  }

  lemma {:induction false} ConnectRank(url: text, k: nat)
    requires k < |url| && Alive(url, true, k + 1)
    ensures RankAt(url, true, k) >= 5
  {
    RankOfFirst();
    var s := StateAfter(url, true, k);
    if k == 0 {
      FirstConnectStep(url[0]);
    } else {
      hide ParseUrlChar;
      AliveBefore(url, true, k, k + 1);
      ConnectRank(url, k - 1);
      RankGrows(s, url[k]);
    }
  }

  lemma FirstConnectStep(ch: octet)
    ensures var s := ParseUrlChar(ReqServerStart, ch); s != Dead ==> Rank(s) >= 5
  {
  }

  /** The text of field `f`. */
  function TextOf(url: text, isConnect: bool, f: Field): text
    requires f != PortField && f != UserinfoField
  {
    var r := PartOf(url, isConnect, f);
    url[r.off..r.off + r.len]
  }

  /** Where rank `r` begins in the whole URL. */
  function CutOf(url: text, isConnect: bool, r: nat): (n: nat)
    ensures n <= |url|
  {
    Cut(url, isConnect, r, |url|)
  }

  lemma CutsInOrder(url: text, isConnect: bool, r: nat, q: nat)
    requires r <= q
    ensures CutOf(url, isConnect, r) <= CutOf(url, isConnect, q)
  {
    CutsAreOrdered(url, isConnect, r, q, |url|);
  }

  lemma TextByCuts(url: text, isConnect: bool, f: Field)
    requires f != PortField && f != UserinfoField
    ensures CutOf(url, isConnect, RankOf(f)) <= CutOf(url, isConnect, RankOf(f) + 1)
    ensures TextOf(url, isConnect, f) == url[CutOf(url, isConnect, RankOf(f))..CutOf(url, isConnect, RankOf(f) + 1)]
  {
    hide Cut, RankOf;
    CutsInOrder(url, isConnect, RankOf(f), RankOf(f) + 1);
  }

  lemma Order(url: text, isConnect: bool)
    requires Alive(url, isConnect, |url|)
    ensures
      var c := (r: nat) => CutOf(url, isConnect, r);
      0 == c(1) <= c(2) <= c(5) <= c(6) <= c(7) <= c(8) <= c(9) <= c(10) <= c(11) == |url|
  {
    OuterCuts(url, isConnect);
    hide Cut;
    CutsInOrder(url, isConnect, 1, 2);
    CutsInOrder(url, isConnect, 2, 5);
    CutsInOrder(url, isConnect, 5, 6);
    CutsInOrder(url, isConnect, 6, 7);
    CutsInOrder(url, isConnect, 7, 8);
    CutsInOrder(url, isConnect, 8, 9);
    CutsInOrder(url, isConnect, 9, 10);
    CutsInOrder(url, isConnect, 10, 11);
  }

  /** The texts of the parts, by the cuts. */
  lemma Texts(url: text, isConnect: bool)
    requires Alive(url, isConnect, |url|)
    ensures
      var c := (r: nat) => CutOf(url, isConnect, r);
      0 == c(1) <= c(2) <= c(5) <= c(6) <= c(7) <= c(8) <= c(9) <= c(10) <= c(11) == |url|
    ensures TextOf(url, isConnect, Schema) == url[CutOf(url, isConnect, 1)..CutOf(url, isConnect, 2)]
    ensures TextOf(url, isConnect, HostField) == url[CutOf(url, isConnect, 5)..CutOf(url, isConnect, 6)]
    ensures TextOf(url, isConnect, Path) == url[CutOf(url, isConnect, 6)..CutOf(url, isConnect, 7)]
    ensures TextOf(url, isConnect, Query) == url[CutOf(url, isConnect, 8)..CutOf(url, isConnect, 9)]
    ensures TextOf(url, isConnect, Fragment) == url[CutOf(url, isConnect, 10)..CutOf(url, isConnect, 11)]
  {
    hide CutOf, TextOf;
    Order(url, isConnect);
    TextByCuts(url, isConnect, Schema);
    TextByCuts(url, isConnect, HostField);
    TextByCuts(url, isConnect, Path);
    TextByCuts(url, isConnect, Query);
    TextByCuts(url, isConnect, Fragment);
  }

  predicate AllHash(s: text) {
    forall k :: 0 <= k < |s| ==> s[k] == '#'
  }

  lemma OneByte(url: text, i: nat)
    requires i < |url|
    ensures url[i..i + 1] == [url[i]]
  {
  }

  /** The marks of query and fragment are there when these are. */
  lemma Marks(url: text, isConnect: bool)
    requires Alive(url, isConnect, |url|)
    ensures
      var c := (r: nat) => CutOf(url, isConnect, r);
      && c(7) <= c(8) && c(9) <= c(10)
      && (url[c(7)..c(8)] == [] || url[c(7)..c(8)] == ['?']) && AllHash(url[c(9)..c(10)])
      && (c(8) < c(9) ==> c(7) < c(8)) && (c(10) < c(11) ==> c(9) < c(10))
  {
    hide Alive, Cut, StateAfter;
    QueryAndFragmentMarks(url, isConnect);
    var c7 := CutOf(url, isConnect, 7);
    if c7 < CutOf(url, isConnect, 8) {
      OneByte(url, c7);
    }
    if CutOf(url, isConnect, 8) < CutOf(url, isConnect, 9) {
      PartFollowsMark(url, isConnect, 8);
    }
    if CutOf(url, isConnect, 10) < CutOf(url, isConnect, 11) {
      PartFollowsMark(url, isConnect, 10);
    }
  }

  /** The parts stand in the URL one after the other, with nothing between them but the delimiters: the
      schema's `://`, one `?` and some `#`. */
  lemma {:induction false} PartsTile(url: text, isConnect: bool) returns (query: text, fragment: text)
    requires Alive(url, isConnect, |url|)
    requires TextOf(url, isConnect, Schema) != [] ==> TextOf(url, isConnect, HostField) != []
    ensures
      var schema := TextOf(url, isConnect, Schema);
      url == schema + (if schema == [] then [] else [':', '/', '/']) + TextOf(url, isConnect, HostField)
             + TextOf(url, isConnect, Path) + query + TextOf(url, isConnect, Query) + fragment
             + TextOf(url, isConnect, Fragment)
    ensures (query == [] || query == ['?']) && AllHash(fragment)
    ensures TextOf(url, isConnect, Query) != [] ==> query != []
    ensures TextOf(url, isConnect, Fragment) != [] ==> fragment != []
  {
    hide Alive, CutOf, TextOf, AllHash;
    Texts(url, isConnect);
    Marks(url, isConnect);
    SchemaCuts(url, isConnect);
    var c2, c5 := CutOf(url, isConnect, 2), CutOf(url, isConnect, 5);
    var c6, c7 := CutOf(url, isConnect, 6), CutOf(url, isConnect, 7);
    var c8, c9 := CutOf(url, isConnect, 8), CutOf(url, isConnect, 9);
    var c10 := CutOf(url, isConnect, 10);
    query, fragment := url[c7..c8], url[c9..c10];
    Tiles(url, c2, c5, c6, c7, c8, c9, c10);
  }

  /** What stands between the schema and the authority. */
  lemma SchemaCuts(url: text, isConnect: bool)
    requires Alive(url, isConnect, |url|)
    requires TextOf(url, isConnect, Schema) != [] ==> TextOf(url, isConnect, HostField) != []
    ensures
      var c2, c5 := CutOf(url, isConnect, 2), CutOf(url, isConnect, 5);
      c2 <= c5 && url[c2..c5] == if c2 == 0 then [] else [':', '/', '/']
  {
    hide Alive, Cut, StateAfter;
    OuterCuts(url, isConnect);
    CutsAreOrdered(url, isConnect, 2, 5, |url|);
    var c2, c5 := Cut(url, isConnect, 2, |url|), Cut(url, isConnect, 5, |url|);
    if c2 > 0 {
      SchemaMark(url);
    } else if c2 < c5 {
      NoSchemaNoMark(url, isConnect);
    }
  }

  /** A URL that begins with no schema has no mark after one. */
  lemma NoSchemaNoMark(url: text, isConnect: bool)
    requires Alive(url, isConnect, |url|) && Cut(url, isConnect, 2, |url|) == 0
    ensures Cut(url, isConnect, 5, |url|) == 0
  {
    hide ParseUrlChar, StateAfter, Cut;
    OuterCuts(url, isConnect);
    CutsAreSharp(url, isConnect, 2, |url|);
    CutsAreSharp(url, isConnect, 5, |url|);
    if !isConnect && Cut(url, isConnect, 5, |url|) > 0 {
      assert RankAt(url, false, 0) < 5;
      FirstState(url, false);
      StepAt(url, false, 0);
      RankGrows(ReqSpacesBeforeUrl, url[0]);
    }
  }

  lemma FirstState(url: text, isConnect: bool)
    ensures StateAfter(url, isConnect, 0) == First(isConnect) != Dead && !HasAt(url, isConnect, 0)
  {
  }

  lemma Tiles(url: text, c2: nat, c5: nat, c6: nat, c7: nat, c8: nat, c9: nat, c10: nat)
    requires c2 <= c5 <= c6 <= c7 <= c8 <= c9 <= c10 <= |url|
    ensures url == url[0..c2] + url[c2..c5] + url[c5..c6] + url[c6..c7] + url[c7..c8]
                   + url[c8..c9] + url[c9..c10] + url[c10..|url|]
  {
  }

  // ---- The splitter ----

  /** Some byte of the authority is an `@`. */
  predicate HasAt(url: text, isConnect: bool, i: nat)
    requires i <= |url|
  {
    i > 0 && (HasAt(url, isConnect, i - 1) || StateAfter(url, isConnect, i) == ReqServerWithAt)
  }

  /** The mark is one in the authority. */
  lemma {:induction false} AtIsInAuthority(url: text, isConnect: bool, i: nat)
    requires i <= |url| && Alive(url, isConnect, |url|)
    ensures HasAt(url, isConnect, i) <==> exists k :: 0 <= k < i && RankAt(url, isConnect, k) == 5 && url[k] == '@'
  {
    hide ParseUrlChar, Alive;
    if i > 0 {
      AtIsInAuthority(url, isConnect, i - 1);
      StepAt(url, isConnect, i - 1);
      RankGrows(StateAfter(url, isConnect, i - 1), url[i - 1]);
    }
  }

  /** The splitter looks for user information exactly when the authority holds an `@`. */
  lemma {:induction false} AtExactlyWhenInText(url: text, isConnect: bool)
    requires Alive(url, isConnect, |url|)
    ensures HasAt(url, isConnect, |url|) <==> '@' in TextOf(url, isConnect, HostField)
  {
    hide ParseUrlChar, HasAt, StateAfter, Alive, RankAt, Cut;
    AtIsInAuthority(url, isConnect, |url|);
    CutsAreSharp(url, isConnect, 5, |url|);
    CutsAreSharp(url, isConnect, 6, |url|);
    CutsAreOrdered(url, isConnect, 5, 6, |url|);
    var lo, hi := Cut(url, isConnect, 5, |url|), Cut(url, isConnect, 6, |url|);
    var a := TextOf(url, isConnect, HostField);
    forall k | 0 <= k < |url| && RankAt(url, isConnect, k) == 5 && url[k] == '@'
      ensures '@' in a
    {
      assert a[k - lo] == '@';
    }
    if '@' in a {
      var j :| 0 <= j < |a| && a[j] == '@';
      assert RankAt(url, isConnect, lo + j) == 5 && url[lo + j] == '@';
    }
  }

  const MAX_PORT := 0xFFFF

  /** The port digits of an authority of the form. */
  function PortText(a: text, c: Cuts): text
    requires c.end < |a|
  {
    a[c.end + 1..]
  }

  /** An authority the splitter accepts: of the form, with a port that fits 16 bits; for CONNECT it is
      just a host and a port. */
  ghost predicate GoodAuthority(a: text, isConnect: bool, foundAt: bool, c: Cuts) {
    && HasForm(a, foundAt, c)
    && (c.end < |a| ==> Decimal(PortText(a, c)) <= MAX_PORT)
    && (isConnect ==> c.end < |a| && (foundAt ==> c.at == 0))
  }

  /** The URLs that are split. */
  ghost predicate Splittable(url: text, isConnect: bool) {
    && url != []
    && Alive(url, isConnect, |url|)
    && (PartOf(url, isConnect, Schema).len > 0 ==> PartOf(url, isConnect, HostField).len > 0)
    && (PartOf(url, isConnect, HostField).len > 0 ==> exists c :: GoodHost(url, isConnect, c))
    && (isConnect ==>
          && PartOf(url, isConnect, HostField).len > 0
          && PartOf(url, isConnect, Schema).len == 0 && PartOf(url, isConnect, Path).len == 0
          && PartOf(url, isConnect, Query).len == 0 && PartOf(url, isConnect, Fragment).len == 0)
  }

  ghost predicate GoodHost(url: text, isConnect: bool, c: Cuts) {
    GoodAuthority(TextOf(url, isConnect, HostField), isConnect, HasAt(url, isConnect, |url|), c)
  }

  /** Field `f`, as far as the first `i` bytes go: present or not, and where. */
  predicate NotedOne(url: text, isConnect: bool, i: nat, f: Field, present: bool, r: Range)
    requires i <= |url|
  {
    var lo, hi := Cut(url, isConnect, RankOf(f), i), Cut(url, isConnect, RankOf(f) + 1, i);
    (present <==> lo < hi) && (present ==> r == Range(lo, hi - lo))
  }

  /** `fields` and `data` are the parts that begin among the first `i` bytes. */
  predicate Noted(url: text, isConnect: bool, i: nat, fields: set<Field>, data: map<Field, Range>)
    requires i <= |url|
  {
    && PortField !in fields && UserinfoField !in fields
    && forall f: Field | f != PortField && f != UserinfoField ::
         f in data && NotedOne(url, isConnect, i, f, f in fields, data[f])
  }

  lemma CutStep(url: text, isConnect: bool, r: nat, i: nat)
    requires i < |url|
    ensures Cut(url, isConnect, r, i + 1) == Cut(url, isConnect, r, i) + if RankAt(url, isConnect, i) < r then 1 else 0
  {
  }

  /** What the byte at `i` does to field `f`: it begins it or makes it longer if it has its rank. */
  lemma NotedOneMore(url: text, isConnect: bool, i: nat, f: Field, present: bool, r: Range)
    requires i < |url| && Alive(url, isConnect, i + 1) && NotedOne(url, isConnect, i, f, present, r)
    ensures
      if RankAt(url, isConnect, i) != RankOf(f) then NotedOne(url, isConnect, i + 1, f, present, r)
      else NotedOne(url, isConnect, i + 1, f, true, if present then Range(r.off, r.len + 1) else Range(i, 1))
  {
    hide Cut, RankAt, RankOf;
    var q := RankOf(f);
    CutStep(url, isConnect, q, i);
    CutStep(url, isConnect, q + 1, i);
    CutsAreOrdered(url, isConnect, q, q + 1, i);
    if RankAt(url, isConnect, i) < q {
      CutsAbove(url, isConnect, i, q);
    }
    if RankAt(url, isConnect, i) <= q {
      CutsAbove(url, isConnect, i, q + 1);
    }
  }

  /** A delimiter begins and continues no field. */
  lemma NotedDelimiter(url: text, isConnect: bool, i: nat, fields: set<Field>, data: map<Field, Range>)
    requires i < |url| && Alive(url, isConnect, i + 1) && Noted(url, isConnect, i, fields, data)
    requires forall f: Field :: RankOf(f) != RankAt(url, isConnect, i)
    ensures Noted(url, isConnect, i + 1, fields, data)
  {
    hide NotedOne, RankOf, RankAt;
    forall f: Field | f != PortField && f != UserinfoField
      ensures NotedOne(url, isConnect, i + 1, f, f in fields, data[f])
    {
      NotedOneMore(url, isConnect, i, f, f in fields, data[f]);
    }
  }

  /** A byte of field `g` begins it or makes it longer. */
  lemma NotedField(url: text, isConnect: bool, i: nat, fields: set<Field>, data: map<Field, Range>, g: Field)
    requires i < |url| && Alive(url, isConnect, i + 1) && Noted(url, isConnect, i, fields, data)
    requires g != PortField && g != UserinfoField && RankOf(g) == RankAt(url, isConnect, i)
    ensures
      var r := if g in fields then Range(data[g].off, data[g].len + 1) else Range(i, 1);
      Noted(url, isConnect, i + 1, fields + {g}, data[g := r])
  {
    hide NotedOne, RankAt;
    var r := if g in fields then Range(data[g].off, data[g].len + 1) else Range(i, 1);
    var fields', data' := fields + {g}, data[g := r];
    forall f: Field | f != PortField && f != UserinfoField
      ensures NotedOne(url, isConnect, i + 1, f, f in fields', data'[f])
    {
      NotedOneMore(url, isConnect, i, f, f in fields, data[f]);
      assert RankOf(f) == RankOf(g) ==> f == g;
    }
  }

  // ---- The splitter object ----

  /** The field that the bytes of a state belong to, if any. */
  datatype FieldOf = Of(f: Field) | Delimiter

  function FieldOfState(s: State): FieldOf {
    match s
    case ReqSchema => Of(Schema)
    case ReqServer => Of(HostField)
    case ReqServerWithAt => Of(HostField)
    case ReqPath => Of(Path)
    case ReqQueryString => Of(Query)
    case ReqFragment => Of(Fragment)
    case _ => Delimiter
  }

  lemma FieldHasRank(s: State)
    ensures FieldOfState(s).Of? ==>
      RankOf(FieldOfState(s).f) == Rank(s) && FieldOfState(s).f != PortField && FieldOfState(s).f != UserinfoField
    ensures FieldOfState(s).Delimiter? ==> forall f: Field :: RankOf(f) != Rank(s)
  {
  }

  const ALL_FIELDS := {Schema, HostField, PortField, Path, Query, Fragment, UserinfoField}

  lemma IsField(f: Field)
    ensures f in ALL_FIELDS
  {
  }

  class UrlParts {
    var fieldSet: set<Field>
    var port: nat
    var data: map<Field, Range>

    ghost predicate Valid()
      reads this
    {
      forall f: Field :: f in data
    }

    constructor ()
      ensures Valid()
    {
      fieldSet, port := {}, 0;
      data := map f: Field | f in ALL_FIELDS :: Range(0, 0);
      new;
      forall f: Field
        ensures f in data
      {
        IsField(f);
      }
    }

    /** The loop over the URL: 1 when it is not one; otherwise the parts are noted. */
    method Scan(url: text, isConnect: bool) returns (r: int, foundAt: bool)
      requires Valid() && |url| <= MAX_URL
      modifies this
      ensures Valid()
      ensures r == 0 <==> Alive(url, isConnect, |url|)
      ensures port == 0
      ensures r == 0 ==> foundAt == HasAt(url, isConnect, |url|) && Noted(url, isConnect, |url|, fieldSet, data)
    {
      hide ParseUrlChar, Noted, Rank, FieldOfState, RankOf, LastField, StateAfter, HasAt;
      NothingLast(isConnect);
      FirstState(url, isConnect);
      port, fieldSet := 0, {};
      NothingNoted(url, isConnect, data);
      foundAt := false;
      var s := First(isConnect);
      var last: FieldOf := Delimiter;
      var p := 0;
      while p < |url|
        invariant p <= |url| && s == StateAfter(url, isConnect, p) && Alive(url, isConnect, p)
        invariant Valid() && foundAt == HasAt(url, isConnect, p)
        invariant Noted(url, isConnect, p, fieldSet, data)
        invariant port == 0 && LastField(last, fieldSet, Rank(s))
        invariant PortField !in fieldSet && UserinfoField !in fieldSet
      {
        var s0 := s;
        s := ParseUrlChar(s, url[p]);
        StateOfOneMore(url, isConnect, p);
        if s == Dead {
          if Alive(url, isConnect, |url|) {
            AliveBefore(url, isConnect, p + 1, |url|);
          }
          return 1, foundAt;
        }
        FieldHasRank(s);
        RanksGrow(url, isConnect, p, p + 1);
        if s == ReqServerWithAt {
          foundAt := true;
        }
        match FieldOfState(s) {
          case Delimiter =>
            NotedDelimiter(url, isConnect, p, fieldSet, data);
            LastStays(last, fieldSet, Rank(s0), Rank(s));
          case Of(f) =>
            LastExactly(last, fieldSet, Rank(s0), Rank(s), f);
            NotedField(url, isConnect, p, fieldSet, data, f);
            NoteField(f, p, last == Of(f));
            last := Of(f);
        }
        p := p + 1;
      }
      r := 0;
    }

    /** Makes field `f` longer by a byte, or begins it at `p`. */
    method NoteField(f: Field, p: nat, again: bool)
      requires Valid() && (again ==> f in fieldSet)
      modifies `fieldSet, `data
      ensures data == old(data)[f := if again then Range(old(data)[f].off, old(data)[f].len + 1) else Range(p, 1)]
      ensures fieldSet == old(fieldSet) + {f}
    {
      if again {
        data := data[f := Range(data[f].off, data[f].len + 1)];
        return;
      }
      data := data[f := Range(p, 1)];
      fieldSet := fieldSet + {f};
    }

    /** Splits the authority that has been noted. */
    method SplitHost(url: text, isConnect: bool, foundAt: bool) returns (ok: bool, ghost c: Cuts)
      requires Valid() && HostField in fieldSet && Noted(url, isConnect, |url|, fieldSet, data)
      modifies `fieldSet, `data
      ensures Valid()
      ensures ok <==> IsAuthority(TextOf(url, isConnect, HostField), foundAt)
      ensures ok ==> HasForm(TextOf(url, isConnect, HostField), foundAt, c)
      ensures ok ==> HostSplit(url, isConnect, foundAt, fieldSet, data, c)
      ensures fieldSet - {PortField, UserinfoField} == old(fieldSet)
      ensures forall f: Field :: f != HostField && f != PortField && f != UserinfoField ==> data[f] == old(data)[f]
    {
      hide HasForm, Cut;
      assert data[HostField] == PartOf(url, isConnect, HostField);
      var off, len := data[HostField].off, data[HostField].len;
      ghost var a := TextOf(url, isConnect, HostField);
      assert url[off..off + len] == a;
      var found;
      ok, found, c := ParseHost(url, off, len, foundAt);
      if !ok {
        return;
      }
      data := data[HostField := found.host];
      if found.hasPort {
        data, fieldSet := data[PortField := found.port], fieldSet + {PortField};
      }
      if found.hasUserinfo {
        data, fieldSet := data[UserinfoField := found.userinfo], fieldSet + {UserinfoField};
      }
    }

    /** Reads the port digits, unless their value needs more than 16 bits. */
    method ReadPort(url: text) returns (ok: bool)
      requires PortField in data && data[PortField].off + data[PortField].len <= |url|
      requires AllDigits(Slice(url, data[PortField]))
      modifies `port
      ensures ok <==> Decimal(Slice(url, data[PortField])) <= MAX_PORT
      ensures ok ==> port == Decimal(Slice(url, data[PortField]))
    {
      var off, len := data[PortField].off, data[PortField].len;
      ghost var digits := Slice(url, data[PortField]);
      var v, p := 0, off;
      while p < off + len
        invariant off <= p <= off + len && v == Decimal(digits[..p - off]) <= MAX_PORT
      {
        assert digits[..p - off + 1] == digits[..p - off] + [url[p]];
        DecimalOfOneMore(digits[..p - off], url[p]);
        v := v * 10 + Digit(url[p]);
        p := p + 1;
        if v > MAX_PORT {
          DecimalGrows(digits, p - off);
          return false;
        }
      }
      assert digits[..p - off] == digits;
      port := v;
      ok := true;
    }

    /** `http_parser_parse_url`: 0 exactly for the URLs that can be split, and then every part is noted
        where it stands in the URL. */
    method Parse(url: text, isConnect: bool) returns (r: int, ghost c: Cuts)
      requires Valid() && |url| <= MAX_URL
      modifies this
      ensures Valid()
      ensures r == 0 <==> Splittable(url, isConnect)
      ensures r == 0 ==> IsSplit(url, isConnect, fieldSet, data, port, c)
    {
      hide Noted, HasForm, Alive, HostSplit, TextOf, PartOf, HasAt, GoodHost, Decimal, Slice, AllDigits, PortText;
      c := Cuts(0, 0, 0, 0, 0);
      if |url| == 0 {
        return 1, c;
      }
      var foundAt;
      r, foundAt := Scan(url, isConnect);
      if r != 0 {
        return;
      }
      PartsNoted(url, isConnect, fieldSet, data);
      if Schema in fieldSet && HostField !in fieldSet {
        return 1, c;
      }
      if HostField in fieldSet {
        var ok;
        ok, c := SplitHost(url, isConnect, foundAt);
        if !ok {
          NoGoodHost(url, isConnect);
          return 1, c;
        }
        GoodExactly(url, isConnect, fieldSet, data, c);
      }
      assert fieldSet == {HostField, PortField} <==> forall f: Field :: f in fieldSet <==> f in {HostField, PortField};
      if isConnect && fieldSet != {HostField, PortField} {
        return 1, c;
      }
      if PortField in fieldSet {
        PortIsSlice(url, isConnect, fieldSet, data, c);
        var ok := ReadPort(url);
        if !ok {
          return 1, c;
        }
      }
    }
  }

  function Slice(url: text, r: Range): text
    requires r.off + r.len <= |url|
  {
    url[r.off..r.off + r.len]
  }

  /** `fields` and `data` hold the parts of the authority, cut at `c`. */
  predicate HostSplit(url: text, isConnect: bool, foundAt: bool, fields: set<Field>, data: map<Field, Range>, c: Cuts) {
    && HostField in data && PortField in data && UserinfoField in data
    && var a := PartOf(url, isConnect, HostField);
       Parts(Found(data[HostField], data[PortField], PortField in fields, data[UserinfoField], UserinfoField in fields),
             a.off, a.len, foundAt, c)
  }

  /** The outcome of splitting a URL: every part that is not empty is present, and where it stands. */
  ghost predicate IsSplit(url: text, isConnect: bool, fields: set<Field>, data: map<Field, Range>, port: nat, c: Cuts) {
    && (forall f: Field | f != HostField && f != PortField && f != UserinfoField ::
          (f in fields <==> PartOf(url, isConnect, f).len > 0)
          && (f in fields ==> f in data && data[f] == PartOf(url, isConnect, f)))
    && (HostField in fields <==> PartOf(url, isConnect, HostField).len > 0)
    && (HostField in fields ==>
          && GoodHost(url, isConnect, c)
          && HostSplit(url, isConnect, HasAt(url, isConnect, |url|), fields, data, c))
    && (HostField !in fields ==> PortField !in fields && UserinfoField !in fields)
    && port == if PortField in fields then Decimal(PortText(TextOf(url, isConnect, HostField), c)) else 0
  }

  /** Whether the authority is good can be read off its parts. */
  lemma GoodExactly(url: text, isConnect: bool, fields: set<Field>, data: map<Field, Range>, c: Cuts)
    requires HasForm(TextOf(url, isConnect, HostField), HasAt(url, isConnect, |url|), c)
    requires HostSplit(url, isConnect, HasAt(url, isConnect, |url|), fields, data, c)
    ensures
      var a := TextOf(url, isConnect, HostField);
      && (PortField in fields <==> c.end < |a|)
      && (GoodHost(url, isConnect, c) <==>
            && (PortField in fields ==> Decimal(PortText(a, c)) <= MAX_PORT)
            && (isConnect ==> PortField in fields && UserinfoField !in fields))
    ensures (exists d :: GoodHost(url, isConnect, d)) ==> GoodHost(url, isConnect, c)
  {
    hide HasAt, PartOf, HostIs, Decimal, AllDigits, IsNum;
    var a := TextOf(url, isConnect, HostField);
    assert |a| == PartOf(url, isConnect, HostField).len;
    if d :| GoodHost(url, isConnect, d) {
      GoodForAny(url, isConnect, c, d);
    }
  }

  lemma GoodForAny(url: text, isConnect: bool, c: Cuts, d: Cuts)
    requires HasForm(TextOf(url, isConnect, HostField), HasAt(url, isConnect, |url|), c) && GoodHost(url, isConnect, d)
    ensures GoodHost(url, isConnect, c)
  {
    hide HasAt, TextOf, HasForm, Decimal, AllDigits, IsNum;
    FormIsUnique(TextOf(url, isConnect, HostField), HasAt(url, isConnect, |url|), c, d);
    FormHasDigits(TextOf(url, isConnect, HostField), HasAt(url, isConnect, |url|), c);
  }

  lemma FormHasDigits(a: text, foundAt: bool, c: Cuts)
    requires HasForm(a, foundAt, c)
    ensures c.end <= |a| && (c.end < |a| ==> AllDigits(PortText(a, c)))
  {
  }

  lemma NoGoodHost(url: text, isConnect: bool)
    requires !IsAuthority(TextOf(url, isConnect, HostField), HasAt(url, isConnect, |url|))
    ensures forall d :: !GoodHost(url, isConnect, d)
  {
  }

  /** The port noted is the text of the digits. */
  lemma PortIsSlice(url: text, isConnect: bool, fields: set<Field>, data: map<Field, Range>, c: Cuts)
    requires HasForm(TextOf(url, isConnect, HostField), HasAt(url, isConnect, |url|), c)
    requires HostSplit(url, isConnect, HasAt(url, isConnect, |url|), fields, data, c) && PortField in fields
    ensures
      var a, r := TextOf(url, isConnect, HostField), data[PortField];
      && c.end < |a| && r.off + r.len <= |url|
      && Slice(url, r) == PortText(a, c) && AllDigits(PortText(a, c))
  {
    hide HasAt, PartOf, IsNum, HostIs;
  }

  /** What is noted of the whole URL are its parts. */
  lemma PartsNoted(url: text, isConnect: bool, fields: set<Field>, data: map<Field, Range>)
    requires Noted(url, isConnect, |url|, fields, data)
    ensures forall f: Field | f != PortField && f != UserinfoField ::
              (f in fields <==> PartOf(url, isConnect, f).len > 0)
              && (f in fields ==> data[f] == PartOf(url, isConnect, f))
    ensures PortField !in fields && UserinfoField !in fields
  {
    hide Cut;
  }

  /** `last` is the field noted last, and no field noted ranks above it. */
  predicate LastField(last: FieldOf, fields: set<Field>, rank: nat) {
    match last
    case Delimiter => fields == {}
    case Of(f) => f in fields && RankOf(f) <= rank && forall g <- fields :: RankOf(g) <= RankOf(f)
  }

  lemma StateOfOneMore(url: text, isConnect: bool, i: nat)
    requires i < |url|
    ensures StateAfter(url, isConnect, i + 1) == ParseUrlChar(StateAfter(url, isConnect, i), url[i])
    ensures
      HasAt(url, isConnect, i + 1)
      <==> HasAt(url, isConnect, i) || StateAfter(url, isConnect, i + 1) == ReqServerWithAt
  {
    hide ParseUrlChar;
  }

  lemma NothingLast(isConnect: bool)
    ensures LastField(Delimiter, {}, Rank(First(isConnect)))
  {
  }

  lemma LastStays(last: FieldOf, fields: set<Field>, rank: nat, rank': nat)
    requires LastField(last, fields, rank) && rank <= rank'
    ensures LastField(last, fields, rank')
  {
  }

  /** A field met again is the one noted last. */
  lemma LastExactly(last: FieldOf, fields: set<Field>, rank: nat, rank': nat, f: Field)
    requires LastField(last, fields, rank) && rank <= rank' && RankOf(f) == rank' && f != PortField && f != UserinfoField
    requires PortField !in fields && UserinfoField !in fields
    ensures last == Of(f) <==> f in fields
    ensures LastField(Of(f), fields + {f}, rank')
  {
  }

  lemma NothingNoted(url: text, isConnect: bool, data: map<Field, Range>)
    requires forall f: Field :: f in data
    ensures Noted(url, isConnect, 0, {}, data)
  {
  }
}
