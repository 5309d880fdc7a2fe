/**
  The URLs of the parser as a grammar: which texts the automaton takes for a URL, and what it takes for
  their parts.
 */
module UrlGrammar {
  import opened HttpParser
  import opened Decimals
  import opened UrlAuthority
  import opened UrlParser

  const MARK: text := [':', '/', '/']

  /** A URL in pieces: `mark` is as much of `://` as there is, `query` and `fragment` begin with their
      delimiters. */
  datatype Pieces = Pieces(schema: text, mark: text, authority: text, path: text, query: text, fragment: text) {
    function Text(): text {
      schema + mark + authority + path + query + fragment
    }
  }

  predicate IsServerChar(c: octet) {
    IsUserinfoChar(c) || c == '[' || c == ']' || c == '@'
  }

  predicate IsQueryChar(c: octet) {
    IsUrlChar(c) || c == '?'
  }

  predicate IsFragmentChar(c: octet) {
    IsUrlChar(c) || c == '?' || c == '#'
  }

  predicate Each(s: text, from: nat, kind: octet -> bool) {
    forall k :: from <= k < |s| ==> kind(s[k])
  }

  predicate NoDoubleAt(s: text) {
    forall k :: 0 < k < |s| ==> !(s[k - 1] == '@' && s[k] == '@')
  }

  /** What may stand in the pieces, and which piece needs which before it. */
  predicate IsLayout(p: Pieces, isConnect: bool) {
    var server := isConnect || p.mark == MARK;
    && Each(p.schema, 0, IsAlpha) && (isConnect ==> p.schema == [])
    && p.mark <= MARK && (p.mark != [] ==> p.schema != [])
    && Each(p.authority, 0, IsServerChar) && NoDoubleAt(p.authority) && (p.authority != [] ==> server)
    && (p.path != [] ==>
          && (server || p.schema == [])
          && (p.path[0] == '/' || (p.path[0] == '*' && !server))
          && Each(p.path, 1, IsUrlChar))
    && (p.query != [] ==> (server || p.path != []) && p.query[0] == '?' && Each(p.query, 1, IsQueryChar))
    && (p.fragment != [] ==>
          (p.path != [] || p.query != []) && p.fragment[0] == '#' && Each(p.fragment, 1, IsFragmentChar))
  }

  /** The state in which the automaton is after a layout. */
  function StateOf(p: Pieces, isConnect: bool): State {
    if p.fragment != [] then if AllHash(p.fragment) then ReqFragmentStart else ReqFragment
    else if p.query != [] then if |p.query| == 1 then ReqQueryStringStart else ReqQueryString
    else if p.path != [] then ReqPath
    else if p.authority != [] then if p.authority[|p.authority| - 1] == '@' then ReqServerWithAt else ReqServer
    else if isConnect || |p.mark| == 3 then ReqServerStart
    else if |p.mark| == 2 then ReqSchemaSlashSlash
    else if |p.mark| == 1 then ReqSchemaSlash
    else if p.schema != [] then ReqSchema
    else First(isConnect)
  }

  /** The pieces with one more byte, which belongs to the piece of the new state. */
  function Add(p: Pieces, s: State, ch: octet): Pieces {
    match Rank(s)
    case 1 => p.(schema := p.schema + [ch])
    case 2 => p.(mark := p.mark + [ch])
    case 3 => p.(mark := p.mark + [ch])
    case 4 => p.(mark := p.mark + [ch])
    case 5 => p.(authority := p.authority + [ch])
    case 6 => p.(path := p.path + [ch])
    case 7 => p.(query := p.query + [ch])
    case 8 => p.(query := p.query + [ch])
    case _ => p.(fragment := p.fragment + [ch])
  }

  /** The pieces without their last byte. */
  function Drop(p: Pieces): Pieces {
    if p.fragment != [] then p.(fragment := p.fragment[..|p.fragment| - 1])
    else if p.query != [] then p.(query := p.query[..|p.query| - 1])
    else if p.path != [] then p.(path := p.path[..|p.path| - 1])
    else if p.authority != [] then p.(authority := p.authority[..|p.authority| - 1])
    else if p.mark != [] then p.(mark := p.mark[..|p.mark| - 1])
    else if p.schema != [] then p.(schema := p.schema[..|p.schema| - 1])
    else p
  }

  /** The state tells which pieces have not begun. */
  lemma StateTells(p: Pieces, isConnect: bool)
    requires IsLayout(p, isConnect)
    ensures
      var r := Rank(StateOf(p, isConnect));
      && (r < 9 ==> p.fragment == []) && (r < 7 ==> p.query == []) && (r < 6 ==> p.path == [])
      && (r < 5 ==> p.authority == []) && (r < 2 ==> p.mark == []) && (r < 1 ==> p.schema == [])
      && StateOf(p, isConnect) != Dead && (r > 0 || StateOf(p, isConnect) == ReqSpacesBeforeUrl)
  {
    hide Each, NoDoubleAt, AllHash;
  }

  /** A byte is added behind all others. */
  lemma AddText(p: Pieces, s: State, ch: octet)
    requires
      var r := Rank(s);
      && (r < 9 ==> p.fragment == []) && (r < 7 ==> p.query == []) && (r < 6 ==> p.path == [])
      && (r < 5 ==> p.authority == []) && (r < 2 ==> p.mark == []) && r > 0
    ensures Add(p, s, ch).Text() == p.Text() + [ch]
  {
    hide Rank, Add;
    AddIs(p, s, ch);
    if Rank(s) == 1 {
      assert p.Text() == p.schema;
    } else if Rank(s) <= 4 {
      assert p.Text() == p.schema + p.mark;
    } else if Rank(s) == 5 {
      assert p.Text() == p.schema + p.mark + p.authority;
    } else if Rank(s) == 6 {
      assert p.Text() == p.schema + p.mark + p.authority + p.path;
    } else if Rank(s) <= 8 {
      assert p.Text() == p.schema + p.mark + p.authority + p.path + p.query;
    }
  }

  /** What a byte that is part of a URL is in the state it leads to. */
  lemma BytesOfState(s: State, ch: octet)
    requires Rank(s) > 0 || s == ReqSpacesBeforeUrl
    ensures
      var s' := ParseUrlChar(s, ch);
      s' != Dead ==>
        && (Rank(s') == 1 ==> IsAlpha(ch) && s' == ReqSchema)
        && (Rank(s') == 2 ==> s' == ReqSchemaSlash) && (Rank(s') == 3 ==> s' == ReqSchemaSlashSlash)
        && (Rank(s') == 4 ==> s' == ReqServerStart)
        && (Rank(s') == 5 ==> IsServerChar(ch) && (ch == '@' ==> s != ReqServerWithAt) && 4 <= Rank(s))
        && (Rank(s') == 6 ==> if s == ReqPath then IsUrlChar(ch) else ch == '/' || (ch == '*' && s == ReqSpacesBeforeUrl))
        && (Rank(s') == 6 && s != ReqPath ==> s == ReqSpacesBeforeUrl || 4 <= Rank(s) <= 5)
        && (Rank(s') == 7 ==> s' == ReqQueryStringStart && 4 <= Rank(s) <= 6)
        && (Rank(s') == 8 ==> s' == ReqQueryString && IsQueryChar(ch))
        && (Rank(s') == 9 ==> s' == ReqFragmentStart && 6 <= Rank(s) <= 9 && IsFragmentChar(ch))
        && (Rank(s') == 10 ==> s' == ReqFragment && IsFragmentChar(ch) && 9 <= Rank(s) && (Rank(s) == 9 ==> ch != '#'))
  {
    hide IsUserinfoChar, IsAlpha;
  }

  lemma AddIs(p: Pieces, s: State, ch: octet)
    ensures
      var r, q := Rank(s), Add(p, s, ch);
      && (r == 1 ==> q == p.(schema := p.schema + [ch])) && (2 <= r <= 4 ==> q == p.(mark := p.mark + [ch]))
      && (r == 5 ==> q == p.(authority := p.authority + [ch])) && (r == 6 ==> q == p.(path := p.path + [ch]))
      && (7 <= r <= 8 ==> q == p.(query := p.query + [ch])) && (9 <= r ==> q == p.(fragment := p.fragment + [ch]))
  {
    hide Rank;
  }

  lemma AddToSchema(p: Pieces, isConnect: bool, ch: octet)
    requires IsLayout(p, isConnect) && Rank(StateOf(p, isConnect)) <= 1 && IsAlpha(ch)
    requires StateOf(p, isConnect) == ReqSpacesBeforeUrl || StateOf(p, isConnect) == ReqSchema
    ensures
      var q := p.(schema := p.schema + [ch]);
      IsLayout(q, isConnect) && StateOf(q, isConnect) == ReqSchema
  {
    hide IsUrlChar, IsUserinfoChar, IsAlpha;
    StateTells(p, isConnect);
  }

  lemma AddToMark(p: Pieces, isConnect: bool, s: State, ch: octet)
    requires IsLayout(p, isConnect)
    requires
      var s0 := StateOf(p, isConnect);
      || (s0 == ReqSchema && s == ReqSchemaSlash && ch == ':')
      || (s0 == ReqSchemaSlash && s == ReqSchemaSlashSlash && ch == '/')
      || (s0 == ReqSchemaSlashSlash && s == ReqServerStart && ch == '/')
    ensures
      var q := p.(mark := p.mark + [ch]);
      IsLayout(q, isConnect) && StateOf(q, isConnect) == s
  {
    hide IsUrlChar, IsUserinfoChar, IsAlpha;
    StateTells(p, isConnect);
    assert MARK[..1] == [':'] && MARK[..2] == [':', '/'];
  }

  lemma AddToAuthority(p: Pieces, isConnect: bool, ch: octet)
    requires IsLayout(p, isConnect) && 4 <= Rank(StateOf(p, isConnect)) <= 5
    requires IsServerChar(ch) && (ch == '@' ==> StateOf(p, isConnect) != ReqServerWithAt)
    ensures
      var q := p.(authority := p.authority + [ch]);
      IsLayout(q, isConnect) && StateOf(q, isConnect) == if ch == '@' then ReqServerWithAt else ReqServer
  {
    hide IsUrlChar, IsServerChar, IsAlpha;
    StateTells(p, isConnect);
    MarkIsWhole(p, isConnect);
  }

  /** Where a server may begin, the mark is whole. */
  lemma MarkIsWhole(p: Pieces, isConnect: bool)
    requires IsLayout(p, isConnect) && 4 <= Rank(StateOf(p, isConnect)) <= 5
    ensures isConnect || p.mark == MARK
  {
    hide IsUrlChar, IsUserinfoChar, IsAlpha, Each, NoDoubleAt, AllHash;
  }

  lemma AddToPath(p: Pieces, isConnect: bool, ch: octet)
    requires IsLayout(p, isConnect)
    requires
      var s0 := StateOf(p, isConnect);
      if s0 == ReqPath then IsUrlChar(ch)
      else (s0 == ReqSpacesBeforeUrl || 4 <= Rank(s0) <= 5) && (ch == '/' || (ch == '*' && s0 == ReqSpacesBeforeUrl))
    ensures
      var q := p.(path := p.path + [ch]);
      IsLayout(q, isConnect) && StateOf(q, isConnect) == ReqPath
  {
    hide IsUrlChar, IsServerChar, IsAlpha, NoDoubleAt;
    StateTells(p, isConnect);
    if 4 <= Rank(StateOf(p, isConnect)) <= 5 {
      MarkIsWhole(p, isConnect);
    }
    PathBegun(p, isConnect);
  }

  lemma PathBegun(p: Pieces, isConnect: bool)
    requires IsLayout(p, isConnect) && Rank(StateOf(p, isConnect)) <= 6
    ensures p.path != [] <==> StateOf(p, isConnect) == ReqPath
  {
    hide IsUrlChar, IsUserinfoChar, IsAlpha, Each, NoDoubleAt, AllHash;
  }

  lemma AddToQuery(p: Pieces, isConnect: bool, ch: octet)
    requires IsLayout(p, isConnect)
    requires
      var s0 := StateOf(p, isConnect);
      if 7 <= Rank(s0) <= 8 then IsQueryChar(ch) else 4 <= Rank(s0) <= 6 && ch == '?'
    ensures
      var q := p.(query := p.query + [ch]);
      && IsLayout(q, isConnect)
      && StateOf(q, isConnect) == if Rank(StateOf(p, isConnect)) < 7 then ReqQueryStringStart else ReqQueryString
  {
    hide IsQueryChar, IsUrlChar, IsServerChar, IsAlpha, NoDoubleAt;
    StateTells(p, isConnect);
    if 4 <= Rank(StateOf(p, isConnect)) <= 5 {
      MarkIsWhole(p, isConnect);
    } else if Rank(StateOf(p, isConnect)) == 6 {
      PathBegun(p, isConnect);
    } else {
      QueryBegun(p, isConnect);
    }
  }

  lemma QueryBegun(p: Pieces, isConnect: bool)
    requires IsLayout(p, isConnect) && 7 <= Rank(StateOf(p, isConnect))
    ensures Rank(StateOf(p, isConnect)) <= 8 ==> p.query != []
    ensures 9 <= Rank(StateOf(p, isConnect)) <==> p.fragment != []
    ensures Rank(StateOf(p, isConnect)) == 9 ==> AllHash(p.fragment)
    ensures Rank(StateOf(p, isConnect)) == 10 ==> !AllHash(p.fragment)
  {
    hide IsUrlChar, IsUserinfoChar, IsAlpha, Each, NoDoubleAt, AllHash;
  }

  lemma AddToFragment(p: Pieces, isConnect: bool, ch: octet)
    requires IsLayout(p, isConnect)
    requires
      var s0 := StateOf(p, isConnect);
      if 9 <= Rank(s0) then IsFragmentChar(ch) else 6 <= Rank(s0) && ch == '#'
    ensures
      var q := p.(fragment := p.fragment + [ch]);
      && IsLayout(q, isConnect)
      && StateOf(q, isConnect) == if Rank(StateOf(p, isConnect)) <= 9 && ch == '#' then ReqFragmentStart else ReqFragment
  {
    hide IsQueryChar, IsFragmentChar, IsUrlChar, IsServerChar, IsAlpha, NoDoubleAt;
    StateTells(p, isConnect);
    var q := p.(fragment := p.fragment + [ch]);
    if Rank(StateOf(p, isConnect)) == 6 {
      PathBegun(p, isConnect);
    } else {
      QueryBegun(p, isConnect);
    }
    HashesAndOne(p.fragment, ch);
  }

  lemma HashesAndOne(s: text, ch: octet)
    ensures AllHash(s + [ch]) <==> AllHash(s) && ch == '#'
  {
    assert (s + [ch])[|s|] == ch;
    assert forall k :: 0 <= k < |s| ==> (s + [ch])[k] == s[k];
  }

  lemma AddLayout(p: Pieces, isConnect: bool, ch: octet)
    requires IsLayout(p, isConnect)
    requires ParseUrlChar(StateOf(p, isConnect), ch) != Dead
    ensures
      var s := ParseUrlChar(StateOf(p, isConnect), ch);
      && IsLayout(Add(p, s, ch), isConnect) && StateOf(Add(p, s, ch), isConnect) == s
      && Add(p, s, ch).Text() == p.Text() + [ch]
  {
    hide IsLayout, StateOf, Add, IsFragmentChar, IsQueryChar, IsServerChar, IsUrlChar, IsAlpha, ParseUrlChar;
    var s0 := StateOf(p, isConnect);
    var s := ParseUrlChar(s0, ch);
    StateTells(p, isConnect);
    BytesOfState(s0, ch);
    RankGrows(s0, ch);
    AddIs(p, s, ch);
    AddText(p, s, ch);
    if Rank(s) == 1 {
      AddToSchema(p, isConnect, ch);
    } else if Rank(s) <= 4 {
      AddToMark(p, isConnect, s, ch);
    } else if Rank(s) == 5 {
      AddToAuthority(p, isConnect, ch);
    } else if Rank(s) == 6 {
      AddToPath(p, isConnect, ch);
    } else if Rank(s) <= 8 {
      AddToQuery(p, isConnect, ch);
    } else {
      AddToFragment(p, isConnect, ch);
    }
  }

  // ---- Every layout is a URL ----

  /** A layout without its last byte, and that byte. */
  lemma DropText(p: Pieces) returns (ch: octet)
    requires p.Text() != []
    ensures p.Text() == Drop(p).Text() + [ch] && ch == p.Text()[|p.Text()| - 1]
    ensures
      var q := Drop(p);
      if p.fragment != [] then p == q.(fragment := q.fragment + [ch])
      else if p.query != [] then p == q.(query := q.query + [ch])
      else if p.path != [] then p == q.(path := q.path + [ch])
      else if p.authority != [] then p == q.(authority := q.authority + [ch])
      else if p.mark != [] then p == q.(mark := q.mark + [ch])
      else p == q.(schema := q.schema + [ch])
  {
    hide Pieces.Text;
    var q := Drop(p);
    if p.fragment != [] {
      WithFragment(p);
      WithFragment(q);
      ch := Ends(p.schema + p.mark + p.authority + p.path + p.query, p.fragment);
    } else if p.query != [] {
      UpToQuery(p);
      UpToQuery(q);
      ch := Ends(p.schema + p.mark + p.authority + p.path, p.query);
    } else if p.path != [] {
      UpToPath(p);
      UpToPath(q);
      ch := Ends(p.schema + p.mark + p.authority, p.path);
    } else if p.authority != [] {
      UpToAuthority(p);
      UpToAuthority(q);
      ch := Ends(p.schema + p.mark, p.authority);
    } else if p.mark != [] {
      UpToMark(p);
      UpToMark(q);
      ch := Ends(p.schema, p.mark);
    } else {
      UpToSchema(p);
      UpToSchema(q);
      ch := Ends([], p.schema);
    }
  }

  // Pieces that have not begun add nothing.

  lemma WithFragment(p: Pieces)
    ensures p.Text() == p.schema + p.mark + p.authority + p.path + p.query + p.fragment
  {
  }

  lemma UpToQuery(p: Pieces)
    requires p.fragment == []
    ensures p.Text() == p.schema + p.mark + p.authority + p.path + p.query
  {
  }

  lemma UpToPath(p: Pieces)
    requires p.fragment == p.query == []
    ensures p.Text() == p.schema + p.mark + p.authority + p.path
  {
  }

  lemma UpToAuthority(p: Pieces)
    requires p.fragment == p.query == p.path == []
    ensures p.Text() == p.schema + p.mark + p.authority
  {
  }

  lemma UpToMark(p: Pieces)
    requires p.fragment == p.query == p.path == p.authority == []
    ensures p.Text() == p.schema + p.mark
  {
  }

  lemma UpToSchema(p: Pieces)
    requires p.fragment == p.query == p.path == p.authority == p.mark == []
    ensures p.Text() == [] + p.schema == p.schema
  {
  }

  lemma Ends(front: text, s: text) returns (ch: octet)
    requires s != []
    ensures ch == s[|s| - 1] == (front + s)[|front + s| - 1]
    ensures front + s == front + s[..|s| - 1] + [ch] && s == s[..|s| - 1] + [ch]
  {
    ch := s[|s| - 1];
  }

  lemma DropLayout(p: Pieces, isConnect: bool)
    requires IsLayout(p, isConnect)
    ensures IsLayout(Drop(p), isConnect)
  {
    hide IsFragmentChar, IsQueryChar, IsServerChar, IsUrlChar, IsAlpha;
  }

  /** The automaton takes the last byte of a layout to the state of the layout. */
  lemma DropState(p: Pieces, isConnect: bool, ch: octet)
    requires IsLayout(p, isConnect) && IsLayout(Drop(p), isConnect) && p.Text() == Drop(p).Text() + [ch]
    requires
      var q := Drop(p);
      if p.fragment != [] then p == q.(fragment := q.fragment + [ch])
      else if p.query != [] then p == q.(query := q.query + [ch])
      else if p.path != [] then p == q.(path := q.path + [ch])
      else if p.authority != [] then p == q.(authority := q.authority + [ch])
      else if p.mark != [] then p == q.(mark := q.mark + [ch])
      else p == q.(schema := q.schema + [ch])
    ensures ParseUrlChar(StateOf(Drop(p), isConnect), ch) == StateOf(p, isConnect)
  {
    hide IsLayout, StateOf, Add, ParseUrlChar, Drop;
    var q := Drop(p);
    var s := ParseUrlChar(StateOf(q, isConnect), ch);
    if p.fragment != [] {
      LastOfFragment(q, isConnect, ch);
    } else if p.query != [] {
      LastOfQuery(q, isConnect, ch);
    } else if p.path != [] {
      LastOfPath(q, isConnect, ch);
    } else if p.authority != [] {
      LastOfAuthority(q, isConnect, ch);
    } else if p.mark != [] {
      LastOfMark(q, isConnect, ch);
    } else {
      LastOfSchema(q, isConnect, ch);
    }
    AddIs(q, s, ch);
    NotDead(s);
    AddLayout(q, isConnect, ch);
  }

  lemma NotDead(s: State)
    ensures Rank(s) > 0 ==> s != Dead
  {
  }

  lemma LastOfFragment(q: Pieces, isConnect: bool, ch: octet)
    requires var p := q.(fragment := q.fragment + [ch]); IsLayout(p, isConnect)
    ensures 9 <= Rank(ParseUrlChar(StateOf(q, isConnect), ch))
  {
    hide IsUrlChar, IsUserinfoChar, IsAlpha, NoDoubleAt, AllHash;
    assert (q.fragment + [ch])[|q.fragment|] == ch;
    NoSpaces(ch);
  }

  lemma LastOfQuery(q: Pieces, isConnect: bool, ch: octet)
    requires q.fragment == []
    requires var p := q.(query := q.query + [ch]); IsLayout(p, isConnect)
    ensures 7 <= Rank(ParseUrlChar(StateOf(q, isConnect), ch)) <= 8
  {
    hide IsUrlChar, IsUserinfoChar, IsAlpha, NoDoubleAt;
    assert (q.query + [ch])[|q.query|] == ch;
    NoSpaces(ch);
  }

  lemma LastOfPath(q: Pieces, isConnect: bool, ch: octet)
    requires q.fragment == [] && q.query == []
    requires var p := q.(path := q.path + [ch]); IsLayout(p, isConnect)
    ensures Rank(ParseUrlChar(StateOf(q, isConnect), ch)) == 6
  {
    hide IsUrlChar, IsUserinfoChar, IsAlpha, NoDoubleAt;
    assert (q.path + [ch])[|q.path|] == ch;
    NoSpaces(ch);
  }

  lemma LastOfAuthority(q: Pieces, isConnect: bool, ch: octet)
    requires q.fragment == [] && q.query == [] && q.path == []
    requires var p := q.(authority := q.authority + [ch]); IsLayout(p, isConnect)
    ensures Rank(ParseUrlChar(StateOf(q, isConnect), ch)) == 5
  {
    hide IsUrlChar, IsUserinfoChar, IsServerChar, IsAlpha;
    NoDelimiters(ch);
    var a := q.authority + [ch];
    assert a[|q.authority|] == ch;
    if q.authority != [] {
      assert a[|q.authority| - 1] == q.authority[|q.authority| - 1];
    }
  }

  lemma LastOfMark(q: Pieces, isConnect: bool, ch: octet)
    requires q.fragment == [] && q.query == [] && q.path == [] && q.authority == []
    requires var p := q.(mark := q.mark + [ch]); IsLayout(p, isConnect)
    ensures 2 <= Rank(ParseUrlChar(StateOf(q, isConnect), ch)) <= 4
  {
    hide IsUrlChar, IsUserinfoChar, IsAlpha, NoDoubleAt;
    assert (q.mark + [ch])[|q.mark|] == ch == MARK[|q.mark|];
    NoSpaces(ch);
  }

  lemma LastOfSchema(q: Pieces, isConnect: bool, ch: octet)
    requires q.fragment == [] && q.query == [] && q.path == [] && q.authority == [] && q.mark == []
    requires var p := q.(schema := q.schema + [ch]); IsLayout(p, isConnect)
    ensures Rank(ParseUrlChar(StateOf(q, isConnect), ch)) == 1
  {
    hide IsUrlChar, IsUserinfoChar, NoDoubleAt;
    assert (q.schema + [ch])[|q.schema|] == ch;
  }

  lemma NoSpaces(ch: octet)
    ensures IsUrlChar(ch) ==> ch != ' ' && ch != CR && ch != LF && ch != TAB && ch as int != 12
    ensures !IsUrlChar('#') && !IsUrlChar('?') && !IsAlpha(':')
  {
  }

  lemma NoDelimiters(ch: octet)
    ensures
      IsServerChar(ch) ==>
        && ch != ' ' && ch != CR && ch != LF && ch != TAB && ch as int != 12 && ch != '/' && ch != '?'
        && (ch == '@' || IsUserinfoChar(ch) || ch == '[' || ch == ']') && !IsUserinfoChar('@')
  {
  }

  // ---- The URLs are the layouts ----

  lemma {:induction false} LayoutState(p: Pieces, isConnect: bool)
    requires IsLayout(p, isConnect)
    ensures UrlState(First(isConnect), p.Text()) == StateOf(p, isConnect)
    decreases |p.Text()|
  {
    hide IsLayout, ParseUrlChar;
    if p.Text() == [] {
      assert |p.schema| == |p.mark| == |p.authority| == |p.path| == |p.query| == |p.fragment| == 0;
    } else {
      hide StateOf, Drop;
      var ch := DropText(p);
      DropLayout(p, isConnect);
      DropState(p, isConnect, ch);
      LayoutState(Drop(p), isConnect);
      assert p.Text()[..|p.Text()| - 1] == Drop(p).Text();
    }
  }

  lemma UrlStateLast(s: State, url: text)
    requires url != []
    ensures UrlState(s, url) == ParseUrlChar(UrlState(s, url[..|url| - 1]), url[|url| - 1])
  {
    hide ParseUrlChar;
  }

  lemma EmptyLayout(isConnect: bool) returns (p: Pieces)
    ensures IsLayout(p, isConnect) && p.Text() == [] && StateOf(p, isConnect) == UrlState(First(isConnect), [])
  {
    p := Pieces([], [], [], [], [], []);
  }

  lemma {:induction false} LayoutOf(url: text, isConnect: bool) returns (p: Pieces)
    requires UrlState(First(isConnect), url) != Dead
    ensures IsLayout(p, isConnect) && p.Text() == url && StateOf(p, isConnect) == UrlState(First(isConnect), url)
    decreases |url|
  {
    hide *;
    if url == [] {
      p := EmptyLayout(isConnect);
    } else {
      UrlStateLast(First(isConnect), url);
      var before, ch := url[..|url| - 1], url[|url| - 1];
      DeadIsFinal(ch);
      var q := LayoutOf(before, isConnect);
      AddLayout(q, isConnect, ch);
      p := Add(q, UrlState(First(isConnect), url), ch);
      assert url == before + [ch];
    }
  }

  /** The automaton of the request line takes exactly the layouts for URLs. */
  lemma {:induction false} UrlsAreLayouts(url: text, isConnect: bool)
    ensures UrlState(First(isConnect), url) != Dead <==> exists p: Pieces :: IsLayout(p, isConnect) && p.Text() == url
  {
    hide IsLayout, UrlState, ParseUrlChar;
    if UrlState(First(isConnect), url) != Dead {
      var p := LayoutOf(url, isConnect);
    }
    if p: Pieces :| IsLayout(p, isConnect) && p.Text() == url {
      LayoutState(p, isConnect);
      hide StateOf;
      StateTells(p, isConnect);
    }
  }

  /** A URL on which the request line may end reaches beyond its schema. */
  lemma {:induction false} TargetsAreLayouts(url: text, isConnect: bool)
    ensures
      MayEndUrl(UrlState(First(isConnect), url))
      <==> exists p: Pieces ::
        IsLayout(p, isConnect) && p.Text() == url && p.authority + p.path + p.query + p.fragment != []
  {
    hide IsLayout, UrlState, ParseUrlChar;
    if MayEndUrl(UrlState(First(isConnect), url)) {
      var p := LayoutOf(url, isConnect);
      assert p.authority + p.path + p.query + p.fragment != [];
    }
    if p: Pieces :|
      IsLayout(p, isConnect) && p.Text() == url && p.authority + p.path + p.query + p.fragment != []
    {
      LayoutState(p, isConnect);
    }
  }

  // ---- The parts of a URL are the pieces of its layout ----

  /** How many `#` a fragment begins with. */
  function Hashes(s: text): (n: nat)
    ensures n <= |s|
  {
    if AllHash(s) then |s| else Hashes(s[..|s| - 1])
  }

  function AtMost(n: nat, limit: nat): nat {
    if n <= limit then n else limit
  }

  /** How many bytes of a layout have a rank below `r`. */
  function Below(p: Pieces, r: nat): nat {
    (if r <= 1 then 0 else |p.schema|)
    + (if r <= 2 then 0 else AtMost(|p.mark|, r - 2))
    + (if r <= 5 then 0 else |p.authority|)
    + (if r <= 6 then 0 else |p.path|)
    + (if r <= 7 then 0 else if r == 8 then AtMost(|p.query|, 1) else |p.query|)
    + (if r <= 9 then 0 else if r == 10 then Hashes(p.fragment) else |p.fragment|)
  }

  lemma BelowOfOneMore(p: Pieces, isConnect: bool, r: nat)
    requires IsLayout(p, isConnect) && p.Text() != []
    ensures Below(p, r) == Below(Drop(p), r) + if Rank(StateOf(p, isConnect)) < r then 1 else 0
  {
    if p.fragment != [] {
      BelowOfFragment(p, isConnect, r);
    } else if p.query != [] || p.path != [] {
      BelowOfPath(p, isConnect, r);
    } else {
      hide Hashes;
      UpToPath(p);
      MarkIsShort(p, isConnect);
      BelowOfAuthority(p, isConnect, r);
    }
  }

  lemma BelowOfFragment(p: Pieces, isConnect: bool, r: nat)
    requires p.fragment != []
    ensures Below(p, r) == Below(Drop(p), r) + if Rank(StateOf(p, isConnect)) < r then 1 else 0
  {
    hide Hashes, AllHash;
    var s, ch := p.fragment[..|p.fragment| - 1], p.fragment[|p.fragment| - 1];
    assert p.fragment == s + [ch];
    HashesOfOneMore(s, ch);
  }

  lemma HashesOfOneMore(s: text, ch: octet)
    ensures Hashes(s + [ch]) == if AllHash(s + [ch]) then |s| + 1 else Hashes(s)
    ensures AllHash(s + [ch]) ==> Hashes(s) == |s|
  {
    hide AllHash;
    HashesAndOne(s, ch);
    assert (s + [ch])[..|s|] == s;
  }

  lemma BelowOfPath(p: Pieces, isConnect: bool, r: nat)
    requires p.fragment == [] && (p.query != [] || p.path != [])
    ensures Below(p, r) == Below(Drop(p), r) + if Rank(StateOf(p, isConnect)) < r then 1 else 0
  {
    hide Hashes;
  }

  lemma BelowOfAuthority(p: Pieces, isConnect: bool, r: nat)
    requires p.fragment == [] && p.query == [] && p.path == [] && p.schema + p.mark + p.authority != []
    requires |p.mark| <= 3 && (isConnect ==> p.schema == []) && (p.mark != [] ==> p.schema != [])
    ensures Below(p, r) == Below(Drop(p), r) + if Rank(StateOf(p, isConnect)) < r then 1 else 0
  {
    hide Hashes;
  }

  lemma {:induction false} StatesAgree(url: text, isConnect: bool, i: nat)
    requires i <= |url|
    ensures StateAfter(url, isConnect, i) == UrlState(First(isConnect), url[..i])
  {
    hide ParseUrlChar;
    if i > 0 {
      StatesAgree(url, isConnect, i - 1);
      assert url[..i][..i - 1] == url[..i - 1];
    }
  }

  lemma {:induction false} CutWithin(url: text, more: text, isConnect: bool, r: nat, i: nat)
    requires i <= |url|
    ensures Cut(url + more, isConnect, r, i) == Cut(url, isConnect, r, i)
  {
    hide Rank, StateAfter;
    if i > 0 {
      CutWithin(url, more, isConnect, r, i - 1);
      StatesAgree(url, isConnect, i);
      StatesAgree(url + more, isConnect, i);
      assert (url + more)[..i] == url[..i];
    }
  }

  /** The cuts of a URL are where the pieces of its layout begin. */
  lemma {:induction false} CutsOfLayout(p: Pieces, isConnect: bool, r: nat)
    requires IsLayout(p, isConnect)
    ensures Cut(p.Text(), isConnect, r, |p.Text()|) == Below(p, r)
    decreases |p.Text()|
  {
    hide IsLayout, StateOf, Drop, Below, Rank, StateAfter, Cut, UrlState;
    var url := p.Text();
    if url == [] {
      NothingBelow(p, r);
      CutOfNothing(url, isConnect, r);
    } else {
      var ch := DropText(p);
      var q := Drop(p);
      DropLayout(p, isConnect);
      CutsOfLayout(q, isConnect, r);
      CutWithin(q.Text(), [ch], isConnect, r, |q.Text()|);
      BelowOfOneMore(p, isConnect, r);
      LayoutState(p, isConnect);
      StatesAgree(url, isConnect, |url|);
      assert url[..|url|] == url;
      CutStep(url, isConnect, r, |url| - 1);
    }
  }

  lemma CutOfNothing(url: text, isConnect: bool, r: nat)
    ensures Cut(url, isConnect, r, 0) == 0
  {
  }

  lemma NothingBelow(p: Pieces, r: nat)
    requires p.Text() == []
    ensures Below(p, r) == 0
  {
    assert |p.schema| == |p.mark| == |p.authority| == |p.path| == |p.query| == |p.fragment| == 0;
  }

  /** What the splitter notes of a URL are the pieces of its layout, query and fragment without their
      delimiters. */
  lemma {:induction false} PartsArePieces(p: Pieces, isConnect: bool)
    requires IsLayout(p, isConnect)
    ensures
      var url := p.Text();
      && TextOf(url, isConnect, Schema) == p.schema
      && TextOf(url, isConnect, HostField) == p.authority
      && TextOf(url, isConnect, Path) == p.path
      && TextOf(url, isConnect, Query) == p.query[AtMost(|p.query|, 1)..]
      && TextOf(url, isConnect, Fragment) == p.fragment[Hashes(p.fragment)..]
  {
    hide IsLayout, TextOf, Hashes, CutOf, Below, Alive;
    var url := p.Text();
    IsAlive(p, isConnect);
    Texts(url, isConnect);
    CutsByLengths(p, isConnect);
    PiecesOfText(p);
  }

  /** Where the parts begin, by the lengths of the pieces. */
  lemma CutsByLengths(p: Pieces, isConnect: bool)
    requires IsLayout(p, isConnect)
    ensures
      var c := (r: nat) => CutOf(p.Text(), isConnect, r);
      && c(1) == 0 && c(2) == |p.schema| && c(5) == c(2) + |p.mark| && c(6) == c(5) + |p.authority|
      && c(7) == c(6) + |p.path| && c(8) == c(7) + AtMost(|p.query|, 1) && c(9) == c(7) + |p.query|
      && c(10) == c(9) + Hashes(p.fragment) && c(11) == c(9) + |p.fragment|
  {
    hide IsLayout, Hashes, Cut;
    CutsOfLayout(p, isConnect, 1);
    CutsOfLayout(p, isConnect, 2);
    CutsOfLayout(p, isConnect, 5);
    CutsOfLayout(p, isConnect, 6);
    CutsOfLayout(p, isConnect, 7);
    CutsOfLayout(p, isConnect, 8);
    CutsOfLayout(p, isConnect, 9);
    CutsOfLayout(p, isConnect, 10);
    CutsOfLayout(p, isConnect, 11);
    MarkIsShort(p, isConnect);
  }

  lemma IsAlive(p: Pieces, isConnect: bool)
    requires IsLayout(p, isConnect)
    ensures Alive(p.Text(), isConnect, |p.Text()|)
  {
    hide IsLayout, StateOf, UrlState, StateAfter;
    LayoutState(p, isConnect);
    StateTells(p, isConnect);
    StatesAgree(p.Text(), isConnect, |p.Text()|);
    assert p.Text()[..|p.Text()|] == p.Text();
  }

  lemma MarkIsShort(p: Pieces, isConnect: bool)
    requires IsLayout(p, isConnect)
    ensures |p.mark| <= 3 && (isConnect ==> p.schema == [])
  {
  }

  lemma PiecesOfText(p: Pieces)
    ensures
      var a, b := |p.schema|, |p.schema| + |p.mark|;
      var c, d := b + |p.authority|, b + |p.authority| + |p.path|;
      var e, url := d + |p.query|, p.Text();
      && url[0..a] == p.schema && url[b..c] == p.authority && url[c..d] == p.path
      && url[d + AtMost(|p.query|, 1)..e] == p.query[AtMost(|p.query|, 1)..]
      && url[e + Hashes(p.fragment)..|url|] == p.fragment[Hashes(p.fragment)..]
  {
    hide Pieces.Text, Hashes;
    FirstPieces(p);
    PathStands(p);
    LastPieces(p, AtMost(|p.query|, 1), Hashes(p.fragment));
  }

  lemma FirstPieces(p: Pieces)
    ensures
      var b, url := |p.schema| + |p.mark|, p.Text();
      |url| >= b + |p.authority| && url[0..|p.schema|] == p.schema && url[b..b + |p.authority|] == p.authority
  {
    var rest := p.path + p.query + p.fragment;
    var front := p.schema + p.mark;
    Middle([], p.schema, p.mark + p.authority + rest);
    Middle(front, p.authority, rest);
    assert p.Text() == front + p.authority + rest;
    assert p.Text() == [] + p.schema + (p.mark + p.authority + rest);
  }

  lemma PathStands(p: Pieces)
    ensures
      var c, url := |p.schema| + |p.mark| + |p.authority|, p.Text();
      |url| >= c + |p.path| && url[c..c + |p.path|] == p.path
  {
    var front := p.schema + p.mark + p.authority;
    Middle(front, p.path, p.query + p.fragment);
    Associated(front + p.path, p.query, p.fragment);
  }

  lemma LastPieces(p: Pieces, q: nat, f: nat)
    requires q <= |p.query| && f <= |p.fragment|
    ensures
      var d, url := |p.schema| + |p.mark| + |p.authority| + |p.path|, p.Text();
      && |url| == d + |p.query| + |p.fragment|
      && url[d + q..d + |p.query|] == p.query[q..]
      && url[d + |p.query| + f..|url|] == p.fragment[f..]
  {
    var front := p.schema + p.mark + p.authority + p.path;
    Behind(front, p.query, p.fragment, q);
    Behind(front + p.query, p.fragment, [], f);
    assert p.Text() + [] == p.Text();
  }

  lemma Associated(x: text, y: text, z: text)
    ensures x + y + z == x + (y + z)
  {
  }

  lemma Behind(x: text, y: text, z: text, k: nat)
    requires k <= |y|
    ensures (x + y + z)[|x| + k..|x| + |y|] == y[k..]
  {
    var s, t := (x + y + z)[|x| + k..|x| + |y|], y[k..];
    forall i | 0 <= i < |s|
      ensures s[i] == t[i]
    {
      assert s[i] == (x + y + z)[|x| + (k + i)] == (x + y)[|x| + (k + i)] == y[k + i];
    }
  }

  lemma Middle(x: text, y: text, z: text)
    ensures (x + y + z)[|x|..|x| + |y|] == y
  {
  }

  /** An authority of its form, with user information where there is an `@`, and a port of 16 bits; that of CONNECT has
      a port, and nothing in front of an `@`. */
  predicate IsServer(a: text, isConnect: bool, c: Cuts) {
    && HasForm(a, '@' in a, c)
    && (c.end < |a| ==> Decimal(a[c.end + 1..]) <= 65535)
    && (isConnect ==> c.end < |a| && ('@' in a ==> a[0] == '@'))
  }

  /** The first `@` ends the user information. */
  lemma ServersAreGood(a: text, isConnect: bool, c: Cuts)
    ensures GoodAuthority(a, isConnect, '@' in a, c) <==> IsServer(a, isConnect, c)
  {
    hide HostIs, Decimal, AllDigits;
    if HasForm(a, '@' in a, c) && '@' in a {
      UserinfoEnds(a, c);
    }
  }

  lemma UserinfoEnds(a: text, c: Cuts)
    requires HasForm(a, true, c)
    ensures c.at < |a| && a[c.at] == '@' && (c.at > 0 ==> a[0] != '@')
  {
    hide IsHostChar, IsV6Char, IsZoneChar, IsNum, IsUserinfoChar;
    NoAt();
    if c.at > 0 {
      assert IsUserinfoChar(a[0]);
    }
  }

  lemma NoAt()
    ensures !IsUserinfoChar('@')
  {
  }

  /** The URLs that are split, in terms of their layouts: a schema comes with an authority, the authority has
      its form and a port of at most 65535, and the target of CONNECT is just host and port. */
  ghost predicate IsSplittable(p: Pieces, isConnect: bool) {
    && IsLayout(p, isConnect) && p.Text() != []
    && (p.schema != [] ==> p.authority != [])
    && (p.authority != [] ==> exists c :: IsServer(p.authority, isConnect, c))
    && (isConnect ==> p.authority != [] && p.path == [] && |p.query| <= 1 && AllHash(p.fragment))
  }

  lemma {:induction false} SplitExactlyWhen(url: text, isConnect: bool)
    ensures Splittable(url, isConnect) <==> exists p: Pieces :: IsSplittable(p, isConnect) && p.Text() == url
  {
    hide Splittable, IsSplittable;
    if Splittable(url, isConnect) {
      SplittableIsAlive(url, isConnect);
      var p := LayoutOf(url, isConnect);
      SplittableLayout(p, isConnect);
    }
    if p: Pieces :| IsSplittable(p, isConnect) && p.Text() == url {
      LayoutOfSplittable(p, isConnect);
      SplittableLayout(p, isConnect);
    }
  }

  lemma SplittableIsAlive(url: text, isConnect: bool)
    requires Splittable(url, isConnect)
    ensures UrlState(First(isConnect), url) != Dead
  {
    hide UrlState, StateAfter, PartOf, GoodHost;
    StatesAgree(url, isConnect, |url|);
    assert url[..|url|] == url;
  }

  lemma LayoutOfSplittable(p: Pieces, isConnect: bool)
    requires IsSplittable(p, isConnect)
    ensures IsLayout(p, isConnect)
  {
    hide IsLayout;
  }

  lemma SplittableLayout(p: Pieces, isConnect: bool)
    requires IsLayout(p, isConnect)
    ensures Splittable(p.Text(), isConnect) <==> IsSplittable(p, isConnect)
  {
    hide IsLayout, PartOf, Alive, HasAt, GoodAuthority, IsServer, Hashes, TextOf, AllHash;
    var url := p.Text();
    IsAlive(p, isConnect);
    PartsArePieces(p, isConnect);
    AtExactlyWhenInText(url, isConnect);
    HashesAreAll(p.fragment);
    MarkIsShort(p, isConnect);
    forall f: Field | f != PortField && f != UserinfoField
      ensures PartOf(url, isConnect, f).len == |TextOf(url, isConnect, f)|
    {
      TextLength(url, isConnect, f);
    }
    forall c
      ensures GoodHost(url, isConnect, c) <==> IsServer(p.authority, isConnect, c)
    {
      ServersAreGood(p.authority, isConnect, c);
    }
  }

  lemma TextLength(url: text, isConnect: bool, f: Field)
    requires f != PortField && f != UserinfoField
    ensures PartOf(url, isConnect, f).len == |TextOf(url, isConnect, f)|
  {
  }

  lemma {:induction false} HashesAreAll(s: text)
    ensures Hashes(s) == |s| <==> AllHash(s)
  {
  }

  // ---- What is noted ----

  /** An authority put together from its parts: user information and `@`, host, in brackets or not, colon and port. */
  function ServerText(at: bool, user: text, brackets: bool, host: text, colon: bool, port: text): text {
    (if at then user + ['@'] else [])
    + (if brackets then ['['] + host + [']'] else host)
    + if colon then [':'] + port else []
  }

  /** The host with its brackets. */
  lemma HostIsText(a: text, foundAt: bool, c: Cuts)
    requires HostIs(a, foundAt, c)
    ensures
      var begin := if foundAt then c.at + 1 else 0;
      && begin < c.end <= |a| && c.lo < c.hi <= c.end && a[c.lo] != '['
      && a[begin..c.end] == if a[begin] == '[' then ['['] + a[c.lo..c.hi] + [']'] else a[c.lo..c.hi]
  {
    hide IsUserinfoChar, IsZoneChar, IsHostChar, IsV6Char;
    var begin := if foundAt then c.at + 1 else 0;
    NoBracket();
    if a[begin] == '[' {
      assert a[begin..c.end] == ['['] + a[c.lo..c.hi] + [']'];
      assert IsV6Char(a[c.lo]);
    } else {
      assert IsHostChar(a[c.lo]);
    }
  }

  lemma FormIsText(a: text, c: Cuts)
    requires HasForm(a, '@' in a, c)
    ensures c.lo < c.hi <= c.end <= |a| && ('@' in a ==> c.at < |a|)
    ensures
      var at, begin := '@' in a, if '@' in a then c.at + 1 else 0;
      && begin < |a|
      && a == ServerText(at, if at then a[..c.at] else [], a[begin] == '[', a[c.lo..c.hi], c.end < |a|,
                         if c.end < |a| then a[c.end + 1..] else [])
      && a[c.lo] != '['
  {
    hide HostIs, All, IsNum, IsUserinfoChar;
    var begin := if '@' in a then c.at + 1 else 0;
    HostIsText(a, '@' in a, c);
    if '@' in a {
      UserinfoEnds(a, c);
    }
    assert a == a[..begin] + a[begin..c.end] + a[c.end..];
    assert '@' in a ==> a[..begin] == a[..c.at] + ['@'];
    assert c.end < |a| ==> a[c.end..] == [':'] + a[c.end + 1..];
    assert c.end == |a| ==> a[c.end..] == [];
  }

  lemma NoBracket()
    ensures !IsHostChar('[') && !IsV6Char('[')
  {
  }

  /** What the splitter has noted, in terms of the layout: the pieces that are there, as they stand in the URL. */
  lemma {:induction false} NotedAreThePieces(p: Pieces, isConnect: bool, fields: set<Field>, data: map<Field, Range>,
                                             port: nat, c: Cuts)
    requires IsLayout(p, isConnect) && IsSplit(p.Text(), isConnect, fields, data, port, c)
    ensures forall f <- fields - {HostField, PortField, UserinfoField} :: f in data && data[f].off + data[f].len <= |p.Text()|
    ensures
      var url := p.Text();
      && (Schema in fields <==> p.schema != []) && (Schema in fields ==> Slice(url, data[Schema]) == p.schema)
      && (Path in fields <==> p.path != []) && (Path in fields ==> Slice(url, data[Path]) == p.path)
      && (Query in fields <==> |p.query| > 1) && (Query in fields ==> Slice(url, data[Query]) == p.query[1..])
      && (Fragment in fields <==> Hashes(p.fragment) < |p.fragment|)
      && (Fragment in fields ==> Slice(url, data[Fragment]) == p.fragment[Hashes(p.fragment)..])
      && (HostField in fields <==> p.authority != [])
  {
    hide IsLayout, PartOf, HasAt, GoodHost, HostSplit, TextOf, HasForm, Hashes, Decimal;
    var url := p.Text();
    PartsArePieces(p, isConnect);
    TextLength(url, isConnect, Schema);
    TextLength(url, isConnect, HostField);
    TextLength(url, isConnect, Path);
    TextLength(url, isConnect, Query);
    TextLength(url, isConnect, Fragment);
    forall f | f in {Schema, Path, Query, Fragment}
      ensures TextOf(url, isConnect, f) == Slice(url, PartOf(url, isConnect, f))
    {
      TextIsSlice(url, isConnect, f);
    }
  }

  lemma TextIsSlice(url: text, isConnect: bool, f: Field)
    requires f != PortField && f != UserinfoField
    ensures TextOf(url, isConnect, f) == Slice(url, PartOf(url, isConnect, f))
  {
    hide PartOf;
  }

  /** The authority is put together from the user information, the host and the port that are noted, and the port is
      noted as a number too. */
  lemma {:induction false} NotedAreTheServer(p: Pieces, isConnect: bool, fields: set<Field>, data: map<Field, Range>,
                                             port: nat, c: Cuts)
    requires IsLayout(p, isConnect) && IsSplit(p.Text(), isConnect, fields, data, port, c)
    requires HostField in fields
    ensures forall f <- fields * {HostField, PortField, UserinfoField} :: f in data && data[f].off + data[f].len <= |p.Text()|
    ensures
      var url, at := p.Text(), '@' in p.authority;
      var user := if UserinfoField in fields then Slice(url, data[UserinfoField]) else [];
      var digits := if PortField in fields then Slice(url, data[PortField]) else [];
      var host := Slice(url, data[HostField]);
      && host != [] && host[0] != '[' && (UserinfoField in fields <==> user != [])
      && (exists brackets :: p.authority == ServerText(at, user, brackets, host, PortField in fields, digits))
      && AllDigits(digits) && port == Decimal(digits)
  {
    hide IsLayout, PartOf, HasAt, HasForm, Hashes, Decimal, ServerText, AllDigits, TextOf, Slice, IsSplit, HostSplit,
      GoodHost, Alive, Parts;
    var url, a := p.Text(), p.authority;
    SplitHostIs(url, isConnect, fields, data, port, c);
    IsAlive(p, isConnect);
    PartsArePieces(p, isConnect);
    AtExactlyWhenInText(url, isConnect);
    FormIsText(a, c);
    TextIsSlice(url, isConnect, HostField);
    ServerSlices(url, PartOf(url, isConnect, HostField), a, c,
                 Found(data[HostField], data[PortField], PortField in fields, data[UserinfoField], UserinfoField in fields));
    if c.end < |a| {
      PortDigits(a, c);
    }
    NoDigitsAtAll();
  }

  lemma SplitHostIs(url: text, isConnect: bool, fields: set<Field>, data: map<Field, Range>, port: nat, c: Cuts)
    requires IsSplit(url, isConnect, fields, data, port, c) && HostField in fields
    ensures HostField in data && PortField in data && UserinfoField in data
    ensures HasForm(TextOf(url, isConnect, HostField), HasAt(url, isConnect, |url|), c)
    ensures
      var r := PartOf(url, isConnect, HostField);
      Parts(Found(data[HostField], data[PortField], PortField in fields, data[UserinfoField], UserinfoField in fields),
            r.off, r.len, HasAt(url, isConnect, |url|), c)
    ensures
      var a := TextOf(url, isConnect, HostField);
      PortField in fields <==> c.end < |a|
    ensures
      var a := TextOf(url, isConnect, HostField);
      if c.end < |a| then AllDigits(a[c.end + 1..]) && port == Decimal(a[c.end + 1..]) else port == 0
  {
    hide PartOf, HasAt, HostIs, Decimal;
  }

  /** The parts found are slices of the authority. */
  lemma ServerSlices(url: text, r: Range, a: text, c: Cuts, f: Found)
    requires r.off + r.len <= |url| && Slice(url, r) == a && Parts(f, r.off, r.len, '@' in a, c)
    requires c.lo < c.hi && ('@' in a ==> c.at < |a|)
    ensures f.host.off + f.host.len <= |url| && Slice(url, f.host) == a[c.lo..c.hi]
    ensures f.hasPort <==> c.end < |a|
    ensures f.hasPort ==> f.port.off + f.port.len <= |url| && Slice(url, f.port) == a[c.end + 1..]
    ensures f.hasUserinfo <==> '@' in a && c.at > 0
    ensures f.hasUserinfo ==> f.userinfo.off + f.userinfo.len <= |url| && Slice(url, f.userinfo) == a[..c.at]
  {
    SliceOfSlice(url, r.off, r.off + r.len, c.lo, c.hi);
    if c.end < |a| {
      SliceOfSlice(url, r.off, r.off + r.len, c.end + 1, |a|);
      assert a[c.end + 1..|a|] == a[c.end + 1..];
    }
    if '@' in a {
      SliceOfSlice(url, r.off, r.off + r.len, 0, c.at);
      assert a[0..c.at] == a[..c.at];
    }
  }

  lemma SliceOfSlice(url: text, lo: nat, hi: nat, i: nat, j: nat)
    requires i <= j <= hi - lo && hi <= |url|
    ensures url[lo..hi][i..j] == url[lo + i..lo + j]
  {
    var s, t := url[lo..hi][i..j], url[lo + i..lo + j];
    forall k | 0 <= k < |s|
      ensures s[k] == t[k]
    {
      assert s[k] == url[lo..hi][i + k] == url[lo + (i + k)];
    }
  }

  lemma NoDigitsAtAll()
    ensures AllDigits([]) && Decimal([]) == 0
  {
  }

  lemma PortDigits(a: text, c: Cuts)
    requires HasForm(a, '@' in a, c) && c.end < |a|
    ensures AllDigits(a[c.end + 1..])
  {
  }
}
