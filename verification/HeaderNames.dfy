/**
  Which header names the parser recognises: five names, in any case, and no others, whatever buffers they come in.
 */
module HeaderNames {
  import opened HttpParser

  function LowerAll(s: text): text {
    seq(|s|, k requires 0 <= k < |s| => Lower(s[k]))
  }

  /** The state for the beginning `l` of a name, in lower case: a proper beginning of a known name is still undecided. */
  function StateOf(l: text): HeaderState
    requires l != []
  {
    if l <= CONNECTION then
      if l == CONNECTION then Connection
      else if |l| == 1 then C else if |l| == 2 then CO else if |l| == 3 then CON
      else MatchingConnection
    else if l <= CONTENT_LENGTH then if l == CONTENT_LENGTH then ContentLength else MatchingContentLength
    else if l <= PROXY_CONNECTION then if l == PROXY_CONNECTION then Connection else MatchingProxyConnection
    else if l <= TRANSFER_ENCODING then if l == TRANSFER_ENCODING then TransferEncoding else MatchingTransferEncoding
    else if l <= UPGRADE then if l == UPGRADE then Upgrade else MatchingUpgrade
    else General
  }

  predicate Undecided(h: HeaderState) {
    || h.C? || h.CO? || h.CON? || h.MatchingConnection? || h.MatchingProxyConnection? || h.MatchingContentLength?
    || h.MatchingTransferEncoding? || h.MatchingUpgrade?
  }

  /** The parser has read `l` of a name. */
  predicate NameRead(p: Parser, l: text) {
    && l != []
    && p.headerState == StateOf(l)
    && (Undecided(p.headerState) ==> p.index == |l| - 1)
  }

  lemma Beginning(l: text, c: octet, w: string)
    ensures l + [c] <= w <==> l < w && c == w[|l|]
    ensures l + [c] == w <==> l < w && c == w[|l|] && |l| + 1 == |w|
  {
  }

  /** What tells the names apart. */
  lemma NamesDiffer(l: text)
    requires l != []
    ensures l <= CONNECTION ==> l[0] == 'c' && (l <= CONTENT_LENGTH <==> |l| <= 3)
    ensures l <= CONTENT_LENGTH ==> l[0] == 'c' && (l <= CONNECTION <==> |l| <= 3)
    ensures l <= PROXY_CONNECTION ==> l[0] == 'p'
    ensures l <= TRANSFER_ENCODING ==> l[0] == 't'
    ensures l <= UPGRADE ==> l[0] == 'u'
    ensures |CONNECTION| == 10 && |CONTENT_LENGTH| == 14 && CONNECTION[1] == 'o' && CONNECTION[2] == 'n'
    ensures |PROXY_CONNECTION| == 16 && |TRANSFER_ENCODING| == 17 && |UPGRADE| == 7
    ensures CONNECTION[3] == 'n' && CONTENT_LENGTH[3] == 't'
    ensures CONNECTION[0] == CONTENT_LENGTH[0] == 'c'
    ensures CONTENT_LENGTH[1] == 'o' && CONTENT_LENGTH[2] == 'n'
    ensures PROXY_CONNECTION[0] == 'p' && TRANSFER_ENCODING[0] == 't' && UPGRADE[0] == 'u'
  {
    if l <= CONNECTION && |l| > 3 {
      assert l[3] == 'n';
    }
    if l <= CONTENT_LENGTH && |l| > 3 {
      assert l[3] == 't';
    }
  }

  lemma NameBegins(p: Parser, c: octet, h: HeaderState)
    requires p.index == 0 && p.headerState == h
    requires
      h == (if c == 'c' then C
            else if c == 'p' then MatchingProxyConnection
            else if c == 't' then MatchingTransferEncoding
            else if c == 'u' then MatchingUpgrade
            else General)
    ensures NameRead(p, [c])
  {
    hide CONNECTION, CONTENT_LENGTH, PROXY_CONNECTION, TRANSFER_ENCODING, UPGRADE;
    NamesDiffer([c]);
    Beginning([], c, CONNECTION);
    Beginning([], c, CONTENT_LENGTH);
    Beginning([], c, PROXY_CONNECTION);
    Beginning([], c, TRANSFER_ENCODING);
    Beginning([], c, UPGRADE);
    assert [] + [c] == [c];
  }

  /** The state one character later, when `n` have been read. */
  function NextState(h: HeaderState, n: nat, c: octet): HeaderState {
    match h
    case C => if c == 'o' then CO else General
    case CO => if c == 'n' then CON else General
    case CON => if c == 'n' then MatchingConnection else if c == 't' then MatchingContentLength else General
    case MatchingConnection => Compared(CONNECTION, n, c, h, Connection)
    case MatchingProxyConnection => Compared(PROXY_CONNECTION, n, c, h, Connection)
    case MatchingContentLength => Compared(CONTENT_LENGTH, n, c, h, ContentLength)
    case MatchingTransferEncoding => Compared(TRANSFER_ENCODING, n, c, h, TransferEncoding)
    case MatchingUpgrade => Compared(UPGRADE, n, c, h, Upgrade)
    case _ => General
  }

  function Compared(word: string, n: nat, c: octet, same: HeaderState, whole: HeaderState): HeaderState {
    if n >= |word| || c != word[n] then General else if n == |word| - 1 then whole else same
  }

  lemma StateMore(l: text, c: octet)
    requires l != []
    ensures StateOf(l + [c]) == NextState(StateOf(l), |l|, c)
    ensures StateOf(l + [c]) == TransferEncoding <==> l + [c] == TRANSFER_ENCODING
  {
    hide CONNECTION, CONTENT_LENGTH, PROXY_CONNECTION, TRANSFER_ENCODING, UPGRADE;
    NamesDiffer(l);
    NamesDiffer(l + [c]);
    Beginning(l, c, CONNECTION);
    Beginning(l, c, CONTENT_LENGTH);
    Beginning(l, c, PROXY_CONNECTION);
    Beginning(l, c, TRANSFER_ENCODING);
    Beginning(l, c, UPGRADE);
  }

  lemma FieldCharIs(p: Parser, n: nat, ch: octet)
    requires p.index == n - 1 || !Undecided(p.headerState)
    requires ch != ' '
    requires
      var h := p.headerState;
      Undecided(h) || h.General? || h.Connection? || h.ContentLength? || h.TransferEncoding? || h.Upgrade?
    ensures
      var q := FieldChar(p, ch);
      && q.headerState == NextState(p.headerState, n, Lower(ch))
      && (Undecided(q.headerState) ==> q.index == n)
      && (q.usesTransferEncoding <==>
          p.usesTransferEncoding || (p.headerState.MatchingTransferEncoding? && q.headerState.TransferEncoding?))
  {
    hide CONNECTION, CONTENT_LENGTH, PROXY_CONNECTION, TRANSFER_ENCODING, UPGRADE, Lower, MatchField, Compared;
    WordsHaveLetters();
    var q, c := p.(index := p.index + 1), Lower(ch);
    match p.headerState {
      case MatchingConnection => FieldIsCompared(q, CONNECTION, c, Connection);
      case MatchingProxyConnection => FieldIsCompared(q, PROXY_CONNECTION, c, Connection);
      case MatchingContentLength => FieldIsCompared(q, CONTENT_LENGTH, c, ContentLength);
      case MatchingTransferEncoding => FieldIsCompared(q, TRANSFER_ENCODING, c, TransferEncoding);
      case MatchingUpgrade => FieldIsCompared(q, UPGRADE, c, Upgrade);
      case _ =>
    }
  }

  lemma FieldIsCompared(q: Parser, word: string, c: octet, whole: HeaderState)
    requires |word| > 0
    ensures MatchField(q, word, c, whole) == q.(headerState := Compared(word, q.index, c, q.headerState, whole))
    ensures var h := Compared(word, q.index, c, q.headerState, whole); h == General || h == q.headerState || h == whole
  {
  }

  lemma WordsHaveLetters()
    ensures |CONNECTION| > 0 && |CONTENT_LENGTH| > 0 && |PROXY_CONNECTION| > 0 && |TRANSFER_ENCODING| > 0 && |UPGRADE| > 0
  {
  }

  /** Only the name itself gets to the state of a transfer coding, and only from the state of its beginnings. */
  lemma CodingFrom(l: text, c: octet)
    requires l != []
    ensures StateOf(l + [c]) == TransferEncoding ==> StateOf(l) == MatchingTransferEncoding
  {
    hide CONNECTION, CONTENT_LENGTH, PROXY_CONNECTION, TRANSFER_ENCODING, UPGRADE, StateOf;
    StateMore(l, c);
  }

  /** One more character of a name, none of which is a space. */
  lemma {:induction false} NameGoesOn(p: Parser, l: text, ch: octet)
    requires NameRead(p, l) && ch != ' '
    ensures
      var q := FieldChar(p, ch);
      && NameRead(q, l + [Lower(ch)])
      && (q.usesTransferEncoding <==> p.usesTransferEncoding || l + [Lower(ch)] == TRANSFER_ENCODING)
  {
    hide CONNECTION, CONTENT_LENGTH, PROXY_CONNECTION, TRANSFER_ENCODING, UPGRADE, Lower, FieldChar, NextState, StateOf;
    StatesOfNames(l);
    FieldCharIs(p, |l|, ch);
    StateMore(l, Lower(ch));
    CodingFrom(l, Lower(ch));
  }

  lemma StatesOfNames(l: text)
    requires l != []
    ensures
      var h := StateOf(l);
      Undecided(h) || h.General? || h.Connection? || h.ContentLength? || h.TransferEncoding? || h.Upgrade?
  {
  }

  /** A whole name is recognised exactly when it is spelt so. */
  lemma {:induction false} RecognisedExactlyWhen(l: text)
    requires l != []
    ensures StateOf(l) == ContentLength <==> l == "content-length"
    ensures StateOf(l) == TransferEncoding <==> l == "transfer-encoding"
    ensures StateOf(l) == Connection <==> l == "connection" || l == "proxy-connection"
    ensures StateOf(l) == Upgrade <==> l == "upgrade"
    ensures StateOf(l) != ContentLengthNum && StateOf(l) != ContentLengthWs
  {
    NamesDiffer(l);
    assert l[..1] == [l[0]];
  }
}
