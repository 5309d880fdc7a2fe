/**
  The names of the methods: the parser holds the method guessed from the first letter until a letter
  tells it apart from another one.
 */
module MethodNames {
  import opened HttpParser

  /** The method held after the letters of `w` up to its end, `m` being held after the first `i`. */
  function Recognise(m: Method, w: text, i: nat): Switch
    requires 0 < i <= |w|
    decreases |w| - i
  {
    if i == |w| then Switch(m)
    else if i < |MethodString(m)| && w[i] == MethodString(m)[i] then Recognise(m, w, i + 1)
    else
      match SwitchMethod(m, i, w[i])
      case Switch(m') => Recognise(m', w, i + 1)
      case NoSwitch => NoSwitch
  }

  /** Where a name leaves the name of another method, which the parser holds until then. */
  datatype Fork = Fork(from: Method, at: nat) | Root

  function ForkOf(m: Method): Fork {
    match m
    case PUT => Fork(POST, 1)
    case PATCH => Fork(POST, 1)
    case PLAY => Fork(POST, 1)
    case PROPFIND => Fork(POST, 1)
    case PURGE => Fork(PUT, 2)
    case DESCRIBE => Fork(DELETE, 2)
    case CHECKOUT => Fork(CONNECT, 1)
    case COPY => Fork(CONNECT, 2)
    case MOVE => Fork(MKCOL, 1)
    case MERGE => Fork(MKCOL, 1)
    case MKACTIVITY => Fork(MKCOL, 2)
    case MKCALENDAR => Fork(MKCOL, 3)
    case SEARCH => Fork(SUBSCRIBE, 1)
    case SOURCE => Fork(SUBSCRIBE, 1)
    case SETUP => Fork(SEARCH, 2)
    case REBIND => Fork(REPORT, 2)
    case PROPPATCH => Fork(PROPFIND, 4)
    case TEARDOWN => Fork(TRACE, 1)
    case LINK => Fork(LOCK, 1)
    case UNSUBSCRIBE => Fork(UNLOCK, 2)
    case UNBIND => Fork(UNLOCK, 2)
    case UNLINK => Fork(UNLOCK, 3)
    case _ => Root
  }

  /** How many forks lead to a method. */
  function Depth(m: Method): nat {
    match m
    case PURGE => 2
    case SETUP => 2
    case PROPPATCH => 2
    case _ => if ForkOf(m) == Root then 0 else 1
  }

  /** The names agree up to the fork, and the letter there makes the parser switch. */
  lemma ForkSwitches(m: Method)
    requires ForkOf(m) != Root
    ensures
      var Fork(from, at) := ForkOf(m);
      && 0 < at < |MethodString(m)| && at < |MethodString(from)|
      && (forall k :: 0 <= k < at ==> MethodString(from)[k] == MethodString(m)[k])
      && MethodString(from)[at] != MethodString(m)[at]
      && SwitchMethod(from, at, MethodString(m)[at]) == Switch(m)
      && Depth(from) < Depth(m)
      && (ForkOf(from) != Root ==> ForkOf(from).at < at)
  {
    hide MethodString, SwitchMethod, ForkOf, Depth;
    NamesFork(m);
    ForksAreOrdered(m);
    MethodsSwitch(m);
  }

  lemma NamesFork(m: Method)
    requires ForkOf(m) != Root
    ensures
      var Fork(from, at) := ForkOf(m);
      && 0 < at < |MethodString(m)| && at < |MethodString(from)|
      && (forall k :: 0 <= k < at ==> MethodString(from)[k] == MethodString(m)[k])
      && MethodString(from)[at] != MethodString(m)[at]
  {
  }

  lemma ForksAreOrdered(m: Method)
    requires ForkOf(m) != Root
    ensures
      var Fork(from, at) := ForkOf(m);
      Depth(from) < Depth(m) && (ForkOf(from) != Root ==> ForkOf(from).at < at)
  {
    hide MethodString, SwitchMethod;
  }

  lemma MethodsSwitch(m: Method)
    requires ForkOf(m) != Root && ForkOf(m).at < |MethodString(m)|
    ensures SwitchMethod(ForkOf(m).from, ForkOf(m).at, MethodString(m)[ForkOf(m).at]) == Switch(m)
  {
  }

  /** The method that the first letter of the name of `m` stands for. */
  function Guess(m: Method): Method
    decreases Depth(m)
  {
    if ForkOf(m) == Root then m else ForkSwitches(m); Guess(ForkOf(m).from)
  }

  lemma {:induction false} Agree(m: Method, w: text, i: nat, j: nat)
    requires 0 < i <= j <= |w| && j <= |MethodString(m)|
    requires forall k :: i <= k < j ==> w[k] == MethodString(m)[k]
    ensures Recognise(m, w, i) == Recognise(m, w, j)
    decreases j - i
  {
    hide MethodString, SwitchMethod;
    if i < j {
      Agree(m, w, i + 1, j);
    }
  }

  function StartOf(m: Method): nat {
    if ForkOf(m) == Root then 1 else ForkOf(m).at + 1
  }

  /** A name that begins like that of `m` makes the parser hold `m` from the letter of its fork on. */
  lemma {:induction false} Leads(m: Method, w: text)
    requires 0 < StartOf(m) <= |w| && StartOf(m) <= |MethodString(m)|
    requires forall k :: 0 <= k < StartOf(m) ==> w[k] == MethodString(m)[k]
    ensures Recognise(Guess(m), w, 1) == Recognise(m, w, StartOf(m))
    decreases Depth(m)
  {
    hide MethodString, SwitchMethod, ForkOf, Depth;
    if ForkOf(m) != Root {
      ForkSwitches(m);
      var Fork(from, at) := ForkOf(m);
      Leads(from, w);
      Agree(from, w, StartOf(from), at);
    }
  }

  /** Every method but the one whose name has spaces in it is recognised by its own name. */
  lemma {:induction false} NamesAreRecognised(m: Method)
    ensures MethodString(m) != []
    ensures m != MSEARCH ==> Recognise(Guess(m), MethodString(m), 1) == Switch(m)
  {
    hide Recognise, SwitchMethod;
    assert MethodString(m) != [] && (ForkOf(m) != Root ==> StartOf(m) <= |MethodString(m)|) by {
      if ForkOf(m) != Root {
        ForkSwitches(m);
      }
    }
    Leads(m, MethodString(m));
    Agree(m, MethodString(m), StartOf(m), |MethodString(m)|);
    WholeName(m);
  }

  lemma WholeName(m: Method)
    requires MethodString(m) != []
    ensures Recognise(m, MethodString(m), |MethodString(m)|) == Switch(m)
  {
  }

  lemma NamesAreWords(m: Method)
    requires m != MSEARCH
    ensures forall k :: 0 <= k < |MethodString(m)| ==> MethodString(m)[k] != '\0' && MethodString(m)[k] != ' '
  {
    hide SwitchMethod;
    if OfHttp(m) {
      HttpNamesAreWords(m);
    } else {
      OtherNamesAreWords(m);
    }
  }

  /** One half of the methods. */
  predicate OfHttp(m: Method) {
    || m.DELETE? || m.GET? || m.HEAD? || m.POST? || m.PUT? || m.CONNECT? || m.OPTIONS? || m.TRACE? || m.COPY?
    || m.LOCK? || m.MKCOL? || m.MOVE? || m.PROPFIND? || m.PROPPATCH? || m.SEARCH? || m.UNLOCK? || m.BIND?
    || m.REBIND? || m.UNBIND? || m.ACL?
  }

  lemma HttpNamesAreWords(m: Method)
    requires OfHttp(m)
    ensures forall k :: 0 <= k < |MethodString(m)| ==> MethodString(m)[k] != '\0' && MethodString(m)[k] != ' '
  {
  }

  lemma OtherNamesAreWords(m: Method)
    requires m != MSEARCH && !OfHttp(m)
    ensures forall k :: 0 <= k < |MethodString(m)| ==> MethodString(m)[k] != '\0' && MethodString(m)[k] != ' '
  {
  }

  lemma NamesWithR(m: Method)
    ensures MethodString(m) != []
    ensures MethodString(m)[0] == 'R' <==> m == REPORT || m == REBIND
  {
  }

  lemma NamesWithH(m: Method)
    ensures MethodString(m) != []
    ensures MethodString(m)[0] == 'H' <==> m == HEAD
  {
  }

  lemma SwitchesAtLetters(m: Method, i: nat, ch: octet)
    ensures SwitchMethod(m, i, ch).Switch? ==> 'A' <= ch <= 'Z' || ch == '-'
  {
  }

  lemma {:induction false} GuessIsFirst(m: Method)
    requires m != MSEARCH
    ensures MethodString(m) != [] && IsFirstLetter(MethodString(m)[0])
    ensures FirstMethod(MethodString(m)[0]) == Guess(m)
    decreases Depth(m)
  {
    if ForkOf(m) == Root {
      RootIsFirst(m);
    } else {
      hide MethodString, ForkOf;
      ForkSwitches(m);
      NotMSearch(m);
      GuessIsFirst(ForkOf(m).from);
    }
  }

  lemma NotMSearch(m: Method)
    requires ForkOf(m) != Root
    ensures ForkOf(m).from != MSEARCH
  {
  }

  lemma RootIsFirst(m: Method)
    requires m != MSEARCH && ForkOf(m) == Root
    ensures MethodString(m) != [] && IsFirstLetter(MethodString(m)[0])
    ensures FirstMethod(MethodString(m)[0]) == m
  {
  }

  /** No two methods have the same name. */
  lemma {:induction false} NamesTell(m: Method, n: Method)
    ensures MethodString(m) == MethodString(n) <==> m == n
  {
    hide MethodString, Recognise, Guess, FirstMethod, IsFirstLetter;
    if MethodString(m) == MethodString(n) && m != n {
      SpacedName();
      if m == MSEARCH {
        NamesAreWords(n);
      } else if n == MSEARCH {
        NamesAreWords(m);
      } else {
        GuessIsFirst(m);
        GuessIsFirst(n);
        NamesAreRecognised(m);
        NamesAreRecognised(n);
      }
    }
  }

  lemma SpacedName()
    ensures |MethodString(MSEARCH)| > 1 && MethodString(MSEARCH)[1] == ' '
  {
  }
}
