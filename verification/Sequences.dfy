/** Lists of pieces, one after the other. */
module Sequences {

  lemma Associative<T>(x: seq<T>, y: seq<T>, z: seq<T>)
    ensures x + (y + z) == (x + y) + z
  {
  }

  lemma Regroup<T>(x: seq<T>, y: seq<T>, z: seq<T>, w: seq<T>)
    ensures x + y + z + w == x + (y + z + w)
  {
  }

  lemma SlicesOfAppend<T>(a: seq<T>, b: seq<T>, i: nat)
    requires i <= |a + b|
    ensures i <= |a| ==> (a + b)[..i] == a[..i] && (a + b)[i..] == a[i..] + b
    ensures i >= |a| ==> (a + b)[..i] == a + b[..i - |a|] && (a + b)[i..] == b[i - |a|..]
  {
  }

  function Flatten<T>(parts: seq<seq<T>>): seq<T> {
    if parts == [] then [] else Flatten(parts[..|parts| - 1]) + parts[|parts| - 1]
  }

  lemma FlattenOneMore<T>(parts: seq<seq<T>>, part: seq<T>)
    ensures Flatten(parts + [part]) == Flatten(parts) + part
  {
    assert (parts + [part])[..|parts|] == parts;
  }

  lemma {:induction false} FlattenAppend<T>(a: seq<seq<T>>, b: seq<seq<T>>)
    ensures Flatten(a + b) == Flatten(a) + Flatten(b)
  {
    if b == [] {
      assert a + b == a;
    } else {
      assert (a + b)[..|a + b| - 1] == a + b[..|b| - 1];
      FlattenAppend(a, b[..|b| - 1]);
    }
  }

  lemma OneMore<T>(s: seq<T>, k: nat)
    requires k < |s|
    ensures s[..k + 1] == s[..k] + [s[k]]
  {
  }

  lemma TwoParts<T>(s: seq<T>, k: nat)
    requires k <= |s|
    ensures s == s[..k] + s[k..]
  {
  }

  /** The pieces before one piece, that piece, and those after it. */
  lemma FlattenAt<T>(parts: seq<seq<T>>, k: nat)
    requires k < |parts|
    ensures Flatten(parts[..k + 1]) == Flatten(parts[..k]) + parts[k]
    ensures Flatten(parts) == Flatten(parts[..k]) + parts[k] + Flatten(parts[k + 1..])
  {
    hide Flatten;
    OneMore(parts, k);
    TwoParts(parts, k + 1);
    FlattenOneMore(parts[..k], parts[k]);
    FlattenAppend(parts[..k + 1], parts[k + 1..]);
  }

  /** Lists of pieces that are each at least as long as their counterparts: all pieces together are the same
      exactly when each piece is. */
  lemma {:induction false} FlattenSame<T>(a: seq<seq<T>>, b: seq<seq<T>>)
    requires |a| == |b| && forall k :: 0 <= k < |a| ==> |a[k]| >= |b[k]|
    ensures |Flatten(a)| >= |Flatten(b)|
    ensures Flatten(a) == Flatten(b) <==> a == b
  {
    if a != [] {
      var n := |a| - 1;
      FlattenSame(a[..n], b[..n]);
      if Flatten(a) == Flatten(b) {
        EndsMatch(Flatten(a[..n]), a[n], Flatten(b[..n]), b[n]);
        OneMore(a, n);
        OneMore(b, n);
      }
    }
  }

  lemma EndsMatch<T>(x: seq<T>, y: seq<T>, x': seq<T>, y': seq<T>)
    requires x + y == x' + y' && |y| == |y'|
    ensures x == x' && y == y'
  {
    assert x == (x + y)[..|x|] && y == (x + y)[|x|..];
  }
}
