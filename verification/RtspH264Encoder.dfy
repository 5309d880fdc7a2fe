/**
  The start-code scanner of the RTSP side: it finds the NAL units of a frame in byte-stream form (Annex B
  of ITU-T H.264) and keeps the parameter sets among them.
 */
module RtspH264Encoder {
  import opened Bytes
  import opened Options
  import opened Frames
  import opened Sequences

  const SPS: nat := 7
  const PPS: nat := 8

  function NalType(n: Nal): nat
    requires n != []
  {
    n[0] % 32
  }

  // ---- Where the start codes are ----

  /** The three bytes before position `k` are a start code. */
  predicate CodeEnds(data: seq<byte>, k: nat) {
    3 <= k <= |data| && data[k - 3] == 0 && data[k - 2] == 0 && data[k - 1] == 1
  }

  /** A start code ends before position `k`, and something follows it. */
  predicate CodeBefore(data: seq<byte>, k: nat) {
    k < |data| && CodeEnds(data, k)
  }

  /** `next` is the first position from `p + 3` on that a start code ends before, -1 if there is none. */
  predicate FirstCode(data: seq<byte>, p: nat, next: int) {
    if next == -1 then forall k :: p + 3 <= k < |data| ==> !CodeBefore(data, k)
    else p + 3 <= next && CodeBefore(data, next) && forall k :: p + 3 <= k < next ==> !CodeBefore(data, k)
  }

  function CodeFrom(data: seq<byte>, k: nat): (next: int)
    requires 3 <= k
    ensures FirstCode(data, k - 3, next)
    decreases |data| - k
  {
    if k >= |data| then -1 else if CodeBefore(data, k) then k else CodeFrom(data, k + 1)
  }

  lemma FirstIsUnique(data: seq<byte>, p: nat, a: int, b: int)
    requires FirstCode(data, p, a) && FirstCode(data, p, b)
    ensures a == b
  {
  }

  /** The bytes up to the trailing zeros. */
  function Strip(s: seq<byte>): (t: seq<byte>)
    ensures t <= s && (t != [] ==> t[|t| - 1] != 0)
    ensures forall k :: |t| <= k < |s| ==> s[k] == 0
  {
    if s == [] || s[|s| - 1] != 0 then s else Strip(s[..|s| - 1])
  }

  lemma StripIsUnique(s: seq<byte>, t: seq<byte>)
    requires t <= s && t != [] && t[|t| - 1] != 0 && forall k :: |t| <= k < |s| ==> s[k] == 0
    ensures Strip(s) == t
  {
    var r := Strip(s);
    assert r == s[..|r|] && t == s[..|t|];
  }

  /** The NAL units from `p` on, where one begins. */
  function NalsFrom(data: seq<byte>, p: nat): seq<Nal>
    requires p <= |data|
    decreases |data| - p
  {
    var next := CodeFrom(data, p + 3);
    if next < 0 then [Strip(data[p..])] else [Strip(data[p..next - 3])] + NalsFrom(data, next)
  }

  /** The NAL units of a frame. */
  function Nals(data: seq<byte>): seq<Nal> {
    var p := CodeFrom(data, 3);
    if p < 0 then [] else NalsFrom(data, p)
  }

  /** The last NAL unit of a type, or what there was before. */
  function LastOfType(nals: seq<Nal>, t: nat, before: Option<Nal>): Option<Nal> {
    if nals == [] then before
    else
      var n := nals[|nals| - 1];
      if n != [] && NalType(n) == t then Some(n) else LastOfType(nals[..|nals| - 1], t, before)
  }

  lemma LastOfOneMore(nals: seq<Nal>, n: Nal, t: nat, before: Option<Nal>)
    ensures LastOfType(nals + [n], t, before) == if n != [] && NalType(n) == t then Some(n) else LastOfType(nals, t, before)
  {
    assert (nals + [n])[..|nals|] == nals;
  }

  // ---- The scanner ----

  /** `h264_startcode` on the bytes from `p` on. */
  method StartCode(data: seq<byte>, p: nat) returns (next: int)
    requires p <= |data|
    ensures FirstCode(data, p, next)
  {
    var i := 2;
    while i + 1 < |data| - p
      invariant 2 <= i
      invariant forall k :: p + 3 <= k < p + i + 1 ==> !CodeBefore(data, k)
    {
      if data[p + i] == 1 && data[p + i - 1] == 0 && data[p + i - 2] == 0 {
        return p + i + 1;
      }
      i := i + 1;
    }
    next := -1;
  }

  class Encoder {
    var sps: Option<Nal>
    var pps: Option<Nal>
    /** The parameter sets the track was made of, once it has been made. */
    var track: Option<(Nal, Nal)>
    /** All units found so far, and the errors passed on, each with the frame it came with. */
    ghost var found: seq<Nal>
    ghost var errors: seq<(Option<Frame>, int)>

    constructor ()
      ensures sps == None && pps == None && track == None && found == [] && errors == []
    {
      sps, pps, track, found, errors := None, None, None, [], [];
    }

    /** An error is passed on and changes nothing. Out of a frame the parameter sets are taken: the last of
        each kind among its units; with the first of both the track is made. */
    method Write(frame: Option<Frame>, ec: int)
      requires ec == 0 ==> frame.Some?
      modifies this
      ensures
        if ec != 0 then
          && errors == old(errors) + [(frame, ec)]
          && sps == old(sps) && pps == old(pps) && track == old(track) && found == old(found)
        else
          var nals := Nals(frame.value.data);
          && errors == old(errors)
          && found == old(found) + nals
          && sps == LastOfType(nals, SPS, old(sps))
          && pps == LastOfType(nals, PPS, old(pps))
          && track == if old(track).None? && sps.Some? && pps.Some? then Some((sps.value, pps.value)) else old(track)
    {
      if ec != 0 {
        errors := errors + [(frame, ec)];
        return;
      }
      Scan(frame.value.data);
      if track.None? && sps.Some? && pps.Some? {
        track := Some((sps.value, pps.value));
      }
    }

    /** Looks at the units of a frame, one after the other. */
    method Scan(data: seq<byte>)
      modifies `sps, `pps, `found
      ensures sps == LastOfType(Nals(data), SPS, old(sps))
      ensures pps == LastOfType(Nals(data), PPS, old(pps))
      ensures found == old(found) + Nals(data)
    {
      hide *;
      var p := StartCode(data, 0);
      ghost var seen: seq<Nal> := [];
      NoneSeen(old(sps), old(pps));
      FirstUnit(data, p);
      while p >= 0
        invariant -1 <= p <= |data|
        invariant Nals(data) == seen + UnitsFrom(data, p)
        invariant sps == LastOfType(seen, SPS, old(sps)) && pps == LastOfType(seen, PPS, old(pps))
        invariant found == old(found)
        decreases if p < 0 then 0 else |data| - p + 1
      {
        var next := StartCode(data, p);
        NextUnit(data, p, next);
        var n := if next >= 0 then next - p - 3 else |data| - p;
        ghost var unit := Strip(data[p..p + n]);
        n := StripZeros(data, p, n);
        Keep(data[p..p + n]);
        LastOfOneMore(seen, unit, SPS, old(sps));
        LastOfOneMore(seen, unit, PPS, old(pps));
        Associative(seen, [unit], UnitsFrom(data, next));
        seen := seen + [unit];
        p := next;
      }
      NoUnitsFrom(data, p);
      assert seen + [] == seen;
      found := found + seen;
    }

    /** Keeps a unit that is a parameter set. */
    method Keep(unit: Nal)
      modifies `sps, `pps
      ensures sps == if unit != [] && NalType(unit) == SPS then Some(unit) else old(sps)
      ensures pps == if unit != [] && NalType(unit) == PPS then Some(unit) else old(pps)
    {
      if |unit| > 0 {
        var naluType := unit[0] % 32;
        if naluType == SPS {
          sps := Some(unit);
        }
        if naluType == PPS {
          pps := Some(unit);
        }
      }
    }

    /** The length of the bytes `[p, p + n)` without the trailing zeros. */
    static method StripZeros(data: seq<byte>, p: nat, n: nat) returns (m: nat)
      requires p + n <= |data|
      ensures m <= n && data[p..p + m] == Strip(data[p..p + n])
    {
      m := n;
      while m > 0 && data[p + m - 1] == 0
        invariant m <= n && Strip(data[p..p + m]) == Strip(data[p..p + n])
      {
        assert data[p..p + m][..m - 1] == data[p..p + m - 1];
        m := m - 1;
      }
    }
  }

  lemma NoneSeen(sps: Option<Nal>, pps: Option<Nal>)
    ensures LastOfType([], SPS, sps) == sps && LastOfType([], PPS, pps) == pps
  {
  }

  /** The units that are still to come when the scan is at `p`. */
  function UnitsFrom(data: seq<byte>, p: int): seq<Nal>
    requires -1 <= p <= |data|
  {
    if p < 0 then [] else NalsFrom(data, p)
  }

  lemma NoUnitsFrom(data: seq<byte>, p: int)
    requires -1 <= p < 0
    ensures UnitsFrom(data, p) == []
  {
  }

  lemma FirstUnit(data: seq<byte>, p: int)
    requires FirstCode(data, 0, p)
    ensures -1 <= p <= |data| && Nals(data) == UnitsFrom(data, p)
  {
    FirstIsUnique(data, 0, p, CodeFrom(data, 3));
  }

  lemma NextUnit(data: seq<byte>, p: nat, next: int)
    requires p <= |data| && FirstCode(data, p, next)
    ensures next == -1 || p + 3 <= next < |data|
    ensures NalsFrom(data, p) == [Strip(data[p..if next < 0 then |data| else next - 3])] + UnitsFrom(data, next)
    ensures UnitsFrom(data, p) == NalsFrom(data, p)
  {
    FirstIsUnique(data, p, next, CodeFrom(data, p + 3));
    assert data[p..] == data[p..|data|];
  }

  // ---- Byte streams ----

  /** A start code of three bytes, or of four. */
  function StartCodeBytes(long: bool): seq<byte> {
    if long then [0, 0, 0, 1] else [0, 0, 1]
  }

  /** NAL units behind start codes. */
  function Stream(codes: seq<bool>, nals: seq<Nal>): seq<byte>
    requires |codes| == |nals|
  {
    if nals == [] then [] else StartCodeBytes(codes[0]) + nals[0] + Stream(codes[1..], nals[1..])
  }

  /** A unit that can be told apart: it does not end with a zero, and holds no start code, except that the
      last unit of a stream may end with one. */
  predicate Distinct(n: Nal, last: bool) {
    && n != [] && n[|n| - 1] != 0
    && forall k :: 0 <= k <= |n| && CodeEnds(n, k) ==> last && k == |n|
  }

  /** Behind a unit that can be told apart, the next start code is the one that was written. */
  lemma NextIsWritten(before: seq<byte>, n: Nal, long: bool, tail: seq<byte>)
    requires Distinct(n, false) && tail != []
    ensures FirstCode(before + n + StartCodeBytes(long) + tail, |before|, |before| + |n| + |StartCodeBytes(long)|)
  {
    var p, code := |before|, StartCodeBytes(long);
    var data, next := before + n + code + tail, p + |n| + |code|;
    forall k | p + 3 <= k < next
      ensures !CodeBefore(data, k)
    {
      if k - p <= |n| {
        assert data[k - 3] == n[k - p - 3] && data[k - 2] == n[k - p - 2] && data[k - 1] == n[k - p - 1];
        assert !CodeEnds(n, k - p);
      } else {
        assert data[k - 1] == code[k - 1 - p - |n|];
      }
    }
    assert data[next - 3..next] == [0, 0, 1];
    assert data[next - 3] == data[next - 3..next][0] && data[next - 2] == data[next - 3..next][1];
  }

  lemma NoneAfterLast(before: seq<byte>, n: Nal)
    requires Distinct(n, true)
    ensures FirstCode(before + n, |before|, -1)
  {
    var p, data := |before|, before + n;
    forall k | p + 3 <= k < |data|
      ensures !CodeBefore(data, k)
    {
      assert data[k - 3] == n[k - p - 3] && data[k - 2] == n[k - p - 2] && data[k - 1] == n[k - p - 1];
      assert !CodeEnds(n, k - p);
    }
  }

  predicate AllDistinct(nals: seq<Nal>) {
    forall i :: 0 <= i < |nals| ==> Distinct(nals[i], i == |nals| - 1)
  }

  lemma {:induction false} ScanFrom(before: seq<byte>, codes: seq<bool>, nals: seq<Nal>)
    requires |codes| == |nals| > 0 && AllDistinct(nals)
    ensures NalsFrom(before + nals[0] + Stream(codes[1..], nals[1..]), |before|) == nals
    decreases |nals|
  {
    hide FirstCode, NalsFrom, StartCodeBytes, Distinct, Strip;
    var n := nals[0];
    var data := before + n + Stream(codes[1..], nals[1..]);
    assert Distinct(n, |nals| == 1);
    if |nals| == 1 {
      assert data == before + n;
      NoneAfterLast(before, n);
      NextUnit(data, |before|, -1);
      assert data[|before|..|data|] == n;
      DistinctIsStripped(n, [], true);
      assert n + [] == n;
    } else {
      var code := StartCodeBytes(codes[1]);
      assert Distinct(nals[1], 1 == |nals| - 1);
      NotEmpty(nals[1], 1 == |nals| - 1);
      var before', tail := before + n + code, nals[1] + Stream(codes[2..], nals[2..]);
      StreamSplit(before, codes, nals);
      NextIsWritten(before, n, codes[1], tail);
      var next := |before| + |n| + |code|;
      NextUnit(data, |before|, next);
      CodeLength(codes[1]);
      UnitAndZeros(before, n, code, tail);
      DistinctIsStripped(n, code[..|code| - 3], false);
      RestDistinct(nals);
      ScanFrom(before', codes[1..], nals[1..]);
    }
  }

  lemma StreamSplit(before: seq<byte>, codes: seq<bool>, nals: seq<Nal>)
    requires |codes| == |nals| > 1
    ensures
      var head := before + nals[0] + StartCodeBytes(codes[1]);
      && before + nals[0] + Stream(codes[1..], nals[1..]) == head + (nals[1] + Stream(codes[2..], nals[2..]))
      && head + (nals[1] + Stream(codes[2..], nals[2..])) == head + nals[1..][0] + Stream(codes[1..][1..], nals[1..][1..])
  {
    hide StartCodeBytes;
    assert codes[1..][1..] == codes[2..] && nals[1..][1..] == nals[2..];
  }

  lemma RestDistinct(nals: seq<Nal>)
    requires AllDistinct(nals) && |nals| > 1
    ensures AllDistinct(nals[1..])
  {
    hide Distinct;
    forall i | 0 <= i < |nals| - 1
      ensures Distinct(nals[1..][i], i == |nals| - 2)
    {
      assert Distinct(nals[i + 1], i + 1 == |nals| - 1);
    }
  }

  /** What stands between two start codes. */
  lemma UnitAndZeros(before: seq<byte>, n: Nal, code: seq<byte>, tail: seq<byte>)
    requires |code| >= 3
    ensures (before + n + code + tail)[|before|..|before| + |n| + |code| - 3] == n + code[..|code| - 3]
  {
  }

  lemma NotEmpty(n: Nal, last: bool)
    ensures Distinct(n, last) ==> n != []
  {
  }

  lemma CodeLength(long: bool)
    ensures
      var code := StartCodeBytes(long);
      3 <= |code| <= 4 && forall k :: 0 <= k < |code| - 3 ==> code[k] == 0
  {
  }

  lemma DistinctIsStripped(n: Nal, zeros: seq<byte>, last: bool)
    requires Distinct(n, last) && forall k :: 0 <= k < |zeros| ==> zeros[k] == 0
    ensures Strip(n + zeros) == n
  {
    StripIsUnique(n + zeros, n);
  }

  /** The first unit begins behind the first start code. */
  lemma FirstIsWritten(long: bool, tail: seq<byte>)
    requires tail != []
    ensures FirstCode(StartCodeBytes(long) + tail, 0, |StartCodeBytes(long)|)
  {
  }

  /** Whatever is scanned, each unit found can be told apart. */
  lemma {:induction false} UnitsAreDistinct(data: seq<byte>, p: nat)
    requires p <= |data|
    ensures
      var us := NalsFrom(data, p);
      us != [] && forall i :: 0 <= i < |us| && us[i] != [] ==> Distinct(us[i], i == |us| - 1)
    decreases |data| - p
  {
    hide FirstCode, CodeFrom, Distinct;
    var next := CodeFrom(data, p + 3);
    NextUnit(data, p, next);
    var us, end := NalsFrom(data, p), if next < 0 then |data| else next - 3;
    UnitIsDistinct(data, p, end, next);
    if next >= 0 {
      UnitsAreDistinct(data, next);
      var rest := NalsFrom(data, next);
      forall i | 0 <= i < |us| && us[i] != []
        ensures Distinct(us[i], i == |us| - 1)
      {
        if i > 0 {
          assert us[i] == rest[i - 1];
        }
      }
    }
  }

  lemma UnitIsDistinct(data: seq<byte>, p: nat, end: nat, next: int)
    requires p <= |data| && FirstCode(data, p, next) && end == (if next < 0 then |data| else next - 3)
    requires next < 0 || next <= |data|
    ensures
      var u := Strip(data[p..end]);
      u != [] ==> Distinct(u, next < 0)
  {
    var u := Strip(data[p..end]);
    forall k | 0 <= k <= |u| && CodeEnds(u, k)
      ensures next < 0 && k == |u|
    {
      assert u[k - 3] == data[p + k - 3] && u[k - 2] == data[p + k - 2] && u[k - 1] == data[p + k - 1];
      assert CodeEnds(data, p + k);
      if p + k < |data| {
        assert CodeBefore(data, p + k);
      }
    }
  }

  /** On any mix of three- and four-byte start codes, the scanner finds exactly the units that were written
      if and only if these can be told apart. */
  lemma {:induction false} ScanExactlyWhen(codes: seq<bool>, nals: seq<Nal>)
    requires |codes| == |nals| && forall n <- nals :: n != []
    ensures Nals(Stream(codes, nals)) == nals <==> AllDistinct(nals)
  {
    hide FirstCode, CodeFrom, Distinct, NalsFrom, StartCodeBytes, AllDistinct;
    if nals == [] {
      NothingWritten();
    } else {
      var data, code := Stream(codes, nals), StartCodeBytes(codes[0]);
      var tail := nals[0] + Stream(codes[1..], nals[1..]);
      assert nals[0] in nals;
      assert data == code + tail;
      FirstIsWritten(codes[0], tail);
      FirstUnit(data, |code|);
      if AllDistinct(nals) {
        assert data == code + nals[0] + Stream(codes[1..], nals[1..]);
        ScanFrom(code, codes, nals);
      }
      if Nals(data) == nals {
        UnitsAreDistinct(data, |code|);
        DistinctEach(nals);
      }
    }
  }

  /** Start codes are at least three bytes apart. */
  lemma CodesAreApart(data: seq<byte>, k: nat, k': nat)
    requires CodeEnds(data, k) && CodeEnds(data, k') && k < k'
    ensures k + 3 <= k'
  {
  }

  /** From a start code on, or from the beginning, no start code of four bytes that was written is passed over,
      whatever the units hold. */
  lemma {:induction false} ManyUnitsFrom(before: seq<byte>, nals: seq<Nal>, p: nat)
    requires forall n <- nals :: n != []
    requires
      var data := before + Stream(Long(|nals|), nals);
      p <= |before| && (p == 0 || CodeEnds(data, p))
    ensures
      var data := before + Stream(Long(|nals|), nals);
      |UnitsFrom(data, CodeFrom(data, p + 3))| >= |nals|
    decreases |before| + |Stream(Long(|nals|), nals)| - p
  {
    hide FirstCode, CodeFrom, NalsFrom, Stream, UnitsFrom;
    var data := before + Stream(Long(|nals|), nals);
    if nals != [] {
      assert nals[0] in nals;
      LongStream(nals);
      var code, n, rest := StartCodeBytes(true), nals[0], Stream(Long(|nals| - 1), nals[1..]);
      var written := |before| + 4;
      assert data == before + code + n + rest;
      WrittenCode(before, n, rest);
      if p > 0 {
        CodesAreApart(data, p, written);
      }
      var next := CodeFrom(data, p + 3);
      UpToWritten(data, p, next, written);
      NextUnit(data, p, next);
      UnitsFromNext(data, next);
      if next == written {
        assert forall m <- nals[1..] :: m in nals;
        ManyUnitsFrom(before + code + n, nals[1..], next);
      } else {
        NotInWritten(before, n, rest, next);
        ManyUnitsFrom(before, nals, next);
      }
    }
  }

  lemma LongStream(nals: seq<Nal>)
    requires nals != []
    ensures Stream(Long(|nals|), nals) == StartCodeBytes(true) + nals[0] + Stream(Long(|nals| - 1), nals[1..])
  {
    assert Long(|nals|)[1..] == Long(|nals| - 1);
  }

  lemma WrittenCode(before: seq<byte>, n: Nal, rest: seq<byte>)
    requires n != []
    ensures CodeBefore(before + StartCodeBytes(true) + n + rest, |before| + 4)
  {
  }

  lemma UpToWritten(data: seq<byte>, p: nat, next: int, written: nat)
    requires FirstCode(data, p, next) && p + 3 <= written && CodeBefore(data, written)
    ensures p + 3 <= next <= written && CodeBefore(data, next)
  {
  }

  lemma NotInWritten(before: seq<byte>, n: Nal, rest: seq<byte>, k: nat)
    requires k < |before| + 4 && CodeEnds(before + StartCodeBytes(true) + n + rest, k)
    ensures k <= |before|
  {
    var data := before + StartCodeBytes(true) + n + rest;
    assert data[|before|] == 0 && data[|before| + 1] == 0 && data[|before| + 2] == 0;
  }

  lemma UnitsFromNext(data: seq<byte>, next: nat)
    requires next <= |data|
    ensures
      var after := CodeFrom(data, next + 3);
      -1 <= after <= |data| && |UnitsFrom(data, next)| == 1 + |UnitsFrom(data, after)|
  {
    NextUnit(data, next, CodeFrom(data, next + 3));
  }

  /** The scanner finds at least as many units as were written. */
  lemma {:induction false} AtLeastAsMany(nals: seq<Nal>)
    requires forall n <- nals :: n != []
    ensures |Nals(Stream(Long(|nals|), nals))| >= |nals|
  {
    hide FirstCode, NalsFrom, Stream, UnitsFrom;
    var data := Stream(Long(|nals|), nals);
    assert [] + data == data;
    ManyUnitsFrom([], nals, 0);
    FirstUnit(data, CodeFrom(data, 3));
  }

  /** Start codes of four bytes throughout. */
  function Long(n: nat): (codes: seq<bool>)
    ensures |codes| == n
  {
    seq(n, _ => true)
  }

  lemma NothingWritten()
    ensures Nals(Stream([], [])) == [] && AllDistinct([])
  {
  }

  lemma DistinctEach(nals: seq<Nal>)
    requires forall i :: 0 <= i < |nals| && nals[i] != [] ==> Distinct(nals[i], i == |nals| - 1)
    requires forall n <- nals :: n != []
    ensures AllDistinct(nals)
  {
    hide Distinct;
    assert forall i :: 0 <= i < |nals| ==> nals[i] in nals;
  }
}
