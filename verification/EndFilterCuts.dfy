// For which replies the client's filter is right however the connection cuts them into reads.

module EndFilterCuts {
  import opened Bytes
  import opened EndFilter

  // A cut of the reply into reads of the size the client asks for, none of them empty.
  predicate IsCut(parts: seq<seq<byte>>, reply: seq<byte>) {
    Joined(parts) == reply && forall r :: r in parts ==> 0 < |r| <= READ_MAX
  }

  predicate FilteredRight(parts: seq<seq<byte>>) {
    Filtered([], parts) == WithoutMarker(Received([], parts))
  }

  // After reading `all` without finding a marker: the last 73 bytes of it.
  function HeldBack(all: seq<byte>): seq<byte> {
    if |all| > HELD_BACK then all[|all| - HELD_BACK..] else all
  }

  // Byte by byte.
  function Singles(s: seq<byte>): (parts: seq<seq<byte>>)
    ensures |parts| == |s| && forall r :: r in parts ==> |r| == 1
  {
    seq(|s|, i requires 0 <= i < |s| => [s[i]])
  }

  lemma {:induction false} SinglesJoin(s: seq<byte>)
    ensures Joined(Singles(s)) == s
  {
    if s != [] {
      var init := s[..|s| - 1];
      SinglesJoin(init);
      assert Singles(s)[..|s| - 1] == Singles(init);
    }
  }

  lemma DropOfSum(a: seq<byte>, b: seq<byte>, k: nat)
    requires k <= |a|
    ensures (a + b)[k..] == a[k..] + b
  {
  }

  lemma DropTwice(s: seq<byte>, i: nat, j: nat)
    requires i + j <= |s|
    ensures s[i..][j..] == s[i + j..]
  {
  }

  lemma HeldBackDrops(s: seq<byte>)
    ensures |HeldBack(s)| == (if |s| > HELD_BACK then HELD_BACK else |s|)
    ensures HeldBack(s) == s[|s| - |HeldBack(s)|..]
  {
  }

  lemma HoldingBackTwice(all: seq<byte>, chunk: seq<byte>)
    ensures HeldBack(HeldBack(all) + chunk) == HeldBack(all + chunk)
  {
    hide HeldBack;
    var a, b := HeldBack(all) + chunk, all + chunk;
    HeldBackDrops(all);
    HeldBackDrops(a);
    HeldBackDrops(b);
    DropOfSum(all, chunk, |all| - |HeldBack(all)|);
    DropTwice(b, |b| - |a|, |a| - |HeldBack(a)|);
  }

  // A read in which the search misses leaves the last 73 bytes in the buffer.
  lemma MissHoldsBack(all: seq<byte>, chunk: seq<byte>)
    requires |chunk| <= READ_MAX && Search(HeldBack(all) + chunk) < 0
    ensures
      var step := Absorb(HeldBack(all), chunk);
      && !step.found && step.kept == HeldBack(all + chunk)
      && |step.written| == |HeldBack(all)| + |chunk| - |HeldBack(all + chunk)|
  {
    hide Search;
    HoldingBackTwice(all, chunk);
    var acc := HeldBack(all);
    assert acc[0..] == acc && Buffer(acc, chunk) == acc + chunk;
    MissedRead(acc, chunk);
  }

  lemma MarkerInSuffix(s: seq<byte>, b: nat, k: int)
    requires b <= |s|
    ensures MarkerAt(s[b..], k) <==> k >= 0 && MarkerAt(s, b + k)
  {
    if 0 <= k && b + k + 9 <= |s| {
      SliceOfRest(s, b, k);
      SliceOfRest(s[b..], k, 9);
      SliceOfRest(s, b + k, 9);
    }
  }

  lemma SuffixWithoutMarker(s: seq<byte>, k: nat)
    requires k <= |s| && Find(s) < 0
    ensures Find(s[k..]) < 0
  {
    MarkerInSuffix(s, k, Find(s[k..]));
  }

  lemma NothingToSee(all: seq<byte>, chunk: seq<byte>)
    requires Find(all + chunk) < 0
    ensures Search(HeldBack(all) + chunk) < 0
  {
    var k := |all| - |HeldBack(all)|;
    assert HeldBack(all) + chunk == (all + chunk)[k..];
    SuffixWithoutMarker(all + chunk, k);
    SearchSees(HeldBack(all) + chunk);
  }

  // Bytes read one at a time, with no marker among them yet.
  lemma {:induction false} ReadingOn(all: seq<byte>, tail: seq<byte>, others: seq<seq<byte>>)
    requires Find(all + tail) < 0
    ensures |Filtered(HeldBack(all), Singles(tail) + others)|
         == |HeldBack(all)| + |tail| - |HeldBack(all + tail)| + |Filtered(HeldBack(all + tail), others)|
    ensures Received(all, Singles(tail) + others) == Received(all + tail, others)
    decreases |tail|
  {
    hide Find, Absorb, Search, HeldBack;
    if tail == [] {
      assert all + tail == all && Singles(tail) + others == others;
    } else {
      var c, rest := [tail[0]], tail[1..];
      var parts := Singles(tail) + others;
      assert parts[0] == c && parts[1..] == Singles(rest) + others;
      assert all + tail == all + c + rest;
      PrefixWithoutMarker(all + c, rest);
      NothingToSee(all, c);
      MissHoldsBack(all, c);
      ReadingOn(all + c, rest, others);
    }
  }

  lemma PrefixWithoutMarker(a: seq<byte>, b: seq<byte>)
    ensures Find(a + b) < 0 ==> Find(a) < 0
  {
    MarkerInPrefix(a, a + b, Find(a));
  }

  // Every read is shown in full, but for one marker.
  lemma {:induction false} LittleIsLost(acc: seq<byte>, parts: seq<seq<byte>>)
    ensures |Filtered(acc, parts)| >= |acc| + if parts == [] then 0 else |parts[0]| - 9
    decreases |parts|
  {
    if parts != [] {
      var step := Absorb(acc, parts[0]);
      ReadLosesAtMostNine(acc, parts[0]);
      hide Absorb;
      if !step.found {
        LittleIsLost(step.kept, parts[1..]);
      }
    }
  }

  lemma ReadLosesAtMostNine(acc: seq<byte>, chunk: seq<byte>)
    ensures
      var step := Absorb(acc, chunk);
      |step.written| + |step.kept| == |acc| + |chunk| - if step.found then 9 else 0
  {
    SearchFindsRoom(Buffer(acc, chunk));
    hide Search;
  }

  lemma FirstMarkerEnds(reply: seq<byte>)
    requires Find(reply) >= 0
    ensures var p := Find(reply); p + 9 <= |reply| && Find(reply[..p + 9]) == p && Find(reply[..p + 8]) < 0
  {
    var p := Find(reply);
    var s := reply[..p + 9];
    forall k
      ensures MarkerAt(s, k) ==> MarkerAt(reply, k)
      ensures MarkerAt(reply[..p + 8], k) ==> MarkerAt(reply, k)
    {
      MarkerInPrefix(s, reply, k);
      MarkerInPrefix(reply[..p + 8], reply, k);
    }
    MarkerInPrefix(s, reply, p);
    FirstOccurrence(s, p);
    var q := Find(reply[..p + 8]);
    assert MarkerAt(reply, q) ==> q >= p;
  }

  // Where the read that completes the first marker begins if it is as large as it can be.
  function LateStart(reply: seq<byte>): (q: nat)
    requires Find(reply) >= 0
    ensures q <= Find(reply) + 8
  {
    var e := Find(reply) + 9;
    if e > READ_MAX then e - READ_MAX else 0
  }

  // One larger read among single bytes.
  function Pieces(x: seq<byte>, y: seq<byte>, z: seq<byte>): seq<seq<byte>> {
    Singles(x) + ([y] + Singles(z))
  }

  // That read ends with the marker, so the buffer reaches back as far as it can.
  function LateCut(reply: seq<byte>): seq<seq<byte>>
    requires Find(reply) >= 0
  {
    MarkerFits(reply);
    var q, e := LateStart(reply), Find(reply) + 9;
    Pieces(reply[..q], reply[q..e], reply[e..])
  }

  lemma ThreePieces(s: seq<byte>, q: nat, e: nat)
    requires q <= e <= |s|
    ensures s[..q] + (s[q..e] + s[e..]) == s
    ensures s[..q] + s[q..e] == s[..e]
  {
  }

  lemma PiecesAreACut(x: seq<byte>, y: seq<byte>, z: seq<byte>)
    requires 0 < |y| <= READ_MAX
    ensures IsCut(Pieces(x, y, z), x + (y + z))
  {
    hide Joined, Singles;
    JoinedAppend(Singles(x), [y] + Singles(z));
    JoinedAppend([y], Singles(z));
    JoinedOne(y);
    SinglesJoin(x);
    SinglesJoin(z);
    assert forall r :: r in Pieces(x, y, z) ==> r in Singles(x) || r == y || r in Singles(z);
  }

  lemma LateCutIsACut(reply: seq<byte>)
    requires Find(reply) >= 0
    ensures IsCut(LateCut(reply), reply)
  {
    hide Find, MarkerAt, Pieces, IsCut;
    MarkerFits(reply);
    var q, e := LateStart(reply), Find(reply) + 9;
    PiecesAreACut(reply[..q], reply[q..e], reply[e..]);
    ThreePieces(reply, q, e);
  }

  lemma NulAmong(s: seq<byte>, from: nat, to: nat) returns (z: nat)
    requires from <= to <= |s| && NUL in s[from..to]
    ensures from <= z < to && s[z] == NUL
  {
    var i :| 0 <= i < to - from && s[from..to][i] == NUL;
    z := from + i;
  }

  // A buffer that ends with the first marker and reaches back to a NUL hides it.
  lemma SuffixHides(s: seq<byte>, b: nat, z: nat)
    requires Find(s) >= 0 && Find(s) + 9 == |s| && b <= z < Find(s) && s[z] == NUL
    ensures Search(s[b..]) < 0
  {
    var a, p := s[b..], Find(s);
    SearchSees(a);
    MarkerFits(a);
    var at := Find(a);
    MarkerInSuffix(s, b, at);
    if at >= 0 {
      assert at >= p - b;
      assert a[..at][z - b] == s[z];
    }
  }

  lemma HeldBackIsASuffix(s: seq<byte>, q: nat, e: nat)
    requires q <= e <= |s|
    ensures HeldBack(s[..q]) + s[q..e] == s[..e][if q > HELD_BACK then q - HELD_BACK else 0..]
  {
  }

  // With a NUL in reach the search misses the marker in that read.
  lemma HiddenInTheBuffer(reply: seq<byte>)
    requires Find(reply) >= 0 && !VisibleWithin(reply, WINDOW)
    ensures
      var q, e := LateStart(reply), Find(reply) + 9;
      e <= |reply| && Search(HeldBack(reply[..q]) + reply[q..e]) < 0
  {
    hide Search, MarkerAt, HeldBack, Find;
    FirstMarkerEnds(reply);
    var p, q := Find(reply), LateStart(reply);
    var z := NulAmong(reply, if p > WINDOW then p - WINDOW else 0, p);
    HeldBackIsASuffix(reply, q, p + 9);
    SuffixHides(reply[..p + 9], if q > HELD_BACK then q - HELD_BACK else 0, z);
  }

  lemma LateCutFails(reply: seq<byte>)
    requires Find(reply) >= 0 && !VisibleWithin(reply, WINDOW)
    ensures !FilteredRight(LateCut(reply))
  {
    FirstMarkerEnds(reply);
    HiddenInTheBuffer(reply);
    var q, e := LateStart(reply), Find(reply) + 9;
    var head, chunk, rest := reply[..q], reply[q..e], Singles(reply[e..]);
    ThreePieces(reply, q, e);
    ThreePieces(reply, q, e - 1);
    PrefixWithoutMarker(head, reply[q..e - 1]);
    CutsNine(head + chunk);
    hide Find, Search, Absorb, Filtered, Received, WithoutMarker, HeldBack, Singles, VisibleWithin;
    NoneInFront(head);
    NothingHeld();
    ReadingOn([], head, [chunk] + rest);
    CriticalRead(head, chunk, rest);
  }

  lemma NoneInFront(s: seq<byte>)
    ensures [] + s == s
  {
  }

  lemma NothingHeld()
    ensures HeldBack([]) == []
  {
  }

  lemma CriticalRead(head: seq<byte>, chunk: seq<byte>, rest: seq<seq<byte>>)
    requires |chunk| <= READ_MAX && Search(HeldBack(head) + chunk) < 0 && Find(head + chunk) >= 0
    requires forall r :: r in rest ==> |r| == 1
    ensures Received(head, [chunk] + rest) == head + chunk
    ensures |Filtered(HeldBack(head), [chunk] + rest)| >= |HeldBack(head)| + |chunk| - 8
  {
    hide Find, Search, Absorb, HeldBack;
    MissHoldsBack(head, chunk);
    assert ([chunk] + rest)[1..] == rest;
    LittleIsLost(HeldBack(head + chunk), rest);
  }

  // Every cut is filtered right exactly when no NUL stands among the 1087 bytes before the first marker.
  lemma FilteredRightExactly(reply: seq<byte>)
    ensures (forall parts :: IsCut(parts, reply) ==> FilteredRight(parts)) <==> VisibleWithin(reply, WINDOW)
  {
    if VisibleWithin(reply, WINDOW) {
      forall parts | IsCut(parts, reply)
        ensures FilteredRight(parts)
      {
        VisibleCutsAreRight(parts, reply);
      }
    } else {
      LateCutIsACut(reply);
      LateCutFails(reply);
    }
  }

  lemma VisibleCutsAreRight(parts: seq<seq<byte>>, reply: seq<byte>)
    requires IsCut(parts, reply) && VisibleWithin(reply, WINDOW)
    ensures FilteredRight(parts)
  {
    NothingAtFirst(parts);
    NothingToFind();
    var n := ReceivedIsAPrefix([], parts);
    var got := Received([], parts);
    PrefixOfReads(parts, n);
    assert [] + Joined(parts[..n]) == Joined(parts[..n]);
    VisibleInPrefix(got, reply);
    hide Find, Filtered, Received, VisibleWithin;
    FilteredFrom([], [], parts, WINDOW);
  }

  lemma VisibleInPrefix(got: seq<byte>, reply: seq<byte>)
    requires got <= reply && VisibleWithin(reply, WINDOW)
    ensures VisibleWithin(got, WINDOW)
  {
    var p := Find(got);
    if p >= 0 {
      MarkerFits(got);
      forall k
        ensures k < p ==> !MarkerAt(reply, k)
      {
        MarkerInPrefix(got, reply, k);
      }
      MarkerInPrefix(got, reply, p);
      FirstOccurrence(reply, p);
      var from := if p > WINDOW then p - WINDOW else 0;
      assert got[from..p] == reply[from..p];
    }
  }
}
