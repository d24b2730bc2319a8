// The client's stream filter: it shows the bytes of a reply as they come and stops at the end marker.

module EndFilter {
  import opened Bytes

  const MARKER: seq<byte> := [60, 60, 60, 69, 78, 68, 62, 62, 62] // <<<END>>>
  const CAPACITY := 4096
  const READ_MAX := 1023
  const HELD_BACK := 73 // the marker's length and 64 more

  predicate MarkerAt(s: seq<byte>, i: int) {
    0 <= i <= |s| - 9 && s[i..i + 9] == MARKER
  }

  function FindFrom(s: seq<byte>, i: nat): (p: int)
    requires i <= |s|
    ensures p >= 0 ==> i <= p && MarkerAt(s, p) && forall k :: i <= k < p ==> !MarkerAt(s, k)
    ensures p < 0 ==> p == -1 && forall k :: i <= k ==> !MarkerAt(s, k)
    decreases |s| - i
  {
    if i + 9 > |s| then -1 else if MarkerAt(s, i) then i else FindFrom(s, i + 1)
  }

  // Where the marker first occurs, or -1.
  function Find(s: seq<byte>): (p: int)
    ensures p >= 0 ==> MarkerAt(s, p) && forall k :: k < p ==> !MarkerAt(s, k)
    ensures p < 0 ==> p == -1 && forall k :: !MarkerAt(s, k)
  {
    FindFrom(s, 0)
  }

  lemma FirstOccurrence(s: seq<byte>, p: nat)
    requires MarkerAt(s, p) && forall k :: 0 <= k < p ==> !MarkerAt(s, k)
    ensures Find(s) == p
  {
  }

  // The bytes before the first NUL, all that a search for a string looks at.
  function CString(s: seq<byte>): (c: seq<byte>)
    ensures c <= s && NUL !in c
    ensures |c| < |s| ==> s[|c|] == NUL
  {
    if s == [] || s[0] == NUL then [] else [s[0]] + CString(s[1..])
  }

  function Search(s: seq<byte>): (p: int)
    ensures p >= 0 ==> MarkerAt(s, p)
  {
    if |s| < 9 then -1 else Find(CString(s))
  }

  // No NUL stands before the first marker, or there is no marker.
  predicate MarkerVisible(s: seq<byte>) {
    Find(s) >= 0 ==> NUL !in s[..Find(s)]
  }

  lemma MarkerInPrefix(c: seq<byte>, s: seq<byte>, k: int)
    requires c <= s
    ensures MarkerAt(c, k) ==> MarkerAt(s, k)
    ensures MarkerAt(s, k) && k + 9 <= |c| ==> MarkerAt(c, k)
  {
    assert 0 <= k && k + 9 <= |c| ==> c[k..k + 9] == s[k..k + 9];
  }

  // The search for a string finds exactly the visible markers.
  lemma SearchSees(s: seq<byte>)
    ensures Search(s) == if MarkerVisible(s) then Find(s) else -1
  {
    var c, p := CString(s), Find(s);
    forall k
      ensures MarkerAt(c, k) ==> MarkerAt(s, k)
    {
      MarkerInPrefix(c, s, k);
    }
    if p >= 0 {
      if NUL in s[..p] {
        assert |c| <= p;
        assert forall k :: k < p ==> !MarkerAt(s, k);
      } else {
        MarkerHasNoNul(s, p);
        MarkerInPrefix(c, s, p);
        FirstOccurrence(c, p);
      }
    }
  }

  lemma MarkerHasNoNul(s: seq<byte>, p: nat)
    requires MarkerAt(s, p) && NUL !in s[..p]
    ensures p + 9 <= |CString(s)|
  {
    forall i | 0 <= i < p + 9
      ensures s[i] != NUL
    {
      if i < p {
        assert s[i] == s[..p][i];
      } else {
        MarkerByte(s, p, i - p);
      }
    }
  }

  lemma SearchFindsRoom(s: seq<byte>)
    ensures Search(s) + 9 <= |s| || Search(s) < 0
  {
  }

  datatype Step = Step(written: seq<byte>, kept: seq<byte>, found: bool)

  predicate Overflows(acc: seq<byte>, chunk: seq<byte>) {
    |chunk| + |acc| >= CAPACITY - 1
  }

  lemma NothingToFind()
    ensures Find([]) < 0
  {
  }

  // What must leave the buffer before the chunk is appended.
  function Spill(acc: seq<byte>, chunk: seq<byte>): (k: nat)
    ensures k <= |acc|
  {
    if Overflows(acc, chunk) && |acc| > 8 then |acc| - 8 else 0
  }

  // Look for the marker; without one, hold back the last bytes and write the others.
  function Scan(a: seq<byte>): Step {
    var p := Search(a);
    if p >= 0 then Step(a[..p], a[p + 9..], true)
    else if |a| > HELD_BACK then Step(a[..|a| - HELD_BACK], a[|a| - HELD_BACK..], false)
    else Step([], a, false)
  }

  // One read: what is written, what stays in the buffer, whether the marker was seen.
  function Absorb(acc: seq<byte>, chunk: seq<byte>): Step {
    var spill := Spill(acc, chunk);
    var step := Scan(acc[spill..] + chunk);
    step.(written := acc[..spill] + step.written)
  }

  // Everything written for one reply, the leftover included.
  function Filtered(acc: seq<byte>, parts: seq<seq<byte>>): seq<byte>
    decreases |parts|
  {
    if parts == [] then acc
    else
      var step := Absorb(acc, parts[0]);
      step.written + if step.found then step.kept else Filtered(step.kept, parts[1..])
  }

  // The bytes taken from the connection: reading stops with the read that completes a marker.
  function Received(before: seq<byte>, parts: seq<seq<byte>>): seq<byte>
    decreases |parts|
  {
    if parts == [] then before
    else
      var all := before + parts[0];
      if Find(all) >= 0 then all else Received(all, parts[1..])
  }

  function WithoutMarker(s: seq<byte>): seq<byte> {
    var p := Find(s);
    if p < 0 then s else s[..p] + s[p + 9..]
  }

  // Searching only the buffer misses nothing: an occurrence cannot begin in what was written.
  lemma BufferSuffices(written: seq<byte>, acc: seq<byte>, chunk: seq<byte>)
    requires Find(written + acc) < 0 && (written == [] || |acc| >= 8)
    ensures Find(written + acc + chunk) == if Find(acc + chunk) < 0 then -1 else |written| + Find(acc + chunk)
  {
    var n, s, t := |written|, written + acc + chunk, acc + chunk;
    forall k | 0 <= k < n
      ensures !MarkerAt(s, k)
    {
      assert !MarkerAt(written + acc, k);
      assert k + 9 <= |s| ==> s[k..k + 9] == (written + acc)[k..k + 9];
    }
    forall k | n <= k
      ensures MarkerAt(s, k) <==> MarkerAt(t, k - n)
    {
      if k <= |s| - 9 {
        assert s[k..k + 9] == t[k - n..k - n + 9];
      }
    }
    var p := Find(t);
    if p >= 0 {
      FirstOccurrence(s, n + p);
    } else {
      var q := Find(s);
      assert q >= n ==> MarkerAt(t, q - n);
    }
  }

  lemma NothingToCut(s: seq<byte>)
    ensures Find(s) < 0 ==> WithoutMarker(s) == s
  {
  }

  lemma MarkerFits(s: seq<byte>)
    ensures Find(s) >= 0 ==> Find(s) + 9 <= |s|
  {
  }

  lemma WithoutAt(s: seq<byte>)
    requires 0 <= Find(s) <= |s| - 9
    ensures WithoutMarker(s) == s[..Find(s)] + s[Find(s) + 9..]
  {
  }

  lemma CuttingAt(before: seq<byte>, s: seq<byte>, p: nat)
    requires p + 9 <= |s|
    ensures (before + s)[..|before| + p] + (before + s)[|before| + p + 9..] == before + (s[..p] + s[p + 9..])
  {
    SliceOfSum(before, s, p);
    SliceOfSum(before, s, p + 9);
    Regroup(before, s[..p], s[p + 9..]);
  }

  lemma CuttingIsLocal(before: seq<byte>, s: seq<byte>)
    requires Find(s) >= 0 && Find(before + s) == |before| + Find(s)
    ensures WithoutMarker(before + s) == before + WithoutMarker(s)
  {
    hide Find, MarkerAt, WithoutMarker;
    MarkerFits(s);
    WithoutAt(s);
    WithoutAt(before + s);
    CuttingAt(before, s, Find(s));
  }

  lemma ScanPreserves(w: seq<byte>, acc: seq<byte>, chunk: seq<byte>)
    requires Find(w + acc) < 0 && (w == [] || |acc| >= 8)
    requires MarkerVisible(acc + chunk)
    ensures
      var step, all := Scan(acc + chunk), w + acc + chunk;
      var shown := w + step.written;
      && (step.found <==> Find(all) >= 0)
      && (step.found ==> shown + step.kept == WithoutMarker(all))
      && (!step.found ==> shown + step.kept == all && (shown == [] || |step.kept| >= 8))
  {
    hide Find, MarkerAt, Search, MarkerVisible;
    var a := acc + chunk;
    BufferSuffices(w, acc, chunk);
    SearchSees(a);
    Regroup(w, acc, chunk);
    if Find(a) >= 0 {
      CuttingIsLocal(w, a);
    }
  }

  // What the next search looks at.
  function Buffer(acc: seq<byte>, chunk: seq<byte>): seq<byte> {
    acc[Spill(acc, chunk)..] + chunk
  }

  // One read keeps written + buffer equal to what was received, or cuts the marker out of it.
  lemma AbsorbIsFaithful(written: seq<byte>, acc: seq<byte>, chunk: seq<byte>)
    requires Find(written + acc) < 0 && (written == [] || |acc| >= 8)
    requires MarkerVisible(Buffer(acc, chunk))
    ensures
      var step, all := Absorb(acc, chunk), written + acc + chunk;
      var shown := written + step.written;
      && (step.found <==> Find(all) >= 0)
      && (step.found ==> shown + step.kept == WithoutMarker(all))
      && (!step.found ==> shown + step.kept == all && (shown == [] || |step.kept| >= 8))
  {
    hide Find, MarkerAt, Scan, WithoutMarker, MarkerVisible;
    var spill := Spill(acc, chunk);
    var w, rest := written + acc[..spill], acc[spill..];
    assert w + rest == written + acc;
    ScanPreserves(w, rest, chunk);
    Regroup(written, acc[..spill], Scan(rest + chunk).written);
  }

  // How far before a marker a buffer can begin: 73 bytes held back and a full read, less the marker.
  const WINDOW := HELD_BACK + READ_MAX - 9

  // No NUL among the last `reach` bytes before the first marker.
  predicate VisibleWithin(s: seq<byte>, reach: nat) {
    var p := Find(s);
    p >= 0 ==> NUL !in s[if p > reach then p - reach else 0..p]
  }

  // Reads are no longer than the client asks for, and at most 73 bytes are held back before them.
  predicate Sized(acc: seq<byte>, parts: seq<seq<byte>>) {
    |acc| <= HELD_BACK && forall r :: r in parts ==> |r| <= READ_MAX
  }

  lemma EndsTheSame(w: seq<byte>, a: seq<byte>, from: nat, p: nat)
    requires from <= |w| && p <= |a| && NUL !in (w + a)[from..|w| + p]
    ensures NUL !in a[..p]
  {
    assert forall i :: 0 <= i < p ==> a[..p][i] == (w + a)[from..|w| + p][|w| + i - from];
  }

  lemma SuffixSees(w: seq<byte>, a: seq<byte>, reach: nat)
    requires Find(w + a) == (if Find(a) < 0 then -1 else |w| + Find(a)) && VisibleWithin(w + a, reach)
    requires |w + a| <= reach || |a| <= reach + 9
    ensures MarkerVisible(a)
  {
    MarkerFits(a);
    hide Find, MarkerAt;
    var p := Find(a);
    if p >= 0 {
      EndsTheSame(w, a, if |w| + p > reach then |w| + p - reach else 0, p);
    }
  }

  // If the marker is visible from as far as the buffer reaches, the search sees it.
  lemma BufferSees(written: seq<byte>, acc: seq<byte>, chunk: seq<byte>, reach: nat)
    requires Find(written + acc) < 0 && (written == [] || |acc| >= 8)
    requires VisibleWithin(written + acc + chunk, reach)
    requires |written + acc + chunk| <= reach || |acc| + |chunk| <= reach + 9
    ensures MarkerVisible(Buffer(acc, chunk))
  {
    hide Find, MarkerAt, VisibleWithin, MarkerVisible;
    var spill := Spill(acc, chunk);
    var w := written + acc[..spill];
    assert w + acc[spill..] == written + acc;
    BufferSuffices(w, acc[spill..], chunk);
    Regroup(w, acc[spill..], chunk);
    SuffixSees(w, Buffer(acc, chunk), reach);
  }

  lemma {:induction false} FilteredFrom(written: seq<byte>, acc: seq<byte>, parts: seq<seq<byte>>, reach: nat)
    requires Find(written + acc) < 0 && (written == [] || |acc| >= 8)
    requires VisibleWithin(Received(written + acc, parts), reach)
    requires |Received(written + acc, parts)| <= reach || (reach >= WINDOW && Sized(acc, parts))
    ensures written + Filtered(acc, parts) == WithoutMarker(Received(written + acc, parts))
    decreases |parts|
  {
    hide Absorb, Find, WithoutMarker, MarkerVisible;
    NothingToCut(written + acc);
    if parts != [] {
      var all := written + acc + parts[0];
      ReceivedGrows(written + acc, parts);
      NotFoundIsVisible(all, reach);
      assert Sized(acc, parts) ==> |acc| + |parts[0]| <= WINDOW + 9;
      BufferSees(written, acc, parts[0], reach);
      AbsorbIsFaithful(written, acc, parts[0]);
      var step := Absorb(acc, parts[0]);
      KeptIsSized(acc, parts);
      if step.found {
        Regroup(written, step.written, step.kept);
      } else {
        FilteredFrom(written + step.written, step.kept, parts[1..], reach);
        Regroup(written, step.written, Filtered(step.kept, parts[1..]));
      }
    }
  }

  lemma NotFoundIsVisible(s: seq<byte>, reach: nat)
    ensures Find(s) < 0 ==> VisibleWithin(s, reach)
  {
  }

  lemma KeptIsSized(acc: seq<byte>, parts: seq<seq<byte>>)
    requires parts != []
    ensures Sized(acc, parts) && !Absorb(acc, parts[0]).found ==> Sized(Absorb(acc, parts[0]).kept, parts[1..])
  {
  }

  lemma {:induction false} ReceivedGrows(before: seq<byte>, parts: seq<seq<byte>>)
    ensures |Received(before, parts)| >= |before|
    ensures parts != [] ==> |Received(before, parts)| >= |before| + |parts[0]|
    decreases |parts|
  {
    hide Find;
    if parts != [] {
      ReceivedGrows(before + parts[0], parts[1..]);
    }
  }

  lemma NothingAtFirst(parts: seq<seq<byte>>)
    ensures var none: seq<byte> := []; Find(none + none) < 0 && none + none == none
    ensures var none: seq<byte> := []; none + Filtered(none, parts) == Filtered(none, parts)
  {
  }

  // However the reads fall, and however long they are: a reply whose marker has no NUL before it is
  // written in full, minus its first marker.
  lemma FilterRemovesTheMarker(parts: seq<seq<byte>>)
    requires MarkerVisible(Received([], parts))
    ensures Filtered([], parts) == WithoutMarker(Received([], parts))
  {
    NothingAtFirst(parts);
    var all := Received([], parts);
    VisibleFromAfar(all);
    hide Find, Filtered, Received;
    FilteredFrom([], [], parts, |all|);
  }

  lemma VisibleFromAfar(s: seq<byte>)
    ensures MarkerVisible(s) <==> VisibleWithin(s, |s|)
  {
    MarkerFits(s);
    var p := Find(s);
    assert p >= 0 ==> s[0..p] == s[..p];
  }

  lemma FirstOfReads(parts: seq<seq<byte>>, k: nat)
    requires 1 <= k <= |parts|
    ensures Joined(parts[..k]) == parts[0] + Joined(parts[1..][..k - 1])
  {
    assert parts[..k] == [parts[0]] + parts[1..][..k - 1];
    JoinedAppend([parts[0]], parts[1..][..k - 1]);
    JoinedOne(parts[0]);
  }

  // Reading stops with the first read that completes a marker.
  lemma {:induction false} ReceivedIsAPrefix(before: seq<byte>, parts: seq<seq<byte>>) returns (n: nat)
    requires Find(before) < 0
    ensures n <= |parts| && Received(before, parts) == before + Joined(parts[..n])
    ensures forall k :: 0 <= k < n ==> Find(before + Joined(parts[..k])) < 0
    ensures n == |parts| || Find(Received(before, parts)) >= 0
    decreases |parts|
  {
    hide Find, Joined;
    NoReads(before, parts);
    if parts == [] {
      n := 0;
    } else if Find(before + parts[0]) >= 0 {
      n := 1;
      FirstOfReads(parts, 1);
      NoReads(parts[0], parts[1..]);
    } else {
      var m := ReceivedIsAPrefix(before + parts[0], parts[1..]);
      n := m + 1;
      FirstOfReads(parts, n);
      Regroup(before, parts[0], Joined(parts[1..][..m]));
      forall k | 0 <= k < n
        ensures Find(before + Joined(parts[..k])) < 0
      {
        if k > 0 {
          FirstOfReads(parts, k);
          Regroup(before, parts[0], Joined(parts[1..][..k - 1]));
        }
      }
    }
  }

  lemma NoReads(before: seq<byte>, parts: seq<seq<byte>>)
    ensures before + Joined(parts[..0]) == before
  {
  }

  lemma MarkerByte(s: seq<byte>, p: int, i: int)
    ensures MarkerAt(s, p) && 0 <= i < 9 ==> s[p + i] == MARKER[i]
  {
    if MarkerAt(s, p) && 0 <= i < 9 {
      assert s[p..p + 9][i] == s[p + i];
    }
  }

  // The marker does not overlap itself.
  lemma OccurrencesAreApart(s: seq<byte>, p: int, q: int)
    ensures MarkerAt(s, p) && MarkerAt(s, q) && p < q ==> p + 9 <= q
  {
    MarkerByte(s, p, q - p);
    MarkerByte(s, q, 0);
    MarkerByte(s, p, 3);
    MarkerByte(s, q, 3 - (q - p));
  }

  // So text before it cannot bring an occurrence forward.
  lemma MarkerStartsWhereItIsPut(body: seq<byte>, rest: seq<byte>)
    requires Find(body) < 0
    ensures Find(body + MARKER + rest) == |body|
  {
    var n, s := |body|, body + MARKER + rest;
    assert s[n..n + 9] == MARKER;
    forall k | 0 <= k < n
      ensures !MarkerAt(s, k)
    {
      OccurrencesAreApart(s, k, n);
      assert k + 9 <= n ==> s[k..k + 9] == body[k..k + 9];
      assert !MarkerAt(body, k);
    }
    FirstOccurrence(s, n);
  }

  // A prefix of body, marker, rest that holds a marker holds all of body and marker.
  lemma PrefixWithTheMarker(body: seq<byte>, rest: seq<byte>, got: seq<byte>) returns (extra: seq<byte>)
    requires Find(body) < 0 && got <= body + MARKER + rest && Find(got) >= 0
    ensures extra <= rest && got == body + MARKER + extra
  {
    var n, p, whole := |body|, Find(got), body + MARKER + rest;
    MarkerStartsWhereItIsPut(body, rest);
    assert got[p..p + 9] == whole[p..p + 9];
    assert MarkerAt(whole, p);
    assert n <= p;
    extra := rest[..|got| - n - 9];
    assert got == whole[..|got|];
  }

  // A reply `body`, marker, `rest`: the body is written, then of `rest` exactly what came with the
  // first `n` reads, the shortest run of reads that holds body and marker.
  lemma ReplyIsShown(body: seq<byte>, rest: seq<byte>, parts: seq<seq<byte>>) returns (n: nat, extra: seq<byte>)
    requires Joined(parts) == body + MARKER + rest && Find(body) < 0 && NUL !in body
    ensures n <= |parts| && Joined(parts[..n]) == body + MARKER + extra && extra <= rest
    ensures forall k :: 0 <= k < n ==> |Joined(parts[..k])| < |body| + 9
    ensures Filtered([], parts) == body + extra
  {
    hide Find, Filtered, Received, Joined, WithoutMarker;
    NothingToFind();
    n := ReceivedIsAPrefix([], parts);
    var got := Joined(parts[..n]);
    assert [] + got == got;
    PrefixOfReads(parts, n);
    MarkerStartsWhereItIsPut(body, rest);
    assert n == |parts| ==> parts[..n] == parts;
    extra := PrefixWithTheMarker(body, rest, got);
    forall k | 0 <= k < n
      ensures |Joined(parts[..k])| < |body| + 9
    {
      assert [] + Joined(parts[..k]) == Joined(parts[..k]);
      PrefixOfReads(parts, k);
      LongPrefixHasTheMarker(body, rest, Joined(parts[..k]));
    }
    MarkerIsCutOut(body, extra);
    MarkerStartsWhereItIsPut(body, extra);
    assert got[..|body|] == body;
    FilterRemovesTheMarker(parts);
  }

  lemma PrefixOfReads(parts: seq<seq<byte>>, k: nat)
    requires k <= |parts|
    ensures Joined(parts[..k]) <= Joined(parts)
  {
    hide Joined;
    JoinedAppend(parts[..k], parts[k..]);
    assert parts[..k] + parts[k..] == parts;
  }

  lemma LongPrefixHasTheMarker(body: seq<byte>, rest: seq<byte>, got: seq<byte>)
    requires got <= body + MARKER + rest
    ensures Find(got) < 0 ==> |got| < |body| + 9
  {
    var n, whole := |body|, body + MARKER + rest;
    if |got| >= n + 9 {
      assert got[n..n + 9] == whole[n..n + 9] == MARKER;
      assert MarkerAt(got, n);
    }
  }

  lemma ReplyEndingWithTheMarkerIsShownExactly(body: seq<byte>, parts: seq<seq<byte>>)
    requires Joined(parts) == body + MARKER && Find(body) < 0 && NUL !in body
    ensures Filtered([], parts) == body
  {
    assert body + MARKER + [] == body + MARKER;
    var n, extra := ReplyIsShown(body, [], parts);
    assert body + [] == body;
  }

  lemma MarkerIsCutOut(body: seq<byte>, rest: seq<byte>)
    requires Find(body) < 0
    ensures WithoutMarker(body + MARKER + rest) == body + rest
  {
    MarkerStartsWhereItIsPut(body, rest);
    var s := body + MARKER + rest;
    assert s[..|body|] == body && s[|body| + 9..] == rest;
  }

  lemma FirstReadSuffices(first: seq<byte>, others: seq<seq<byte>>)
    requires Find(first) >= 0
    ensures Received([], [first] + others) == first
  {
    assert [] + first == first;
  }

  // Bytes after the marker are shown or left for the next reply, depending on the read boundaries.
  lemma BoundariesMatterAfterTheMarker(body: seq<byte>, rest: seq<byte>)
    requires Find(body) < 0 && NUL !in body && rest != []
    ensures Filtered([], [body + MARKER + rest]) == body + rest
    ensures Filtered([], [body + MARKER, rest]) == body
  {
    hide Find, Filtered, Received, WithoutMarker;
    var whole, cut := body + MARKER + rest, body + MARKER;
    assert cut + [] == cut && body + [] == body;
    MarkerIsCutOut(body, rest);
    MarkerIsCutOut(body, []);
    MarkerStartsWhereItIsPut(body, rest);
    MarkerStartsWhereItIsPut(body, []);
    FirstReadSuffices(whole, []);
    FirstReadSuffices(cut, [rest]);
    assert [whole] + [] == [whole] && [cut] + [rest] == [cut, rest];
    FilterRemovesTheMarker([whole]);
    FilterRemovesTheMarker([cut, rest]);
  }

  // A NUL byte hides everything behind it from the search: read at once, a reply with a NUL before
  // its first marker is shown as it is, marker included.
  lemma NulHidesTheMarker(s: seq<byte>)
    requires !MarkerVisible(s)
    ensures Filtered([], [s]) == s != WithoutMarker(Received([], [s]))
  {
    FirstReadSuffices(s, []);
    assert [s] + [] == [s];
    SearchSees(s);
    CutsNine(s);
    hide Search, Find, WithoutMarker, Received;
    assert Buffer([], s) == s;
    MissedRead([], s);
    LoneRead(s);
  }

  lemma CutsNine(s: seq<byte>)
    ensures Find(s) >= 0 ==> |WithoutMarker(s)| == |s| - 9
  {
  }

  // A read in which no marker is seen: all bytes are shown or kept, and at least those that fit.
  lemma MissedRead(acc: seq<byte>, chunk: seq<byte>)
    ensures
      var step := Absorb(acc, chunk);
      && (step.found <==> Search(Buffer(acc, chunk)) >= 0)
      && (!step.found ==> step.written + step.kept == acc + chunk)
  {
    hide Search;
    var spill := Spill(acc, chunk);
    Regroup(acc[..spill], acc[spill..], chunk);
    Regroup(acc[..spill], Scan(Buffer(acc, chunk)).written, Scan(Buffer(acc, chunk)).kept);
    assert acc[..spill] + acc[spill..] == acc;
  }

  lemma LoneRead(s: seq<byte>)
    ensures Filtered([], [s]) == Absorb([], s).written + Absorb([], s).kept
  {
    hide Absorb;
    assert [s][1..] == [];
  }

  // Every read of a reply finds room: the spill is never taken.
  predicate EverOverflows(acc: seq<byte>, parts: seq<seq<byte>>)
    decreases |parts|
  {
    parts != [] &&
    (Overflows(acc, parts[0])
     || (!Absorb(acc, parts[0]).found && EverOverflows(Absorb(acc, parts[0]).kept, parts[1..])))
  }

  lemma {:induction false} OverflowNeverFires(acc: seq<byte>, parts: seq<seq<byte>>)
    requires |acc| <= HELD_BACK && forall r :: r in parts ==> |r| <= READ_MAX
    ensures !EverOverflows(acc, parts)
    decreases |parts|
  {
    if parts != [] && !Absorb(acc, parts[0]).found {
      OverflowNeverFires(Absorb(acc, parts[0]).kept, parts[1..]);
    }
  }

  lemma FilteredStep(written: seq<byte>, acc: seq<byte>, parts: seq<seq<byte>>, n: nat)
    requires n < |parts|
    ensures
      var step := Absorb(acc, parts[n]);
      written + Filtered(acc, parts[n..])
      == written + step.written + if step.found then step.kept else Filtered(step.kept, parts[n + 1..])
  {
    hide Absorb;
    var step := Absorb(acc, parts[n]);
    var rest := if step.found then step.kept else Filtered(step.kept, parts[n + 1..]);
    assert parts[n..][0] == parts[n] && parts[n..][1..] == parts[n + 1..];
    assert Filtered(acc, parts[n..]) == step.written + rest;
    assert written + (step.written + rest) == written + step.written + rest;
  }

  lemma NothingLeft(acc: seq<byte>)
    ensures Filtered(acc, []) == acc
  {
  }

  class Filter {
    const acc: array<byte>
    var accLen: nat
    var written: seq<byte>

    ghost predicate Valid()
      reads this, acc
    {
      acc.Length == CAPACITY && accLen < CAPACITY
    }

    ghost function Held(): seq<byte>
      requires Valid()
      reads this, acc
    {
      acc[..accLen]
    }

    constructor ()
      ensures Valid() && fresh(acc) && Held() == [] && written == []
    {
      acc := new byte[CAPACITY](_ => NUL);
      accLen := 0;
      written := [];
    }

    // Write the first `n` bytes of the buffer and move what follows the next `skip` bytes to its front.
    method Emit(n: nat, skip: nat)
      requires Valid() && n + skip <= accLen
      modifies this`accLen, this`written, acc
      ensures Valid() && Held() == old(Held())[n + skip..] && written == old(written) + old(Held())[..n]
    {
      written := written + acc[..n];
      forall k | 0 <= k < accLen - n - skip {
        acc[k] := acc[n + skip + k];
      }
      accLen := accLen - n - skip;
    }

    method Append(chunk: seq<byte>)
      requires Valid() && accLen + |chunk| < CAPACITY
      modifies this`accLen, acc
      ensures Valid() && Held() == old(Held()) + chunk
    {
      forall k | 0 <= k < |chunk| {
        acc[accLen + k] := chunk[k];
      }
      accLen := accLen + |chunk|;
    }

    // Look for the marker in the buffer.
    method Inspect() returns (found: bool)
      requires Valid()
      modifies this`accLen, this`written, acc
      ensures Valid()
      ensures
        var step := Scan(old(Held()));
        found == step.found && Held() == step.kept && written == old(written) + step.written
    {
      hide Search, MarkerAt;
      var pos := Search(acc[..accLen]);
      found := pos >= 0;
      if found {
        SearchFindsRoom(Held());
        Emit(pos, 9);
      } else if accLen > HELD_BACK {
        Emit(accLen - HELD_BACK, 0);
      }
    }

    method Receive(chunk: seq<byte>) returns (found: bool)
      requires Valid() && |chunk| <= READ_MAX
      modifies this`accLen, this`written, acc
      ensures Valid()
      ensures
        var step := Absorb(old(Held()), chunk);
        found == step.found && Held() == step.kept && written == old(written) + step.written
    {
      hide Scan;
      if |chunk| + accLen >= CAPACITY - 1 {
        var flush := if accLen > 8 then accLen - 8 else 0;
        if flush > 0 {
          Emit(flush, 0);
        }
      }
      Append(chunk);
      found := Inspect();
    }

    // One reply. `parts` are the successful reads the connection still has to offer.
    method ShowReply(parts: seq<seq<byte>>)
      requires Valid() && accLen == 0 && forall r :: r in parts ==> 0 < |r| <= READ_MAX
      modifies this`accLen, this`written, acc
      ensures Valid()
      ensures written == old(written) + Filtered([], parts) + [NEWLINE]
    {
      hide Absorb, Filtered;
      var n, found := 0, false;
      assert parts[0..] == parts;
      while n < |parts| && !found
        invariant n <= |parts| && Valid()
        invariant old(written) + Filtered([], parts)
               == written + if found then Held() else Filtered(Held(), parts[n..])
      {
        FilteredStep(written, Held(), parts, n);
        found := Receive(parts[n]);
        n := n + 1;
      }
      assert !found ==> parts[n..] == [];
      NothingLeft(Held());
      if accLen > 0 {
        written := written + acc[..accLen];
      }
      written := written + [NEWLINE];
    }
  }
}
