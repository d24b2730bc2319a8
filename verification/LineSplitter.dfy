// The streamed chat reply of the AI helper: bytes arrive in arbitrary chunks, complete
// lines are decoded and delivered, the unfinished line is kept for the next chunk.

module LineSplitter {
  import opened Bytes
  import opened Wrappers

  // A JSON decoder seen from outside: the "message.content" string of a line, if it has one.
  type Decoder = seq<byte> -> Option<seq<byte>>

  // The newline-terminated lines of `s`, without their newlines.
  function Lines(s: seq<byte>): seq<seq<byte>> {
    if s == [] then []
    else
      var init := s[..|s| - 1];
      if s[|s| - 1] == NEWLINE then Lines(init) + [Tail(init)] else Lines(init)
  }

  // What follows the last newline of `s`.
  function Tail(s: seq<byte>): seq<byte> {
    if s == [] || s[|s| - 1] == NEWLINE then [] else Tail(s[..|s| - 1]) + [s[|s| - 1]]
  }

  function Terminated(lines: seq<seq<byte>>): seq<byte> {
    if lines == [] then [] else Terminated(lines[..|lines| - 1]) + lines[|lines| - 1] + [NEWLINE]
  }

  predicate NewlineFree(lines: seq<seq<byte>>) {
    forall line :: line in lines ==> NEWLINE !in line
  }

  lemma {:induction false} LinesRebuild(s: seq<byte>)
    ensures NewlineFree(Lines(s)) && NEWLINE !in Tail(s)
    ensures Terminated(Lines(s)) + Tail(s) == s
  {
    if s != [] {
      var init := s[..|s| - 1];
      LinesRebuild(init);
      assert s == init + [s[|s| - 1]];
      if s[|s| - 1] == NEWLINE {
        var lines := Lines(init) + [Tail(init)];
        assert lines[..|lines| - 1] == Lines(init);
      }
    }
  }

  // There is only one way to see bytes as terminated lines and an unterminated rest.
  lemma {:induction false} SplittingIsUnique(lines: seq<seq<byte>>, tail: seq<byte>)
    requires NewlineFree(lines) && NEWLINE !in tail
    ensures Lines(Terminated(lines) + tail) == lines
    ensures Tail(Terminated(lines) + tail) == tail
    decreases |lines|, |tail|
  {
    var s := Terminated(lines) + tail;
    if tail != [] {
      var init := tail[..|tail| - 1];
      SplittingIsUnique(lines, init);
      assert s[..|s| - 1] == Terminated(lines) + init;
    } else if lines != [] {
      var before, last := lines[..|lines| - 1], lines[|lines| - 1];
      SplittingIsUnique(before, last);
      assert s[..|s| - 1] == Terminated(before) + last;
      assert lines == before + [last];
    }
  }

  lemma OneMoreByte(s: seq<byte>, c: byte)
    ensures Lines(s + [c]) == if c == NEWLINE then Lines(s) + [Tail(s)] else Lines(s)
    ensures Tail(s + [c]) == if c == NEWLINE then [] else Tail(s) + [c]
  {
    assert (s + [c])[..|s|] == s;
  }

  lemma TailsHaveNoLines(a: seq<byte>)
    ensures Lines(Tail(a)) == [] && Tail(Tail(a)) == Tail(a)
  {
    LinesRebuild(a);
    SplittingIsUnique([], Tail(a));
    assert Terminated([]) + Tail(a) == Tail(a);
  }

  lemma {:induction false} SplitInTwo(a: seq<byte>, b: seq<byte>)
    ensures Lines(a + b) == Lines(a) + Lines(Tail(a) + b)
    ensures Tail(a + b) == Tail(Tail(a) + b)
  {
    hide Lines, Tail;
    if b == [] {
      assert a + b == a && Tail(a) + b == Tail(a) && Lines(a) + [] == Lines(a);
      TailsHaveNoLines(a);
    } else {
      var init, c := b[..|b| - 1], b[|b| - 1];
      SplitInTwo(a, init);
      OneMoreByte(a + init, c);
      OneMoreByte(Tail(a) + init, c);
      LastOfSum(a, b);
      LastOfSum(Tail(a), b);
      Regroup(Lines(a), Lines(Tail(a) + init), [Tail(a + init)]);
    }
  }

  // The texts decoded from one line, at most one.
  function Decoded(content: Decoder, line: seq<byte>): seq<seq<byte>> {
    match content(line)
    case Some(text) => [text]
    case None => []
  }

  // The text of a line, if it is not empty and has one.
  function TextOf(content: Decoder, line: seq<byte>): seq<seq<byte>> {
    if line == [] then [] else Decoded(content, line)
  }

  // The texts of all non-empty lines.
  function Texts(content: Decoder, lines: seq<seq<byte>>): seq<seq<byte>> {
    if lines == [] then []
    else
      Texts(content, lines[..|lines| - 1]) + TextOf(content, lines[|lines| - 1])
  }

  lemma OneMoreLine(content: Decoder, lines: seq<seq<byte>>, line: seq<byte>)
    ensures Texts(content, lines + [line]) == Texts(content, lines) + TextOf(content, line)
  {
    assert (lines + [line])[..|lines|] == lines;
  }

  lemma {:induction false} TextsAppend(content: Decoder, a: seq<seq<byte>>, b: seq<seq<byte>>)
    ensures Texts(content, a + b) == Texts(content, a) + Texts(content, b)
  {
    if b == [] {
      assert a + b == a;
    } else {
      hide Texts, TextOf;
      var init, last := b[..|b| - 1], b[|b| - 1];
      TextsAppend(content, a, init);
      OneMoreLine(content, a + init, last);
      OneMoreLine(content, init, last);
      LastOfSum(a, b);
      Regroup(Texts(content, a), Texts(content, init), TextOf(content, last));
    }
  }

  // A text is copied to the reply buffer only if it leaves room for the terminator.
  function Kept(size: nat, have: seq<byte>, texts: seq<seq<byte>>): seq<byte> {
    if texts == [] then have
    else
      var before, last := Kept(size, have, texts[..|texts| - 1]), texts[|texts| - 1];
      if |before| + |last| + 1 < size then before + last else before
  }

  lemma {:induction false} KeptAppend(size: nat, have: seq<byte>, a: seq<seq<byte>>, b: seq<seq<byte>>)
    ensures Kept(size, have, a + b) == Kept(size, Kept(size, have, a), b)
  {
    if b == [] {
      assert a + b == a;
    } else {
      KeptAppend(size, have, a, b[..|b| - 1]);
      assert (a + b)[..|a + b| - 1] == a + b[..|b| - 1];
    }
  }

  lemma {:induction false} KeptFits(size: nat, texts: seq<seq<byte>>)
    ensures Kept(size, [], texts) == [] || |Kept(size, [], texts)| + 1 < size
    ensures Kept(size, [], texts) == Joined(texts) || |Kept(size, [], texts)| < |Joined(texts)|
    ensures |Joined(texts)| + 1 < size ==> Kept(size, [], texts) == Joined(texts)
    ensures Joined(texts) == [] ==> Kept(size, [], texts) == []
  {
    if texts != [] {
      KeptFits(size, texts[..|texts| - 1]);
    }
  }

  // The reply buffer holds the whole reply exactly when the reply fits, terminator included.
  lemma ReplyIsWholeExactlyWhenItFits(size: nat, texts: seq<seq<byte>>)
    ensures Kept(size, [], texts) == Joined(texts) <==> Joined(texts) == [] || |Joined(texts)| + 1 < size
  {
    KeptFits(size, texts);
  }

  lemma NoBytes(content: Decoder, size: nat, have: seq<byte>)
    ensures Joined([]) == [] && Lines([]) == [] && Tail([]) == [] && Texts(content, []) == [] && Kept(size, have, []) == have
  {
  }

  // What one more byte changes.
  lemma NextByte(content: Decoder, size: nat, have: seq<byte>, s: seq<byte>, c: byte)
    ensures c != NEWLINE ==> Lines(s + [c]) == Lines(s) && Tail(s + [c]) == Tail(s) + [c]
    ensures c == NEWLINE ==> Tail(s + [c]) == []
    ensures c == NEWLINE ==>
      var before, line := Texts(content, Lines(s)), TextOf(content, Tail(s));
      && Texts(content, Lines(s + [c])) == before + line
      && before + [] == before
      && Kept(size, have, before + line) == Kept(size, Kept(size, have, before), line)
  {
    hide Lines, Tail, Texts, Kept, TextOf;
    OneMoreByte(s, c);
    OneMoreLine(content, Lines(s), Tail(s));
    KeptAppend(size, have, Texts(content, Lines(s)), TextOf(content, Tail(s)));
  }

  function Bodies(chunks: seq<(seq<byte>, bool)>): (bodies: seq<seq<byte>>)
    ensures |bodies| == |chunks|
  {
    seq(|chunks|, i requires 0 <= i < |chunks| => chunks[i].0)
  }

  // How many chunks arrive before the buffer first fails to grow.
  function Grown(chunks: seq<(seq<byte>, bool)>): (n: nat)
    ensures n <= |chunks| && (forall i :: 0 <= i < n ==> chunks[i].1) && (n < |chunks| ==> !chunks[n].1)
  {
    if chunks == [] || !chunks[0].1 then 0 else 1 + Grown(chunks[1..])
  }

  lemma BodiesNext(chunks: seq<(seq<byte>, bool)>, n: nat)
    requires n < |chunks|
    ensures Joined(Bodies(chunks[..n + 1])) == Joined(Bodies(chunks[..n])) + chunks[n].0
  {
    var bodies := Bodies(chunks[..n + 1]);
    assert bodies[..n] == Bodies(chunks[..n]);
  }

  // Splitting what is pending together with a new chunk continues the splitting of everything before.
  lemma NextChunk(content: Decoder, size: nat, all: seq<byte>, chunk: seq<byte>)
    ensures Tail(all + chunk) == Tail(Tail(all) + chunk)
    ensures
      var texts, more := Texts(content, Lines(all)), Texts(content, Lines(Tail(all) + chunk));
      && Texts(content, Lines(all + chunk)) == texts + more
      && Kept(size, [], texts + more) == Kept(size, Kept(size, [], texts), more)
  {
    SplitInTwo(all, chunk);
    TextsAppend(content, Lines(all), Lines(Tail(all) + chunk));
    KeptAppend(size, [], Texts(content, Lines(all)), Texts(content, Lines(Tail(all) + chunk)));
  }

  lemma LastLine(content: Decoder, size: nat, all: seq<byte>)
    ensures
      var texts, last := Texts(content, Lines(all)), TextOf(content, Tail(all));
      && Texts(content, Lines(all) + [Tail(all)]) == texts + last
      && Kept(size, [], texts + last) == Kept(size, Kept(size, [], texts), last)
      && texts + [] == texts
  {
    OneMoreLine(content, Lines(all), Tail(all));
    KeptAppend(size, [], Texts(content, Lines(all)), TextOf(content, Tail(all)));
  }

  class ChatStream {
    const content: Decoder
    const out: array<byte>
    var outLen: nat
    var buf: array<byte>
    var len: nat
    var error: bool
    var delivered: seq<seq<byte>>

    ghost predicate Valid()
      reads this, buf, out
    {
      && len <= buf.Length
      && outLen < out.Length
      && out[outLen] == NUL
      && buf != out
    }

    ghost function Pending(): seq<byte>
      requires len <= buf.Length
      reads this, buf
    {
      buf[..len]
    }

    ghost function Reply(): seq<byte>
      requires outLen <= out.Length
      reads this, out
    {
      out[..outLen]
    }

    constructor (content: Decoder, size: nat)
      requires size > 0
      ensures Valid() && fresh(buf) && fresh(out) && out.Length == size && this.content == content
      ensures Pending() == [] && Reply() == [] && delivered == [] && !error
    {
      this.content := content;
      out := new byte[size](_ => NUL);
      outLen := 0;
      buf := new byte[0];
      len := 0;
      error := false;
      delivered := [];
    }

    // Decode one line; keep its text if it fits and hand it to the callback.
    method Deliver(line: seq<byte>)
      requires Valid()
      modifies this`outLen, this`delivered, out
      ensures Valid()
      ensures delivered == old(delivered) + Decoded(content, line)
      ensures Reply() == Kept(out.Length, old(Reply()), Decoded(content, line))
    {
      match content(line) {
        case None =>
        case Some(text) =>
          assert [text][..0] == [];
          if outLen + |text| + 1 < out.Length {
            forall k | 0 <= k < |text| {
              out[outLen + k] := text[k];
            }
            outLen := outLen + |text|;
            out[outLen] := NUL;
            assert Reply() == old(Reply()) + text;
          }
          delivered := delivered + [text];
      }
    }

    // Grow the buffer and append the new bytes.
    method Extend(contents: seq<byte>)
      requires Valid()
      modifies this`buf, this`len
      ensures Valid() && fresh(buf) && Pending() == old(Pending()) + contents
      ensures len < buf.Length && buf[len] == NUL
    {
      var grown := new byte[len + |contents| + 1](_ => NUL);
      forall k | 0 <= k < len {
        grown[k] := buf[k];
      }
      forall k | 0 <= k < |contents| {
        grown[len + k] := contents[k];
      }
      buf := grown;
      len := len + |contents|;
    }

    // Deliver every complete, non-empty line; `start` is where the unfinished one begins.
    method DeliverLines() returns (start: nat)
      requires Valid()
      modifies this`outLen, this`delivered, out
      ensures Valid() && Pending() == old(Pending())
      ensures start <= len && buf[start..len] == Tail(Pending())
      ensures delivered == old(delivered) + Texts(content, Lines(Pending()))
      ensures Reply() == Kept(out.Length, old(Reply()), Texts(content, Lines(Pending())))
    {
      hide Lines, Tail, Texts, Kept;
      ghost var all, had := Pending(), Reply();
      start := 0;
      var i := 0;
      NoBytes(content, out.Length, had);
      while i < len
        invariant start <= i <= len == |all| && Valid() && Pending() == all
        invariant all[start..i] == Tail(all[..i])
        invariant delivered == old(delivered) + Texts(content, Lines(all[..i]))
        invariant Reply() == Kept(out.Length, had, Texts(content, Lines(all[..i])))
      {
        NextByte(content, out.Length, had, all[..i], all[i]);
        assert all[..i + 1] == all[..i] + [all[i]];
        if buf[i] == NEWLINE {
          if i - start > 0 {
            SliceOfCells(buf, len, start, i);
            Deliver(buf[start..i]);
          }
          start := i + 1;
        }
        i := i + 1;
      }
      assert all[..len] == all;
    }

    // Move the unfinished line to the front of the buffer.
    method KeepFrom(start: nat)
      requires Valid() && start <= len
      modifies this`len, buf
      ensures Valid() && Pending() == old(buf[start..len])
    {
      if 0 < start < len {
        forall k | 0 <= k < len - start {
          buf[k] := buf[start + k];
        }
        len := len - start;
      } else if start == len {
        len := 0;
      }
    }

    // `grows` tells whether the allocator lets the buffer grow.
    method StreamCallback(contents: seq<byte>, grows: bool) returns (taken: nat)
      requires Valid()
      modifies this`buf, this`len, this`error, this`outLen, this`delivered, buf, out
      ensures Valid() && (buf == old(buf) || fresh(buf))
      ensures old(error) || !grows ==>
        Pending() == old(Pending()) && delivered == old(delivered) && Reply() == old(Reply()) && error
      ensures taken == if !old(error) && !grows then 0 else |contents|
      ensures !old(error) && grows ==>
        var all := old(Pending()) + contents;
        && !error
        && Pending() == Tail(all)
        && delivered == old(delivered) + Texts(content, Lines(all))
        && Reply() == Kept(out.Length, old(Reply()), Texts(content, Lines(all)))
    {
      if error {
        return |contents|;
      }
      if !grows {
        error := true;
        return 0;
      }
      Extend(contents);
      var start := DeliverLines();
      KeepFrom(start);
      taken := |contents|;
    }

    // One request: every chunk the transfer hands over, then the flush of an unfinished last line.
    // A callback that takes fewer bytes than it was given ends the transfer.
    method CallChatApi(chunks: seq<(seq<byte>, bool)>, transferOk: bool, flushGrows: bool) returns (code: int)
      requires Valid() && !error && Pending() == [] && Reply() == []
      modifies this`buf, this`len, this`error, this`outLen, this`delivered, buf, out
      ensures Valid() && (error <==> Grown(chunks) < |chunks|)
      ensures
        var all := Joined(Bodies(chunks[..Grown(chunks)]));
        var lines := if !error && flushGrows then Lines(all) + [Tail(all)] else Lines(all);
        && delivered == old(delivered) + Texts(content, lines)
        && Reply() == Kept(out.Length, [], Texts(content, lines))
      ensures code == if !transferOk || error || Reply() == [] then -1 else 0
    {
      hide Lines, Tail, Texts, Kept, Joined;
      NoBytes(content, out.Length, []);
      ghost var good := Grown(chunks);
      var n := 0;
      while n < |chunks|
        invariant n <= |chunks| && Valid() && (buf == old(buf) || fresh(buf))
        invariant error <==> good < n
        invariant
          var all := Joined(Bodies(chunks[..if error then good else n]));
          && Pending() == Tail(all)
          && delivered == old(delivered) + Texts(content, Lines(all))
          && Reply() == Kept(out.Length, [], Texts(content, Lines(all)))
      {
        var (chunk, grows) := chunks[n];
        if !error {
          BodiesNext(chunks, n);
          NextChunk(content, out.Length, Joined(Bodies(chunks[..n])), chunk);
        }
        var taken := StreamCallback(chunk, grows);
        n := n + 1;
        if taken != |chunk| {
          break;
        }
      }
      LastLine(content, out.Length, Joined(Bodies(chunks[..good])));
      if len > 0 && !error && flushGrows {
        Deliver(buf[..len]);
      }
      code := if !transferOk || error || outLen == 0 then -1 else 0;
    }
  }
}
