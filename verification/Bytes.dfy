// Bytes and byte strings shared by the text-stream components.

module Bytes {
  newtype byte = b: int | 0 <= b < 256

  const NUL: byte := 0
  const NEWLINE: byte := 10

  // The concatenation of all parts.
  function Joined(parts: seq<seq<byte>>): seq<byte> {
    if parts == [] then [] else Joined(parts[..|parts| - 1]) + parts[|parts| - 1]
  }

  lemma JoinedOne(part: seq<byte>)
    ensures Joined([part]) == part
  {
    assert [part][..0] == [];
  }

  lemma {:induction false} JoinedAppend(a: seq<seq<byte>>, b: seq<seq<byte>>)
    ensures Joined(a + b) == Joined(a) + Joined(b)
  {
    if b == [] {
      assert a + b == a;
    } else {
      var init, last := b[..|b| - 1], b[|b| - 1];
      JoinedAppend(a, init);
      assert (a + b)[..|a + b| - 1] == a + init;
      assert Joined(a) + Joined(init) + last == Joined(a) + (Joined(init) + last);
    }
  }

  // The first index of `b` in `s`, or -1.
  function IndexOf(s: seq<byte>, b: byte): (k: int)
    ensures -1 <= k < |s|
    ensures k >= 0 ==> s[k] == b && forall i :: 0 <= i < k ==> s[i] != b
    ensures k < 0 ==> b !in s
  {
    if s == [] then -1
    else if s[0] == b then 0
    else
      var k := IndexOf(s[1..], b);
      if k < 0 then -1 else k + 1
  }

  lemma SliceOfSum(a: seq<byte>, b: seq<byte>, i: nat)
    requires i <= |b|
    ensures (a + b)[..|a| + i] == a + b[..i]
    ensures (a + b)[|a| + i..] == b[i..]
  {
  }

  lemma SliceOfRest(s: seq<byte>, i: nat, j: nat)
    requires i + j <= |s|
    ensures s[i..][..j] == s[i..i + j]
    ensures s[i..][j..] == s[i + j..]
  {
  }

  lemma Regroup<T>(a: seq<T>, b: seq<T>, c: seq<T>)
    ensures a + b + c == a + (b + c)
  {
  }

  lemma LastOfSum<T>(a: seq<T>, b: seq<T>)
    requires b != []
    ensures b == b[..|b| - 1] + [b[|b| - 1]]
    ensures a + b == a + b[..|b| - 1] + [b[|b| - 1]]
  {
  }

  lemma SliceOfCells(cells: array<byte>, used: nat, lo: nat, hi: nat)
    requires lo <= hi <= used <= cells.Length
    ensures cells[lo..hi] == cells[..used][lo..hi]
  {
  }
}
