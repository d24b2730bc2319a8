// AESStandard.py: AES-128 key expansion, rounds, encryption and decryption (FIPS 197, section 5).
module Aes {
  import opened Wrappers
  import opened AesTables
  import opened Galois
  import opened MixColumns

  type Word = seq<bv8>          // four bytes
  type State = seq<seq<bv8>>    // four rows of four bytes

  predicate IsState(s: State) {
    |s| == 4 && forall r :: 0 <= r < 4 ==> |s[r]| == 4
  }

  predicate IsSchedule(ks: seq<Word>) {
    |ks| == 44 && forall i :: 0 <= i < 44 ==> |ks[i]| == 4
  }

  function SubBytes(s: State): (t: State)
    requires IsState(s)
    ensures IsState(t)
  {
    seq(4, r requires 0 <= r < 4 => seq(4, c requires 0 <= c < 4 => Sub(s[r][c])))
  }

  function InvSubBytes(s: State): (t: State)
    requires IsState(s)
    ensures IsState(t)
  {
    seq(4, r requires 0 <= r < 4 => seq(4, c requires 0 <= c < 4 => InvSub(s[r][c])))
  }

  function ShiftRows(s: State): (t: State)
    requires IsState(s)
    ensures IsState(t)
  {
    seq(4, r requires 0 <= r < 4 => s[r][r..] + s[r][..r])
  }

  // row[-i:] + row[:-i]; for i == 0 the first slice is the whole row and the second is empty.
  function InvShiftRows(s: State): (t: State)
    requires IsState(s)
    ensures IsState(t)
  {
    seq(4, r requires 0 <= r < 4 => if r == 0 then s[r] else s[r][4 - r..] + s[r][..4 - r])
  }

  function ColumnOf(s: State, c: nat): (col: Column)
    requires IsState(s) && c < 4
    ensures |col| == 4
  {
    [s[0][c], s[1][c], s[2][c], s[3][c]]
  }

  function Mix(s: State): (t: State)
    requires IsState(s)
    ensures IsState(t)
  {
    seq(4, r requires 0 <= r < 4 => seq(4, c requires 0 <= c < 4 => MixSingleColumn(ColumnOf(s, c))[r]))
  }

  function InvMix(s: State): (t: State)
    requires IsState(s)
    ensures IsState(t)
  {
    seq(4, r requires 0 <= r < 4 => seq(4, c requires 0 <= c < 4 => InvMixSingleColumn(ColumnOf(s, c))[r]))
  }

  function AddRoundKey(s: State, ks: seq<Word>, rnd: nat): (t: State)
    requires IsState(s) && IsSchedule(ks) && rnd <= 10
    ensures IsState(t)
  {
    seq(4, r requires 0 <= r < 4 => seq(4, c requires 0 <= c < 4 => Xor(s[r][c], ks[4 * rnd + c][r])))
  }

  function BytesToState(b: seq<bv8>): (s: State)
    requires |b| >= 16
    ensures IsState(s)
  {
    seq(4, r requires 0 <= r < 4 => seq(4, c requires 0 <= c < 4 => b[4 * c + r]))
  }

  function StateToBytes(s: State): (b: seq<bv8>)
    requires IsState(s)
    ensures |b| == 16
  {
    seq(16, i requires 0 <= i < 16 => s[i % 4][i / 4])
  }

  // Adding a round key adds word 4 * rnd + c to column c, and nothing else.
  lemma AddRoundKeyAddsWords(s: State, ks: seq<Word>, rnd: nat, c: nat)
    requires IsState(s) && IsSchedule(ks) && rnd <= 10 && c < 4
    ensures ColumnOf(AddRoundKey(s, ks, rnd), c) == Plus(ColumnOf(s, c), ks[4 * rnd + c])
    ensures Plus(ColumnOf(s, c), ColumnOf(AddRoundKey(s, ks, rnd), c)) == ks[4 * rnd + c]
  {
    hide Xor;
    forall r | 0 <= r < 4 ensures Xor(s[r][c], Xor(s[r][c], ks[4 * rnd + c][r])) == ks[4 * rnd + c][r] {
      XorComm(s[r][c], ks[4 * rnd + c][r]);
      XorCancel(ks[4 * rnd + c][r], s[r][c]);
      XorComm(Xor(s[r][c], ks[4 * rnd + c][r]), s[r][c]);
    }
  }

  // What column c is mixed from: the substituted bytes on the diagonal that starts at its top.
  function Diagonal(s: State, c: nat): (col: Column)
    requires IsState(s) && c < 4
    ensures |col| == 4
  {
    [Sub(s[0][c]), Sub(s[1][(c + 1) % 4]), Sub(s[2][(c + 2) % 4]), Sub(s[3][(c + 3) % 4])]
  }

  lemma ShiftedColumn(s: State, c: nat)
    requires IsState(s) && c < 4
    ensures ColumnOf(ShiftRows(SubBytes(s)), c) == Diagonal(s, c)
  {
    hide Sub;
  }

  // A round, column by column: a diagonal, mixed except in the last round, plus the word of the column.
  lemma RoundByColumns(s: State, ks: seq<Word>, rnd: nat, c: nat)
    requires IsState(s) && IsSchedule(ks) && rnd <= 10 && c < 4
    ensures ColumnOf(AddRoundKey(Mix(ShiftRows(SubBytes(s))), ks, rnd), c)
         == Plus(MixSingleColumn(Diagonal(s, c)), ks[4 * rnd + c])
    ensures ColumnOf(AddRoundKey(ShiftRows(SubBytes(s)), ks, rnd), c) == Plus(Diagonal(s, c), ks[4 * rnd + c])
  {
    hide AddRoundKey, ShiftRows, SubBytes, Diagonal, Plus, MixSingleColumn;
    ShiftedColumn(s, c);
    var t := ShiftRows(SubBytes(s));
    assert ColumnOf(Mix(t), c) == MixSingleColumn(ColumnOf(t, c));
    AddRoundKeyAddsWords(Mix(t), ks, rnd, c);
    AddRoundKeyAddsWords(t, ks, rnd, c);
  }

  // ----- encryption and decryption -----

  // The state after round r of encryption, 0 <= r <= 9.
  function RoundState(pt: seq<bv8>, ks: seq<Word>, r: nat): (s: State)
    requires |pt| >= 16 && IsSchedule(ks) && r <= 9
    ensures IsState(s)
  {
    if r == 0 then AddRoundKey(BytesToState(pt), ks, 0)
    else AddRoundKey(Mix(ShiftRows(SubBytes(RoundState(pt, ks, r - 1)))), ks, r)
  }

  // None is the IndexError of a block shorter than 16 bytes; further bytes are ignored.
  function Encrypt(pt: seq<bv8>, ks: seq<Word>): (r: Option<seq<bv8>>)
    requires IsSchedule(ks)
    ensures r.Some? <==> |pt| >= 16
    ensures r.Some? ==> |r.value| == 16
  {
    if |pt| < 16 then None
    else Some(StateToBytes(AddRoundKey(ShiftRows(SubBytes(RoundState(pt, ks, 9))), ks, 10)))
  }

  // The state of decryption after it has undone rounds 10 down to r + 1.
  function UndoneState(ct: seq<bv8>, ks: seq<Word>, r: nat): (s: State)
    requires |ct| >= 16 && IsSchedule(ks) && r <= 9
    ensures IsState(s)
    decreases 9 - r
  {
    if r == 9 then AddRoundKey(BytesToState(ct), ks, 10)
    else InvMix(AddRoundKey(InvSubBytes(InvShiftRows(UndoneState(ct, ks, r + 1))), ks, r + 1))
  }

  function Decrypt(ct: seq<bv8>, ks: seq<Word>): (r: Option<seq<bv8>>)
    requires IsSchedule(ks)
    ensures r.Some? <==> |ct| >= 16
    ensures r.Some? ==> |r.value| == 16
  {
    if |ct| < 16 then None
    else Some(StateToBytes(AddRoundKey(InvSubBytes(InvShiftRows(UndoneState(ct, ks, 0))), ks, 0)))
  }

  method AesEncrypt(pt: seq<bv8>, ks: seq<Word>) returns (r: Option<seq<bv8>>)
    requires IsSchedule(ks)
    ensures r == Encrypt(pt, ks)
  {
    if |pt| < 16 {
      return None;
    }
    var st := AddRoundKey(BytesToState(pt), ks, 0);
    for r := 1 to 10
      invariant IsState(st) && st == RoundState(pt, ks, r - 1)
    {
      st := SubBytes(st);
      st := ShiftRows(st);
      st := Mix(st);
      st := AddRoundKey(st, ks, r);
    }
    st := SubBytes(st);
    st := ShiftRows(st);
    st := AddRoundKey(st, ks, 10);
    return Some(StateToBytes(st));
  }

  method AesDecrypt(ct: seq<bv8>, ks: seq<Word>) returns (r: Option<seq<bv8>>)
    requires IsSchedule(ks)
    ensures r == Decrypt(ct, ks)
  {
    if |ct| < 16 {
      return None;
    }
    var st := AddRoundKey(BytesToState(ct), ks, 10);
    var r0 := 9;
    while r0 > 0
      invariant 0 <= r0 <= 9 && IsState(st) && st == UndoneState(ct, ks, r0)
    {
      st := InvShiftRows(st);
      st := InvSubBytes(st);
      st := AddRoundKey(st, ks, r0);
      st := InvMix(st);
      r0 := r0 - 1;
    }
    st := InvShiftRows(st);
    st := InvSubBytes(st);
    st := AddRoundKey(st, ks, 0);
    return Some(StateToBytes(st));
  }

  // ----- every step of a round is undone by its inverse -----

  lemma SameState(s: State, t: State)
    requires IsState(s) && IsState(t)
    requires forall r, c :: 0 <= r < 4 && 0 <= c < 4 ==> s[r][c] == t[r][c]
    ensures s == t
  {
    forall r | 0 <= r < 4 ensures s[r] == t[r] {
    }
  }

  lemma SubBytesInverse(s: State)
    requires IsState(s)
    ensures InvSubBytes(SubBytes(s)) == s && SubBytes(InvSubBytes(s)) == s
  {
    hide Sub, InvSub;
    forall r, c | 0 <= r < 4 && 0 <= c < 4
      ensures InvSubBytes(SubBytes(s))[r][c] == s[r][c] && SubBytes(InvSubBytes(s))[r][c] == s[r][c]
    {
      SubInverse(s[r][c]);
    }
    SameState(InvSubBytes(SubBytes(s)), s);
    SameState(SubBytes(InvSubBytes(s)), s);
  }

  lemma ShiftRowsInverse(s: State)
    requires IsState(s)
    ensures InvShiftRows(ShiftRows(s)) == s && ShiftRows(InvShiftRows(s)) == s
  {
    SameState(InvShiftRows(ShiftRows(s)), s);
    SameState(ShiftRows(InvShiftRows(s)), s);
  }

  lemma MixInverse(s: State)
    requires IsState(s)
    ensures InvMix(Mix(s)) == s && Mix(InvMix(s)) == s
  {
    hide MixSingleColumn, InvMixSingleColumn;
    forall r, c | 0 <= r < 4 && 0 <= c < 4
      ensures InvMix(Mix(s))[r][c] == s[r][c] && Mix(InvMix(s))[r][c] == s[r][c]
    {
      MixingIsInvertible(ColumnOf(s, c));
      assert ColumnOf(Mix(s), c) == MixSingleColumn(ColumnOf(s, c));
      assert ColumnOf(InvMix(s), c) == InvMixSingleColumn(ColumnOf(s, c));
    }
    SameState(InvMix(Mix(s)), s);
    SameState(Mix(InvMix(s)), s);
  }

  lemma AddRoundKeyInverse(s: State, ks: seq<Word>, rnd: nat)
    requires IsState(s) && IsSchedule(ks) && rnd <= 10
    ensures AddRoundKey(AddRoundKey(s, ks, rnd), ks, rnd) == s
  {
    hide Xor;
    var t := AddRoundKey(AddRoundKey(s, ks, rnd), ks, rnd);
    forall r, c | 0 <= r < 4 && 0 <= c < 4 ensures t[r][c] == s[r][c] {
      XorCancel(s[r][c], ks[4 * rnd + c][r]);
    }
    SameState(t, s);
  }

  lemma StateBytesInverse(s: State, b: seq<bv8>)
    requires IsState(s) && |b| >= 16
    ensures BytesToState(StateToBytes(s)) == s
    ensures StateToBytes(BytesToState(b)) == b[..16]
  {
    forall r, c | 0 <= r < 4 && 0 <= c < 4 ensures BytesToState(StateToBytes(s))[r][c] == s[r][c] {
      assert (4 * c + r) % 4 == r && (4 * c + r) / 4 == c;
    }
    SameState(BytesToState(StateToBytes(s)), s);
    forall i | 0 <= i < 16 ensures StateToBytes(BytesToState(b))[i] == b[i] {
      assert 4 * (i / 4) + i % 4 == i;
    }
  }

  // ----- decryption inverts encryption, and the other way round -----

  lemma {:induction false} UndoesRounds(pt: seq<bv8>, ks: seq<Word>, r: nat)
    requires |pt| >= 16 && IsSchedule(ks) && r <= 9
    ensures UndoneState(Encrypt(pt, ks).value, ks, r) == ShiftRows(SubBytes(RoundState(pt, ks, r)))
    decreases 9 - r
  {
    hide SubBytes, InvSubBytes, ShiftRows, InvShiftRows, Mix, InvMix, AddRoundKey, BytesToState, StateToBytes;
    if r == 9 {
      var s := ShiftRows(SubBytes(RoundState(pt, ks, 9)));
      StateBytesInverse(AddRoundKey(s, ks, 10), pt);
      AddRoundKeyInverse(s, ks, 10);
    } else {
      UndoesRounds(pt, ks, r + 1);
      var s := RoundState(pt, ks, r + 1);
      ShiftRowsInverse(SubBytes(s));
      SubBytesInverse(s);
      var m := ShiftRows(SubBytes(RoundState(pt, ks, r)));
      AddRoundKeyInverse(Mix(m), ks, r + 1);
      MixInverse(m);
    }
  }

  // For every block and every schedule, decrypting the encryption gives the block back.
  lemma DecryptUndoesEncrypt(pt: seq<bv8>, ks: seq<Word>)
    requires |pt| >= 16 && IsSchedule(ks)
    ensures Decrypt(Encrypt(pt, ks).value, ks) == Some(pt[..16])
  {
    hide SubBytes, InvSubBytes, ShiftRows, InvShiftRows, Mix, InvMix, AddRoundKey, BytesToState, StateToBytes;
    UndoesRounds(pt, ks, 0);
    var s := RoundState(pt, ks, 0);
    ShiftRowsInverse(SubBytes(s));
    SubBytesInverse(s);
    AddRoundKeyInverse(BytesToState(pt), ks, 0);
    StateBytesInverse(s, pt);
  }

  lemma {:induction false} RedoesRounds(ct: seq<bv8>, ks: seq<Word>, r: nat)
    requires |ct| >= 16 && IsSchedule(ks) && r <= 9
    ensures RoundState(Decrypt(ct, ks).value, ks, r) == InvSubBytes(InvShiftRows(UndoneState(ct, ks, r)))
    decreases r
  {
    hide SubBytes, InvSubBytes, ShiftRows, InvShiftRows, Mix, InvMix, AddRoundKey, BytesToState, StateToBytes;
    if r == 0 {
      var s := InvSubBytes(InvShiftRows(UndoneState(ct, ks, 0)));
      StateBytesInverse(AddRoundKey(s, ks, 0), ct);
      AddRoundKeyInverse(s, ks, 0);
    } else {
      RedoesRounds(ct, ks, r - 1);
      var u := UndoneState(ct, ks, r - 1);
      SubBytesInverse(InvShiftRows(u));
      ShiftRowsInverse(u);
      var s := InvSubBytes(InvShiftRows(UndoneState(ct, ks, r)));
      MixInverse(AddRoundKey(s, ks, r));
      AddRoundKeyInverse(s, ks, r);
    }
  }

  lemma EncryptUndoesDecrypt(ct: seq<bv8>, ks: seq<Word>)
    requires |ct| >= 16 && IsSchedule(ks)
    ensures Encrypt(Decrypt(ct, ks).value, ks) == Some(ct[..16])
  {
    hide SubBytes, InvSubBytes, ShiftRows, InvShiftRows, Mix, InvMix, AddRoundKey, BytesToState, StateToBytes;
    RedoesRounds(ct, ks, 9);
    var u := UndoneState(ct, ks, 9);
    SubBytesInverse(InvShiftRows(u));
    ShiftRowsInverse(u);
    AddRoundKeyInverse(BytesToState(ct), ks, 10);
    StateBytesInverse(u, ct);
  }

  // ----- key expansion -----

  const RCON: seq<bv8> := [0x01, 0x02, 0x04, 0x08, 0x10, 0x20, 0x40, 0x80, 0x1B, 0x36]

  // The round constants are the powers of x.
  lemma RconIsThePowersOfX(k: nat)
    requires k < 10
    ensures RCON[k] == Raised(1, k)
  {
    PowersOfX();
    assert Raised(1, 0) == 1;
    assert Raised(1, 8) == Xtime(Raised(1, 7)) == 0x1B;
    assert Raised(1, 9) == Xtime(Raised(1, 8)) == 0x36;
  }

  // What word i adds to word i - 4: the previous word, rotated, substituted and marked with the
  // round constant when a round begins.
  function Increment(previous: Word, i: nat): (r: Word)
    requires |previous| == 4 && 4 <= i < 44
    ensures |r| == 4
  {
    if i % 4 != 0 then previous
    else [Xor(Sub(previous[1]), RCON[i / 4 - 1]), Sub(previous[2]), Sub(previous[3]), Sub(previous[0])]
  }

  function KeyWord(key: seq<bv8>, i: nat): (w: Word)
    requires |key| >= 16 && i < 44
    ensures |w| == 4
  {
    if i < 4 then key[4 * i..4 * i + 4]
    else Plus(KeyWord(key, i - 4), Increment(KeyWord(key, i - 1), i))
  }

  // RotWord, SubWord and Rcon, at the start of each round.
  method NextTemp(previous: Word, i: nat) returns (temp: Word)
    requires |previous| == 4 && 4 <= i < 44
    ensures temp == Increment(previous, i)
  {
    hide Sub, Xor;
    temp := previous;
    if i % 4 == 0 {
      temp := temp[1..] + temp[..1];
      temp := [Sub(temp[0]), Sub(temp[1]), Sub(temp[2]), Sub(temp[3])];
      temp := temp[0 := Xor(temp[0], RCON[i / 4 - 1])];
    }
  }

  method KeyExpansion(key: seq<bv8>) returns (ks: seq<Word>)
    requires |key| >= 16
    ensures IsSchedule(ks)
    ensures forall i :: 0 <= i < 44 ==> ks[i] == KeyWord(key, i)
  {
    hide Sub, Xor, Plus, Increment;
    ks := [key[0..4], key[4..8], key[8..12], key[12..16]];
    var i := 4;
    while |ks| < 44
      invariant 4 <= i == |ks| <= 44
      invariant forall k :: 0 <= k < i ==> ks[k] == KeyWord(key, k)
    {
      var temp := NextTemp(ks[|ks| - 1], i);
      var word := Plus(ks[|ks| - 4], temp);
      ks := ks + [word];
      i := i + 1;
    }
  }

  lemma XorWordsCancel(u: Word, v: Word, w: Word)
    requires |u| == 4 && |v| == 4 && |w| == 4 && Plus(u, w) == Plus(v, w)
    ensures u == v
  {
    hide Xor;
    forall k | 0 <= k < 4 ensures u[k] == v[k] {
      XorCancel(u[k], w[k]);
      XorCancel(v[k], w[k]);
      assert Plus(u, w)[k] == Plus(v, w)[k];
    }
  }

  // The expansion can be run backwards: two keys whose schedules share any four consecutive words
  // have the same schedule up to there, hence the same first sixteen bytes.
  lemma {:induction false} ScheduleDeterminesKey(key: seq<bv8>, other: seq<bv8>, i: nat)
    requires |key| >= 16 && |other| >= 16 && i + 4 <= 44
    requires forall k :: i <= k < i + 4 ==> KeyWord(key, k) == KeyWord(other, k)
    ensures forall k :: 0 <= k < i ==> KeyWord(key, k) == KeyWord(other, k)
    ensures key[..16] == other[..16]
    decreases i
  {
    hide Sub, Xor, Plus, Increment;
    if i == 0 {
      forall k | 0 <= k < 16 ensures key[k] == other[k] {
        assert key[k] == KeyWord(key, k / 4)[k % 4] && other[k] == KeyWord(other, k / 4)[k % 4];
      }
    } else {
      assert KeyWord(key, i + 3) == Plus(KeyWord(key, i - 1), Increment(KeyWord(key, i + 2), i + 3));
      assert KeyWord(other, i + 3) == Plus(KeyWord(other, i - 1), Increment(KeyWord(other, i + 2), i + 3));
      XorWordsCancel(KeyWord(key, i - 1), KeyWord(other, i - 1), Increment(KeyWord(key, i + 2), i + 3));
      ScheduleDeterminesKey(key, other, i - 1);
    }
  }
}
