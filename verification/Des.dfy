// DEStandard.py: DES key schedule, rounds, encryption and decryption (FIPS 46-3) on hexadecimal text.
module Des {
  import opened Wrappers
  import opened Powers
  import opened Numerals
  import opened DesTables

  type Bits = seq<nat>  // '0' and '1' as 0 and 1

  ghost predicate IsBits(b: Bits) {
    Digits(b, 2)
  }

  function Permute(bits: Bits, table: seq<nat>): (r: Bits)
    requires forall i :: 0 <= i < |table| ==> 1 <= table[i] <= |bits|
    ensures |r| == |table|
  {
    seq(|table|, i requires 0 <= i < |table| => bits[table[i] - 1])
  }

  function ShiftLeft(bits: Bits, n: nat): (r: Bits)
    requires n <= |bits|
    ensures |r| == |bits|
  {
    bits[n..] + bits[..n]
  }

  // The result is as long as the shorter operand.
  function Xor(a: Bits, b: Bits): (r: Bits)
    ensures |r| == if |a| <= |b| then |a| else |b|
  {
    seq(if |a| <= |b| then |a| else |b|, i requires 0 <= i < |a| && i < |b| => if a[i] == b[i] then 0 else 1)
  }

  // The two halves of the key after i rounds of shifting.
  function KeyHalves(key: Bits, i: nat): (h: (Bits, Bits))
    requires |key| >= 64 && i <= 16
    ensures |h.0| == 28 && |h.1| == 28
  {
    TableSizes();
    if i == 0 then (Permute(key, PC_1)[..28], Permute(key, PC_1)[28..])
    else
      var (c, d) := KeyHalves(key, i - 1);
      ShiftBounds(i - 1);
      (ShiftLeft(c, SHIFT_TABLE[i - 1]), ShiftLeft(d, SHIFT_TABLE[i - 1]))
  }

  lemma ShiftBounds(i: nat)
    requires i < 16
    ensures |SHIFT_TABLE| == 16 && SHIFT_TABLE[i] <= 2
  {
  }

  function RoundKey(key: Bits, i: nat): (k: Bits)
    requires |key| >= 64 && i < 16
    ensures |k| == 48
  {
    TableSizes();
    var (c, d) := KeyHalves(key, i + 1);
    Permute(c + d, PC_2)
  }

  method GenerateRoundKeys(key: Bits) returns (keys: seq<Bits>)
    requires |key| >= 64
    ensures |keys| == 16 && forall i :: 0 <= i < 16 ==> keys[i] == RoundKey(key, i)
  {
    TableSizes();
    var key56 := Permute(key, PC_1);
    var c, d := key56[..28], key56[28..];
    keys := [];
    for i := 0 to 16
      invariant |keys| == i && (c, d) == KeyHalves(key, i)
      invariant forall j :: 0 <= j < i ==> keys[j] == RoundKey(key, j)
    {
      ShiftBounds(i);
      var shift := SHIFT_TABLE[i];
      c := ShiftLeft(c, shift);
      d := ShiftLeft(d, shift);
      keys := keys + [Permute(c + d, PC_2)];
    }
  }

  // The entry that block i of the input selects.
  function SBox(block: Bits, i: nat): (v: nat)
    requires |block| == 6 && IsBits(block) && i < 8
    ensures v < 16
  {
    SBoxShapes();
    ValueBelow(block[1..5], 2);
    assert Pow(2, 4) == 16;
    S_BOXES[i][block[0] * 2 + block[5]][Value(block[1..5], 2)]
  }

  lemma ValueOfLast(b: Bits)
    requires b != []
    ensures Value(b, 2) == 2 * Value(b[..|b| - 1], 2) + b[|b| - 1]
  {
  }

  lemma ValueOfFour(b: Bits)
    requires |b| == 4
    ensures Value(b, 2) == 8 * b[0] + 4 * b[1] + 2 * b[2] + b[3]
  {
    assert b[..3][..2] == b[..2] && b[..2][..1] == b[..1] && b[..1][..0] == [];
    ValueOfLast(b);
    ValueOfLast(b[..3]);
    ValueOfLast(b[..2]);
    ValueOfLast(b[..1]);
  }

  // As FIPS 46-3 words it: the first and the last bit of the block give the row, the four between them
  // the column. Here the block is read as one number.
  lemma SelectsByNumber(block: Bits, i: nat)
    requires |block| == 6 && IsBits(block) && i < 8
    ensures var x := Value(block, 2);
            && x < 64 && |S_BOXES| == 8 && |S_BOXES[i]| == 4 && |S_BOXES[i][2 * (x / 32) + x % 2]| == 16
            && SBox(block, i) == S_BOXES[i][2 * (x / 32) + x % 2][x % 32 / 2]
  {
    SBoxShapes();
    assert block[..5][..4] == block[..4];
    ValueOfLast(block);
    ValueOfLast(block[..5]);
    ValueOfFour(block[..4]);
    ValueOfFour(block[1..5]);
    hide Value, S_BOXES;
    RowAndColumn(Value(block, 2), block[0], Value(block[1..5], 2), block[5]);
  }

  lemma RowAndColumn(x: nat, first: nat, middle: nat, last: nat)
    requires first < 2 && middle < 16 && last < 2 && x == 32 * first + 2 * middle + last
    ensures x < 64 && x / 32 == first && x % 2 == last && x % 32 / 2 == middle
  {
  }

  function SBoxSubstitution(x: Bits, i: nat): (r: Bits)
    requires |x| == 48 && IsBits(x) && i <= 8
    ensures |r| == 4 * i && IsBits(r)
  {
    if i == 0 then []
    else
      var v := SBox(x[6 * (i - 1)..6 * i], i - 1);
      assert Pow(2, 4) == 16;
      PaddedIsFixed(v, 2, 4);
      ValueOfFixed(v, 2, 4);
      SBoxSubstitution(x, i - 1) + Zfill(Shortest(v, 2), 4)
  }

  function FeistelFunction(r: Bits, k: Bits): (f: Bits)
    requires |r| == 32 && |k| == 48
    ensures |f| == 32 && IsBits(f)
  {
    TableSizes();
    Permute(SBoxSubstitution(Xor(Permute(r, E), k), 8), P)
  }

  ghost predicate IsKeys(keys: seq<Bits>) {
    |keys| == 16 && forall i :: 0 <= i < 16 ==> |keys[i]| == 48
  }

  // Applied to a half of `width` bits, f gives as many bits, whatever the key.
  ghost predicate IsRoundFunction<K(!new)>(f: (Bits, K) -> Bits, width: nat) {
    forall x: Bits, k: K {:trigger f(x, k)} :: |x| == width ==> |f(x, k)| == width && IsBits(f(x, k))
  }

  // The two halves after i rounds of a Feistel network with round function f.
  function Network<K(!new)>(f: (Bits, K) -> Bits, l: Bits, r: Bits, keys: seq<K>, i: nat): (h: (Bits, Bits))
    requires |l| == |r| && i <= |keys| && IsRoundFunction(f, |r|)
    ensures |h.0| == |h.1| == |r|
    ensures IsBits(l) && IsBits(r) ==> IsBits(h.0) && IsBits(h.1)
  {
    if i == 0 then (l, r)
    else
      var (a, b) := Network(f, l, r, keys, i - 1);
      (b, Xor(a, f(b, keys[i - 1])))
  }

  // The round function of DES, zero outside the lengths the rounds use.
  function DesRound(r: Bits, k: Bits): (f: Bits)
    ensures |f| == |r| && IsBits(f)
  {
    if |r| == 32 && |k| == 48 then FeistelFunction(r, k) else seq(|r|, _ => 0)
  }

  // The two halves of the block after i rounds.
  function Rounds(l: Bits, r: Bits, keys: seq<Bits>, i: nat): (h: (Bits, Bits))
    requires |l| == 32 && |r| == 32 && |keys| == 16 && i <= 16
    requires forall j :: 0 <= j < 16 ==> |keys[j]| == 48
    ensures |h.0| == 32 && |h.1| == 32
    ensures IsBits(l) && IsBits(r) ==> IsBits(h.0) && IsBits(h.1)
  {
    Network(DesRound, l, r, keys, i)
  }

  // Initial permutation, sixteen rounds, exchange of the halves, final permutation.
  function Crypt(block: Bits, keys: seq<Bits>): (r: Bits)
    requires |block| >= 64 && |keys| == 16
    requires forall j :: 0 <= j < 16 ==> |keys[j]| == 48
    ensures |r| == 64
  {
    TableSizes();
    var ip := Permute(block, IP);
    var (l, r) := Rounds(ip[..32], ip[32..], keys, 16);
    Permute(r + l, FP)
  }

  function KeySequence(key: Bits): (keys: seq<Bits>)
    requires |key| >= 64
    ensures |keys| == 16 && forall j :: 0 <= j < 16 ==> |keys[j]| == 48
  {
    seq(16, i requires 0 <= i < 16 => RoundKey(key, i))
  }

  function Reversed<K>(keys: seq<K>): (r: seq<K>)
    ensures |r| == |keys| && forall i :: 0 <= i < |keys| ==> r[i] == keys[|keys| - 1 - i]
  {
    seq(|keys|, i requires 0 <= i < |keys| => keys[|keys| - 1 - i])
  }

  // ----- hexadecimal text -----

  function HexDigit(c: char): Option<nat> {
    if '0' <= c <= '9' then Some(c as nat - '0' as nat)
    else if 'a' <= c <= 'f' then Some(10 + c as nat - 'a' as nat)
    else if 'A' <= c <= 'F' then Some(10 + c as nat - 'A' as nat)
    else None
  }

  predicate IsHex(s: string) {
    s != [] && forall i :: 0 <= i < |s| ==> HexDigit(s[i]).Some?
  }

  function HexDigits(s: string): (ds: seq<nat>)
    requires IsHex(s)
    ensures |ds| == |s| && forall i :: 0 <= i < |ds| ==> ds[i] < 16
  {
    seq(|s|, i requires 0 <= i < |s| => HexDigit(s[i]).value)
  }

  function UpperDigit(d: nat): char
    requires d < 16
  {
    if d < 10 then '0' + d as char else 'A' + (d - 10) as char
  }

  // hex_to_bin
  function HexToBin(s: string): Bits
    requires IsHex(s)
  {
    Zfill(Shortest(Value(HexDigits(s), 16), 2), 4 * |s|)
  }

  // bin_to_hex
  function BinToHex(b: Bits): string
    requires IsBits(b)
  {
    UpperText(Zfill(Shortest(Value(b, 2), 16), |b| / 4))
  }

  // Upper-case digits; other numbers cannot occur and are shown as '?'.
  function UpperText(ds: seq<nat>): (s: string)
    ensures |s| == |ds|
  {
    seq(|ds|, i requires 0 <= i < |ds| => if ds[i] < 16 then UpperDigit(ds[i]) else '?')
  }

  lemma {:induction false} SixteenIsFourBits(k: nat)
    ensures Pow(16, k) == Pow(2, 4 * k)
    decreases k
  {
    if k > 0 {
      SixteenIsFourBits(k - 1);
      PowAdd(2, 4, 4 * (k - 1));
      assert Pow(2, 4) == 16;
    }
  }

  // The bits of hexadecimal text are the numeral of its value, four bits a digit.
  lemma HexToBinIsFixed(s: string)
    requires IsHex(s)
    ensures Value(HexDigits(s), 16) < Pow(16, |s|) == Pow(2, 4 * |s|)
    ensures HexToBin(s) == Fixed(Value(HexDigits(s), 16), 2, 4 * |s|)
    ensures |HexToBin(s)| == 4 * |s| && IsBits(HexToBin(s))
  {
    var v := Value(HexDigits(s), 16);
    ValueBelow(HexDigits(s), 16);
    SixteenIsFourBits(|s|);
    PaddedIsFixed(v, 2, 4 * |s|);
    ValueOfFixed(v, 2, 4 * |s|);
  }

  lemma UpperDigitsRead(ds: seq<nat>)
    requires ds != [] && forall i :: 0 <= i < |ds| ==> ds[i] < 16
    ensures IsHex(UpperText(ds)) && HexDigits(UpperText(ds)) == ds
  {
    var s := UpperText(ds);
    forall i | 0 <= i < |ds| ensures HexDigit(s[i]) == Some(ds[i]) {
      assert s[i] == UpperDigit(ds[i]);
    }
  }

  // Text of 4k bits has k digits, all hexadecimal, and reading them back gives the bits.
  lemma BinToHexToBin(b: Bits, k: nat)
    requires IsBits(b) && |b| == 4 * k && k > 0
    ensures |BinToHex(b)| == k && IsHex(BinToHex(b)) && HexToBin(BinToHex(b)) == b
  {
    hide Fixed, Shortest, Zfill, Value, Pow, UpperText, HexToBin, HexDigits, IsHex;
    var v := Value(b, 2);
    ValueBelow(b, 2);
    SixteenIsFourBits(k);
    PaddedIsFixed(v, 16, k);
    ValueOfFixed(v, 16, k);
    UpperDigitsRead(Fixed(v, 16, k));
    HexToBinIsFixed(BinToHex(b));
    FixedOfValue(b, 2);
  }

  // The letters a to f replaced by A to F.
  function InUpperCase(s: string): (u: string)
    ensures |u| == |s|
  {
    seq(|s|, i requires 0 <= i < |s| => if 'a' <= s[i] <= 'f' then (s[i] as int - 32) as char else s[i])
  }

  lemma UpperTextOfDigits(s: string)
    requires IsHex(s)
    ensures UpperText(HexDigits(s)) == InUpperCase(s)
  {
    forall i | 0 <= i < |s| ensures UpperText(HexDigits(s))[i] == InUpperCase(s)[i] {
      assert HexDigit(s[i]).Some?;
    }
  }

  // Reading hexadecimal text and writing it again puts it in upper case.
  lemma HexToBinToHex(s: string)
    requires IsHex(s)
    ensures IsBits(HexToBin(s)) && BinToHex(HexToBin(s)) == UpperText(HexDigits(s)) == InUpperCase(s)
  {
    hide InUpperCase, Fixed, Shortest, Zfill, Value, Pow, UpperText, HexToBin, HexDigits, HexDigit;
    UpperTextOfDigits(s);
    HexToBinIsFixed(s);
    var v := Value(HexDigits(s), 16);
    ValueOfFixed(v, 2, 4 * |s|);
    PaddedIsFixed(v, 16, |s|);
    FixedOfValue(HexDigits(s), 16);
  }

  // ----- the text interface -----

  // ValueError for text that is not hexadecimal, IndexError for a block or key under 64 bits; digits
  // beyond the sixteenth are ignored.
  datatype Outcome = Text(hex: string) | ValueError | IndexError

  function DesText(text: string, key: string, decrypting: bool): Outcome {
    if !IsHex(text) || !IsHex(key) then ValueError
    else if |text| < 16 || |key| < 16 then IndexError
    else
      HexToBinIsFixed(text);
      HexToBinIsFixed(key);
      var keys := KeySequence(HexToBin(key));
      CryptGivesBits(HexToBin(text), if decrypting then Reversed(keys) else keys);
      Text(BinToHex(Crypt(HexToBin(text), if decrypting then Reversed(keys) else keys)))
  }

  lemma CryptGivesBits(block: Bits, keys: seq<Bits>)
    requires |block| >= 64 && IsBits(block) && IsKeys(keys)
    ensures IsBits(Crypt(block, keys))
  {
    TableSizes();
    var ip := Permute(block, IP);
    assert IsBits(ip[..32]) && IsBits(ip[32..]);
    var (l, r) := Rounds(ip[..32], ip[32..], keys, 16);
    assert IsBits(r + l);
  }

  method DesEncrypt(plaintext: string, key: string) returns (r: Outcome)
    ensures r == DesText(plaintext, key, false)
  {
    if !IsHex(plaintext) || !IsHex(key) {
      return ValueError;
    }
    HexToBinIsFixed(plaintext);
    HexToBinIsFixed(key);
    var block, keyBits := HexToBin(plaintext), HexToBin(key);
    if |block| < 64 || |keyBits| < 64 {
      return IndexError;
    }
    TableSizes();
    var ip := Permute(block, IP);
    var l, right := ip[..32], ip[32..];
    var keys := GenerateRoundKeys(keyBits);
    assert keys == KeySequence(keyBits);
    for i := 0 to 16
      invariant |l| == 32 && |right| == 32 && (l, right) == Rounds(ip[..32], ip[32..], keys, i)
    {
      var temp := right;
      var f := FeistelFunction(right, keys[i]);
      right := Xor(l, f);
      l := temp;
    }
    CryptGivesBits(block, keys);
    return Text(BinToHex(Permute(right + l, FP)));
  }

  method DesDecrypt(ciphertext: string, key: string) returns (r: Outcome)
    ensures r == DesText(ciphertext, key, true)
  {
    if !IsHex(ciphertext) || !IsHex(key) {
      return ValueError;
    }
    HexToBinIsFixed(ciphertext);
    HexToBinIsFixed(key);
    var block, keyBits := HexToBin(ciphertext), HexToBin(key);
    if |block| < 64 || |keyBits| < 64 {
      return IndexError;
    }
    TableSizes();
    var ip := Permute(block, IP);
    var l, right := ip[..32], ip[32..];
    var forward := GenerateRoundKeys(keyBits);
    assert forward == KeySequence(keyBits);
    var keys := Reversed(forward);
    for i := 0 to 16
      invariant |l| == 32 && |right| == 32 && (l, right) == Rounds(ip[..32], ip[32..], keys, i)
    {
      var temp := right;
      var f := FeistelFunction(right, keys[i]);
      right := Xor(l, f);
      l := temp;
    }
    CryptGivesBits(block, keys);
    return Text(BinToHex(Permute(right + l, FP)));
  }

  // ----- decryption inverts encryption -----

  lemma XorTwice(a: Bits, f: Bits)
    requires IsBits(a) && IsBits(f) && |a| == |f|
    ensures Xor(Xor(a, f), f) == a
  {
  }

  // Running the rounds backwards from the exchanged halves retraces them: for any number of rounds, any
  // width of the halves and any round function.
  lemma {:induction false} RoundsRetrace<K(!new)>(f: (Bits, K) -> Bits, l: Bits, r: Bits, keys: seq<K>, i: nat)
    requires |l| == |r| && IsBits(l) && IsBits(r) && IsRoundFunction(f, |r|) && i <= |keys|
    ensures var (ln, rn) := Network(f, l, r, keys, |keys|);
            var (a, b) := Network(f, l, r, keys, |keys| - i);
            Network(f, rn, ln, Reversed(keys), i) == (b, a)
    decreases i
  {
    hide Xor, IsBits;
    if i > 0 {
      var n := |keys| - i;
      RoundsRetrace(f, l, r, keys, i - 1);
      var (a, b) := Network(f, l, r, keys, n);
      RoundGivesBits(f, b, keys[n]);
      XorTwice(a, f(b, keys[n]));
    }
  }

  lemma RoundGivesBits<K(!new)>(f: (Bits, K) -> Bits, x: Bits, k: K)
    requires IsRoundFunction(f, |x|)
    ensures |f(x, k)| == |x| && IsBits(f(x, k))
  {
  }

  lemma FeistelGivesBits(r: Bits, k: Bits)
    requires |r| == 32 && |k| == 48
    ensures |FeistelFunction(r, k)| == 32 && IsBits(FeistelFunction(r, k))
  {
  }

  // The initial and the final permutation undo each other, in both orders.
  lemma PermutationsCancel(b: Bits)
    requires |b| >= 64
    ensures |IP| == 64 && |FP| == 64
    ensures Permute(Permute(b, IP), FP) == b[..64]
    ensures Permute(Permute(b, FP), IP) == b[..64]
  {
    TableSizes();
    hide IP, FP;
    forall i | 0 <= i < 64
      ensures Permute(Permute(b, IP), FP)[i] == b[i] && Permute(Permute(b, FP), IP)[i] == b[i]
    {
      InversePositions(i);
    }
  }

  // For any sixteen round keys, running them in reverse order restores the first 64 bits.
  lemma CryptInverts(block: Bits, keys: seq<Bits>)
    requires |block| >= 64 && IsBits(block) && IsKeys(keys)
    ensures Crypt(Crypt(block, keys), Reversed(keys)) == block[..64]
  {
    TableSizes();
    hide IP, FP, FeistelFunction, Xor;
    var ip := Permute(block, IP);
    var l, r := ip[..32], ip[32..];
    assert IsBits(l) && IsBits(r);
    var (l16, r16) := Rounds(l, r, keys, 16);
    PermutationsCancel(r16 + l16);
    assert (r16 + l16)[..64] == r16 + l16;
    RoundsRetrace(DesRound, l, r, keys, 16);
    assert (r16 + l16)[..32] == r16 && (r16 + l16)[32..] == l16;
    assert l + r == ip;
    PermutationsCancel(block);
  }

  // Decrypting with the same key gives the first sixteen digits of the plaintext, in upper case.
  lemma DecryptUndoesEncrypt(text: string, key: string)
    requires IsHex(text) && IsHex(key) && |text| >= 16 && |key| >= 16
    ensures DesText(text, key, false).Text?
    ensures DesText(DesText(text, key, false).hex, key, true) == Text(InUpperCase(text[..16]))
  {
    hide Crypt, KeySequence;
    HexToBinIsFixed(text);
    HexToBinIsFixed(key);
    var block, keys := HexToBin(text), KeySequence(HexToBin(key));
    CryptGivesBits(block, keys);
    var cipher := Crypt(block, keys);
    BinToHexToBin(cipher, 16);
    CryptInverts(block, keys);
    FirstDigits(text);
    HexToBinToHex(text[..16]);
  }

  // The first 64 bits belong to the first sixteen digits.
  lemma FirstDigits(text: string)
    requires IsHex(text) && |text| >= 16
    ensures IsHex(text[..16]) && |HexToBin(text)| >= 64 && HexToBin(text)[..64] == HexToBin(text[..16])
    decreases |text|
  {
    HexToBinIsFixed(text);
    HexToBinIsFixed(text[..16]);
    PrefixOfFixed(HexDigits(text), 16);
    assert HexDigits(text)[..16] == HexDigits(text[..16]);
  }

  lemma FourBitsOff(v: nat, d: nat, w: nat)
    requires d < 16
    ensures Fixed(v * 16 + d, 2, w + 4)[..w] == Fixed(v, 2, w)
  {
    var x := v * 16 + d;
    assert x / 2 == v * 8 + d / 2 && x / 2 / 2 == v * 4 + d / 4 && x / 2 / 2 / 2 == v * 2 + d / 8;
    assert Fixed(x, 2, w + 4) == Fixed(x / 2, 2, w + 3) + [x % 2];
    assert Fixed(x / 2, 2, w + 3) == Fixed(x / 2 / 2, 2, w + 2) + [x / 2 % 2];
    assert Fixed(x / 2 / 2, 2, w + 2) == Fixed(x / 2 / 2 / 2, 2, w + 1) + [x / 2 / 2 % 2];
    assert Fixed(x / 2 / 2 / 2, 2, w + 1) == Fixed(v, 2, w) + [x / 2 / 2 / 2 % 2];
  }

  // Dropping the last digits of a number drops their bits.
  lemma {:induction false} PrefixOfFixed(ds: seq<nat>, k: nat)
    requires k <= |ds| && Digits(ds, 16)
    ensures Fixed(Value(ds, 16), 2, 4 * |ds|)[..4 * k] == Fixed(Value(ds[..k], 16), 2, 4 * k)
    decreases |ds|
  {
    if k == |ds| {
      assert ds[..k] == ds;
    } else {
      var front := ds[..|ds| - 1];
      PrefixOfFixed(front, k);
      assert front[..k] == ds[..k];
      FourBitsOff(Value(front, 16), ds[|ds| - 1], 4 * |front|);
      assert Fixed(Value(ds, 16), 2, 4 * |ds|)[..4 * |front|][..4 * k] == Fixed(Value(ds, 16), 2, 4 * |ds|)[..4 * k];
    }
  }

  // ----- the complementation property -----

  function Complement(b: Bits): (r: Bits)
    requires forall i :: 0 <= i < |b| ==> b[i] < 2
    ensures |r| == |b| && forall i :: 0 <= i < |r| ==> r[i] == 1 - b[i] < 2
  {
    seq(|b|, i requires 0 <= i < |b| => (1 - b[i]) as nat)
  }

  lemma PermuteComplement(b: Bits, table: seq<nat>)
    requires IsBits(b) && forall i :: 0 <= i < |table| ==> 1 <= table[i] <= |b|
    ensures IsBits(Permute(b, table)) && Permute(Complement(b), table) == Complement(Permute(b, table))
  {
  }

  lemma XorComplement(a: Bits, b: Bits)
    requires IsBits(a) && IsBits(b)
    ensures Xor(Complement(a), Complement(b)) == Xor(a, b)
    ensures IsBits(Xor(a, b)) && |a| == |b| ==> Xor(Complement(a), b) == Complement(Xor(a, b))
  {
  }

  // Complementing both inputs leaves the round function unchanged.
  lemma FeistelComplement(r: Bits, k: Bits)
    requires |r| == 32 && |k| == 48 && IsBits(r) && IsBits(k)
    ensures FeistelFunction(Complement(r), Complement(k)) == FeistelFunction(r, k)
  {
    TableSizes();
    hide E, P, SBoxSubstitution;
    PermuteComplement(r, E);
    XorComplement(Permute(r, E), k);
  }

  lemma {:induction false} KeyHalvesComplement(key: Bits, i: nat)
    requires |key| >= 64 && IsBits(key) && i <= 16
    ensures IsBits(KeyHalves(key, i).0) && IsBits(KeyHalves(key, i).1)
    ensures KeyHalves(Complement(key), i) == (Complement(KeyHalves(key, i).0), Complement(KeyHalves(key, i).1))
    decreases i
  {
    TableSizes();
    hide PC_1;
    if i == 0 {
      PermuteComplement(key, PC_1);
      var k := Permute(key, PC_1);
      assert Complement(k)[..28] == Complement(k[..28]) && Complement(k)[28..] == Complement(k[28..]);
    } else {
      KeyHalvesComplement(key, i - 1);
      ShiftBounds(i - 1);
      var (c, d) := KeyHalves(key, i - 1);
      ShiftComplement(c, SHIFT_TABLE[i - 1]);
      ShiftComplement(d, SHIFT_TABLE[i - 1]);
    }
  }

  lemma ShiftComplement(b: Bits, n: nat)
    requires IsBits(b) && n <= |b|
    ensures IsBits(ShiftLeft(b, n)) && ShiftLeft(Complement(b), n) == Complement(ShiftLeft(b, n))
  {
  }

  lemma RoundKeyComplement(key: Bits, i: nat)
    requires |key| >= 64 && IsBits(key) && i < 16
    ensures IsBits(RoundKey(key, i)) && RoundKey(Complement(key), i) == Complement(RoundKey(key, i))
  {
    TableSizes();
    hide PC_2;
    KeyHalvesComplement(key, i + 1);
    var (c, d) := KeyHalves(key, i + 1);
    assert Complement(c) + Complement(d) == Complement(c + d);
    PermuteComplement(c + d, PC_2);
  }

  lemma {:induction false} RoundsComplement(l: Bits, r: Bits, key: Bits, i: nat)
    requires |l| == 32 && |r| == 32 && IsBits(l) && IsBits(r) && |key| >= 64 && IsBits(key) && i <= 16
    ensures var (a, b) := Rounds(l, r, KeySequence(key), i);
            IsBits(a) && IsBits(b)
            && Rounds(Complement(l), Complement(r), KeySequence(Complement(key)), i) == (Complement(a), Complement(b))
    decreases i
  {
    hide FeistelFunction, Xor, RoundKey;
    if i > 0 {
      RoundsComplement(l, r, key, i - 1);
      var (a, b) := Rounds(l, r, KeySequence(key), i - 1);
      RoundKeyComplement(key, i - 1);
      FeistelComplement(b, RoundKey(key, i - 1));
      FeistelGivesBits(b, RoundKey(key, i - 1));
      XorComplement(a, FeistelFunction(b, RoundKey(key, i - 1)));
      XorGivesBits(a, FeistelFunction(b, RoundKey(key, i - 1)));
    }
  }

  lemma XorGivesBits(a: Bits, b: Bits)
    ensures IsBits(Xor(a, b))
  {
  }

  // Complementing key and plaintext complements the ciphertext.
  lemma EncryptionComplements(block: Bits, key: Bits)
    requires |block| >= 64 && |key| >= 64 && IsBits(block) && IsBits(key)
    ensures IsBits(Crypt(block, KeySequence(key)))
    ensures Crypt(Complement(block), KeySequence(Complement(key))) == Complement(Crypt(block, KeySequence(key)))
  {
    TableSizes();
    hide IP, FP, Rounds;
    PermuteComplement(block, IP);
    var ip := Permute(block, IP);
    var l, r := ip[..32], ip[32..];
    assert Complement(ip)[..32] == Complement(l) && Complement(ip)[32..] == Complement(r);
    RoundsComplement(l, r, key, 16);
    var (a, b) := Rounds(l, r, KeySequence(key), 16);
    assert Complement(b) + Complement(a) == Complement(b + a);
    PermuteComplement(b + a, FP);
  }
}
