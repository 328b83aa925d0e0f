/** The checksum's generator polynomial, 0x04C11DB7, and what only such a polynomial does.

    A 32-bit integer stands for the register, and `Shift` is the loop body of crc32 in
    pkg/wal/wal.go on it, and `Step` the same without a branch.  `CheckValue` computes the checksum of "123456789" that way.
    `TwoBytesDetected` goes beyond bursts: any damage to two bytes up to eight apart
    changes the checksum, and so in particular does exchanging them.
 */
module CrcPolynomial {
  import opened Powers
  import opened Crc32

  // ---------- 32-bit integers as registers ----------

  /** The mask of the i-th bit from the top. */
  function Mask(i: nat): bv32
    requires i < 32
    decreases 32 - i
  {
    if i == 31 then 1 else Mask(i + 1) << 1
  }

  predicate Bit(r: bv32, mask: bv32) {
    r & mask != 0
  }

  function Register(r: bv32): word {
    seq(32, i requires 0 <= i < 32 => Bit(r, Mask(i)))
  }

  predicate Single(mask: bv32) {
    mask != 0 && mask & (mask - 1) == 0
  }

  lemma AllMasks()
    ensures Mask(31) == 0x1 && Mask(30) == 0x2 && Mask(29) == 0x4 && Mask(28) == 0x8
    ensures Mask(27) == 0x10 && Mask(26) == 0x20 && Mask(25) == 0x40 && Mask(24) == 0x80
    ensures Mask(23) == 0x100 && Mask(22) == 0x200 && Mask(21) == 0x400 && Mask(20) == 0x800
    ensures Mask(19) == 0x1000 && Mask(18) == 0x2000 && Mask(17) == 0x4000 && Mask(16) == 0x8000
    ensures Mask(15) == 0x1_0000 && Mask(14) == 0x2_0000 && Mask(13) == 0x4_0000 && Mask(12) == 0x8_0000
    ensures Mask(11) == 0x10_0000 && Mask(10) == 0x20_0000 && Mask(9) == 0x40_0000 && Mask(8) == 0x80_0000
    ensures Mask(7) == 0x100_0000 && Mask(6) == 0x200_0000 && Mask(5) == 0x400_0000 && Mask(4) == 0x800_0000
    ensures Mask(3) == 0x1000_0000 && Mask(2) == 0x2000_0000 && Mask(1) == 0x4000_0000 && Mask(0) == 0x8000_0000
  {
  }

  lemma MaskIsSingle(i: nat)
    requires i < 32
    ensures Single(Mask(i)) && (i > 0 ==> Mask(i) & 0x8000_0000 == 0)
  {
    AllMasks();
  }

  lemma BitXor(x: bv32, y: bv32, mask: bv32)
    requires Single(mask)
    ensures Bit(x ^ y, mask) == (Bit(x, mask) != Bit(y, mask))
  {
  }

  lemma BitShift(x: bv32, mask: bv32)
    requires mask & 0x8000_0000 == 0
    ensures Bit(x << 1, mask << 1) == Bit(x, mask)
  {
  }

  lemma RegisterXor(x: bv32, y: bv32)
    ensures Register(x ^ y) == Xor(Register(x), Register(y))
  {
    forall i | 0 <= i < 32
      ensures Bit(x ^ y, Mask(i)) == (Bit(x, Mask(i)) != Bit(y, Mask(i)))
    {
      MaskIsSingle(i);
      BitXor(x, y, Mask(i));
    }
  }

  lemma RegisterShift(x: bv32)
    ensures Register(x << 1) == ShiftLeft(Register(x))
  {
    forall i | 0 <= i < 32
      ensures Register(x << 1)[i] == ShiftLeft(Register(x))[i]
    {
      if i < 31 {
        MaskIsSingle(i + 1);
        BitShift(x, Mask(i + 1));
      }
    }
  }

  // ---------- the loop on integers ----------

  function Shift(r: bv32): bv32 {
    if r & 0x8000_0000 != 0 then (r << 1) ^ 0x04C1_1DB7 else r << 1
  }

  /** The same without a branch: the top bit spread over a mask for the generator. */
  function Step(r: bv32): bv32 {
    (r << 1) ^ (0x04C1_1DB7 & (0 - (r >> 31)))
  }

  lemma TopBitSet(r: bv32)
    requires r & 0x8000_0000 != 0
    ensures r >> 31 == 1
  {
  }

  lemma TopBitClear(r: bv32)
    requires r & 0x8000_0000 == 0
    ensures r >> 31 == 0
  {
  }

  lemma StepIsShift(r: bv32)
    ensures Step(r) == Shift(r)
  {
    if r & 0x8000_0000 != 0 {
      TopBitSet(r);
      var mask: bv32 := 0 - (r >> 31);
      assert mask == 0xFFFF_FFFF;
      assert 0x04C1_1DB7 & mask == 0x04C1_1DB7;
    } else {
      TopBitClear(r);
      var mask: bv32 := 0 - (r >> 31);
      assert mask == 0;
      assert 0x04C1_1DB7 & mask == 0;
      assert (r << 1) ^ 0 == r << 1;
    }
  }

  function Shift8(r: bv32): bv32 {
    Step(Step(Step(Step(Step(Step(Step(Step(r))))))))
  }

  lemma GeneratorIs()
    ensures Register(0x04C1_1DB7) == Generator()
  {
    AllMasks();
  }

  /** The generator polynomial of IEEE 802.3 clause 3.2.9. */
  lemma GeneratorValue()
    ensures Value(Generator()) == 0x04C1_1DB7
  {
    GeneratorIs();
    AllMasks();
    ValueByBytes(Generator());
  }

  lemma ShiftIs(r: bv32)
    ensures Register(Shift(r)) == ShiftBit(Register(r))
  {
    AllMasks();
    assert Register(r)[0] == Bit(r, 0x8000_0000);
    RegisterShift(r);
    RegisterXor(r << 1, 0x04C1_1DB7);
    GeneratorIs();
  }

  lemma StepIs(r: bv32)
    ensures Register(Step(r)) == ShiftBit(Register(r))
  {
    StepIsShift(r);
    ShiftIs(r);
  }

  lemma {:induction false} Shift8Is(r: bv32)
    ensures Register(Shift8(r)) == ShiftBits(Register(r), 8)
  {
    var r4 := Step(Step(Step(Step(r))));
    Shift4Is(r);
    Shift4Is(r4);
    ShiftBitsAdd(Register(r), 4, 4);
  }

  lemma Shift4Is(r: bv32)
    ensures Register(Step(Step(Step(Step(r))))) == ShiftBits(Register(r), 4)
  {
    StepIs(r);
    StepIs(Step(r));
    StepIs(Step(Step(r)));
    StepIs(Step(Step(Step(r))));
  }

  /** A byte in the highest eight bits. */
  function TopWord(o: octet): bv32 {
    (if o[0] then 0x8000_0000 else 0) | (if o[1] then 0x4000_0000 else 0)
    | (if o[2] then 0x2000_0000 else 0) | (if o[3] then 0x1000_0000 else 0)
    | (if o[4] then 0x0800_0000 else 0) | (if o[5] then 0x0400_0000 else 0)
    | (if o[6] then 0x0200_0000 else 0) | (if o[7] then 0x0100_0000 else 0)
  }

  lemma TopIs(o: octet)
    ensures Register(TopWord(o)) == Top(o)
  {
    AllMasks();
  }

  lemma FeedIs(r: bv32, o: octet)
    ensures Feed(Register(r), o) == Register(Shift8(r ^ TopWord(o)))
  {
    TopIs(o);
    RegisterXor(r, TopWord(o));
    Shift8Is(r ^ TopWord(o));
  }

  // ---------- the value of a register, byte by byte ----------

  function One(b: bool): nat {
    if b then 1 else 0
  }

  /** The number in the eight bits from the i-th on. */
  function ByteAt(w: bits, i: nat): nat
    requires i + 8 <= |w|
  {
    128 * One(w[i]) + 64 * One(w[i + 1]) + 32 * One(w[i + 2]) + 16 * One(w[i + 3])
    + 8 * One(w[i + 4]) + 4 * One(w[i + 5]) + 2 * One(w[i + 6]) + One(w[i + 7])
  }

  lemma OneMoreBit(s: bits, n: nat)
    requires n < |s|
    ensures Value(s[..n + 1]) == 2 * Value(s[..n]) + One(s[n])
  {
    assert s[..n + 1][..n] == s[..n];
  }

  lemma FourMoreBits(s: bits, n: nat)
    requires n + 4 <= |s|
    ensures Value(s[..n + 4]) == 16 * Value(s[..n]) + 8 * One(s[n]) + 4 * One(s[n + 1]) + 2 * One(s[n + 2]) + One(s[n + 3])
  {
    OneMoreBit(s, n);
    OneMoreBit(s, n + 1);
    OneMoreBit(s, n + 2);
    OneMoreBit(s, n + 3);
  }

  lemma ByteMore(s: bits, n: nat)
    requires n + 8 <= |s|
    ensures Value(s[..n + 8]) == 256 * Value(s[..n]) + ByteAt(s, n)
  {
    FourMoreBits(s, n);
    FourMoreBits(s, n + 4);
  }

  lemma ValueByBytes(w: word)
    ensures Value(w) == ((ByteAt(w, 0) * 256 + ByteAt(w, 8)) * 256 + ByteAt(w, 16)) * 256 + ByteAt(w, 24)
  {
    ByteMore(w, 0);
    ByteMore(w, 8);
    ByteMore(w, 16);
    ByteMore(w, 24);
    assert w[..0] == [] && w[..32] == w;
    assert Value(w[..8]) == ByteAt(w, 0);
    assert Value(w[..16]) == 256 * Value(w[..8]) + ByteAt(w, 8);
    assert Value(w[..24]) == 256 * Value(w[..16]) + ByteAt(w, 16);
    assert Value(w[..32]) == 256 * Value(w[..24]) + ByteAt(w, 24);
  }

  /** The bits of a byte are its number. */
  lemma ByteOfBits(b: byte)
    ensures ByteAt(Bits(b, 8), 0) == b
  {
    Pow2Values();
    ValueOfBits(b, 8);
    ByteMore(Bits(b, 8), 0);
    assert Bits(b, 8)[..8] == Bits(b, 8);
  }

  // ---------- the check value ----------

  lemma OctetIs(b: byte, o: octet)
    requires ByteAt(o, 0) == b
    ensures Bits(b, 8) == o
  {
    BitsOfValue(o);
    ByteMore(o, 0);
    assert o[..8] == o && o[..0] == [];
  }

  lemma NextByte(r: bv32, b: byte, o: octet, top: bv32, r': bv32)
    requires ByteAt(o, 0) == b && TopWord(o) == top && r' == Shift8(r ^ top)
    ensures Feed(Register(r), Bits(b, 8)) == Register(r')
  {
    OctetIs(b, o);
    FeedIs(r, o);
  }

  /** The ASCII digit with these four low bits. */
  function Ascii(b3: bool, b2: bool, b1: bool, b0: bool): octet {
    [false, false, true, true, b3, b2, b1, b0]
  }

  lemma RunThree(r0: bv32, r1: bv32, r2: bv32, r3: bv32, data: seq<byte>)
    requires |data| == 3
    requires Feed(Register(r0), Bits(data[0], 8)) == Register(r1)
    requires Feed(Register(r1), Bits(data[1], 8)) == Register(r2)
    requires Feed(Register(r2), Bits(data[2], 8)) == Register(r3)
    ensures Run(Register(r0), Octets(data)) == Register(r3)
  {
    var os := Octets(data);
    RunFirst(Register(r0), os);
    RunFirst(Register(r1), os[1..]);
    RunFirst(Register(r2), os[2..]);
    assert os[1..][1..] == os[2..] && os[2..][1..] == [];
  }

  lemma Words()
    ensures Shift8(0xFFFF_FFFF ^ 0x3100_0000) == 0x9EFB_CF93
    ensures Shift8(0x9EFB_CF93 ^ 0x3200_0000) == 0x3FEC_5E6A
    ensures Shift8(0x3FEC_5E6A ^ 0x3300_0000) == 0xD952_F164
    ensures Shift8(0xD952_F164 ^ 0x3400_0000) == 0xA695_C4AA
    ensures Shift8(0xA695_C4AA ^ 0x3500_0000) == 0xBD9A_B747
    ensures Shift8(0xBD9A_B747 ^ 0x3600_0000) == 0xD8F0_6C8F
    ensures Shift8(0xD8F0_6C8F ^ 0x3700_0000) == 0x0D8A_14C4
    ensures Shift8(0x0D8A_14C4 ^ 0x3800_0000) == 0x49E3_C2FB
    ensures Shift8(0x49E3_C2FB ^ 0x3900_0000) == 0x0376_E6E7
  {
  }

  lemma Digits()
    ensures TopWord(Ascii(false, false, false, true)) == 0x3100_0000 && ByteAt(Ascii(false, false, false, true), 0) == 0x31
    ensures TopWord(Ascii(false, false, true, false)) == 0x3200_0000 && ByteAt(Ascii(false, false, true, false), 0) == 0x32
    ensures TopWord(Ascii(false, false, true, true)) == 0x3300_0000 && ByteAt(Ascii(false, false, true, true), 0) == 0x33
    ensures TopWord(Ascii(false, true, false, false)) == 0x3400_0000 && ByteAt(Ascii(false, true, false, false), 0) == 0x34
    ensures TopWord(Ascii(false, true, false, true)) == 0x3500_0000 && ByteAt(Ascii(false, true, false, true), 0) == 0x35
    ensures TopWord(Ascii(false, true, true, false)) == 0x3600_0000 && ByteAt(Ascii(false, true, true, false), 0) == 0x36
    ensures TopWord(Ascii(false, true, true, true)) == 0x3700_0000 && ByteAt(Ascii(false, true, true, true), 0) == 0x37
    ensures TopWord(Ascii(true, false, false, false)) == 0x3800_0000 && ByteAt(Ascii(true, false, false, false), 0) == 0x38
    ensures TopWord(Ascii(true, false, false, true)) == 0x3900_0000 && ByteAt(Ascii(true, false, false, true), 0) == 0x39
  {
  }

  lemma FirstSteps()
    ensures Feed(Register(0xFFFF_FFFF), Bits(0x31, 8)) == Register(0x9EFB_CF93)
    ensures Feed(Register(0x9EFB_CF93), Bits(0x32, 8)) == Register(0x3FEC_5E6A)
    ensures Feed(Register(0x3FEC_5E6A), Bits(0x33, 8)) == Register(0xD952_F164)
  {
    Words();
    Digits();
    NextByte(0xFFFF_FFFF, 0x31, Ascii(false, false, false, true), 0x3100_0000, 0x9EFB_CF93);
    NextByte(0x9EFB_CF93, 0x32, Ascii(false, false, true, false), 0x3200_0000, 0x3FEC_5E6A);
    NextByte(0x3FEC_5E6A, 0x33, Ascii(false, false, true, true), 0x3300_0000, 0xD952_F164);
  }

  lemma First()
    ensures Run(Register(0xFFFF_FFFF), Octets([0x31, 0x32, 0x33])) == Register(0xD952_F164)
  {
    FirstSteps();
    RunThree(0xFFFF_FFFF, 0x9EFB_CF93, 0x3FEC_5E6A, 0xD952_F164, [0x31, 0x32, 0x33]);
  }

  lemma SecondSteps()
    ensures Feed(Register(0xD952_F164), Bits(0x34, 8)) == Register(0xA695_C4AA)
    ensures Feed(Register(0xA695_C4AA), Bits(0x35, 8)) == Register(0xBD9A_B747)
    ensures Feed(Register(0xBD9A_B747), Bits(0x36, 8)) == Register(0xD8F0_6C8F)
  {
    Words();
    Digits();
    NextByte(0xD952_F164, 0x34, Ascii(false, true, false, false), 0x3400_0000, 0xA695_C4AA);
    NextByte(0xA695_C4AA, 0x35, Ascii(false, true, false, true), 0x3500_0000, 0xBD9A_B747);
    NextByte(0xBD9A_B747, 0x36, Ascii(false, true, true, false), 0x3600_0000, 0xD8F0_6C8F);
  }

  lemma Second()
    ensures Run(Register(0xD952_F164), Octets([0x34, 0x35, 0x36])) == Register(0xD8F0_6C8F)
  {
    SecondSteps();
    RunThree(0xD952_F164, 0xA695_C4AA, 0xBD9A_B747, 0xD8F0_6C8F, [0x34, 0x35, 0x36]);
  }

  lemma ThirdSteps()
    ensures Feed(Register(0xD8F0_6C8F), Bits(0x37, 8)) == Register(0x0D8A_14C4)
    ensures Feed(Register(0x0D8A_14C4), Bits(0x38, 8)) == Register(0x49E3_C2FB)
    ensures Feed(Register(0x49E3_C2FB), Bits(0x39, 8)) == Register(0x0376_E6E7)
  {
    Words();
    Digits();
    NextByte(0xD8F0_6C8F, 0x37, Ascii(false, true, true, true), 0x3700_0000, 0x0D8A_14C4);
    NextByte(0x0D8A_14C4, 0x38, Ascii(true, false, false, false), 0x3800_0000, 0x49E3_C2FB);
    NextByte(0x49E3_C2FB, 0x39, Ascii(true, false, false, true), 0x3900_0000, 0x0376_E6E7);
  }

  lemma Third()
    ensures Run(Register(0xD8F0_6C8F), Octets([0x37, 0x38, 0x39])) == Register(0x0376_E6E7)
  {
    ThirdSteps();
    RunThree(0xD8F0_6C8F, 0x0D8A_14C4, 0x49E3_C2FB, 0x0376_E6E7, [0x37, 0x38, 0x39]);
  }

  lemma Inverted()
    ensures Xor(Register(0x0376_E6E7), AllOnes()) == Register(0xFC89_1918) && AllOnes() == Register(0xFFFF_FFFF)
  {
    AllMasks();
    assert AllOnes() == Register(0xFFFF_FFFF);
    RegisterXor(0x0376_E6E7, 0xFFFF_FFFF);
    var inverted: bv32 := 0x0376_E6E7 ^ 0xFFFF_FFFF;
    assert inverted == 0xFC89_1918;
  }

  /** The digits 1 to 9 in ASCII. */
  const Check: seq<byte> := [0x31, 0x32, 0x33] + [0x34, 0x35, 0x36] + [0x37, 0x38, 0x39]

  lemma CheckValue()
    ensures Checksum(Check) == 0xFC89_1918
  {
    First();
    Second();
    Third();
    Inverted();
    var a, b, c := [0x31, 0x32, 0x33], [0x34, 0x35, 0x36], [0x37, 0x38, 0x39];
    RunBoth(a + b, c);
    RunBoth(a, b);
    ValueOfCheck();
  }

  lemma ValueOfCheck()
    ensures Value(Register(0xFC89_1918)) == 0xFC89_1918
  {
    AllMasks();
    ValueByBytes(Register(0xFC89_1918));
  }

  // ---------- two damaged bytes ----------

  function Shift8Times(r: bv32, k: nat): bv32 {
    if k == 0 then r else Shift8(Shift8Times(r, k - 1))
  }

  lemma {:induction false} Shift8TimesIs(r: bv32, k: nat)
    ensures Register(Shift8Times(r, k)) == ShiftBits(Register(r), 8 * k)
  {
    if k > 0 {
      Shift8TimesIs(r, k - 1);
      Shift8Is(Shift8Times(r, k - 1));
      ShiftBitsAdd(Register(r), 8 * (k - 1), 8);
    }
  }

  predicate IsTop(r: bv32) {
    r & 0x00FF_FFFF == 0
  }

  lemma AwayBy4(r: bv32)
    requires IsTop(r) && r != 0
    ensures !IsTop(Shift8(Shift8(Shift8(Shift8(r)))))
  {
  }

  lemma AwayBy3(r: bv32)
    requires IsTop(r) && r != 0
    ensures !IsTop(Shift8(Shift8(Shift8(r)))) && !IsTop(Shift8(Shift8(r))) && !IsTop(Shift8(r))
  {
  }

  lemma AwayBy5(r: bv32)
    requires IsTop(r) && r != 0
    ensures !IsTop(Shift8(Shift8(Shift8(Shift8(Shift8(r))))))
  {
  }

  lemma AwayBy6(r: bv32)
    requires IsTop(r) && r != 0
    ensures !IsTop(Shift8(Shift8(Shift8(Shift8(Shift8(Shift8(r)))))))
  {
  }

  lemma AwayBy7(r: bv32)
    requires IsTop(r) && r != 0
    ensures !IsTop(Shift8(Shift8(Shift8(Shift8(Shift8(Shift8(Shift8(r))))))))
  {
  }

  lemma AwayBy8(r: bv32)
    requires IsTop(r) && r != 0
    ensures !IsTop(Shift8(Shift8(Shift8(Shift8(Shift8(Shift8(Shift8(Shift8(r)))))))))
  {
  }

  lemma Unrolled(r: bv32)
    ensures Shift8Times(r, 1) == Shift8(r) && Shift8Times(r, 2) == Shift8(Shift8(r))
    ensures Shift8Times(r, 3) == Shift8(Shift8(Shift8(r))) && Shift8Times(r, 4) == Shift8(Shift8(Shift8(Shift8(r))))
    ensures Shift8Times(r, 5) == Shift8(Shift8Times(r, 4)) && Shift8Times(r, 6) == Shift8(Shift8Times(r, 5))
    ensures Shift8Times(r, 7) == Shift8(Shift8Times(r, 6)) && Shift8Times(r, 8) == Shift8(Shift8Times(r, 7))
  {
    assert Shift8Times(r, 0) == r;
  }

  /** A byte driven on by up to eight bytes is never a byte at the same place. */
  lemma Away(r: bv32, k: nat)
    requires IsTop(r) && r != 0 && 1 <= k <= 8
    ensures !IsTop(Shift8Times(r, k))
  {
    Unrolled(r);
    match k {
      case 4 => AwayBy4(r);
      case 5 => AwayBy5(r);
      case 6 => AwayBy6(r);
      case 7 => AwayBy7(r);
      case 8 => AwayBy8(r);
      case _ => AwayBy3(r);
    }
  }

  lemma TopWordIsTop(o: octet)
    ensures IsTop(TopWord(o)) && (TopWord(o) == 0 ==> o == Zeros(8))
  {
  }

  /** The masks of all bits from the i-th on. */
  function MasksFrom(i: nat): bv32
    requires i < 32
    decreases 32 - i
  {
    if i == 31 then Mask(i) else Mask(i) | MasksFrom(i + 1)
  }

  lemma {:induction false} ClearFrom(r: bv32, i: nat)
    requires i < 32 && forall j :: i <= j < 32 ==> !Register(r)[j]
    ensures r & MasksFrom(i) == 0
    decreases 32 - i
  {
    assert !Register(r)[i];
    if i < 31 { ClearFrom(r, i + 1); }
  }

  lemma MasksFrom8()
    ensures MasksFrom(8) == 0x00FF_FFFF
  {
    AllMasks();
    assert MasksFrom(24) == 0xFF;
    assert MasksFrom(16) == 0xFFFF;
  }

  /** The register after a damaged byte and k - 1 sound ones is not undone by damage to one
      more byte. */
  lemma NotUndone(a: octet, b: octet, k: nat)
    requires a != Zeros(8) && 1 <= k <= 8
    ensures ShiftBits(Top(a), 8 * k) != Top(b)
  {
    var r := TopWord(a);
    TopIs(a);
    TopWordIsTop(a);
    Shift8TimesIs(r, k);
    Away(r, k);
    if ShiftBits(Top(a), 8 * k) == Top(b) {
      ClearFrom(Shift8Times(r, k), 8);
      MasksFrom8();
    }
  }

  /** Two differences, at most eight bytes apart, do not lead the zero register back to zero. */
  lemma TwoDifferences(a: octet, n: nat, b: octet)
    requires a != Zeros(8) && n < 8
    ensures Run(Zeros(32), [a] + Quiet(n) + [b]) != Zeros(32)
  {
    var c := ShiftBits(Top(a), 8 + 8 * n);
    RunAppend(Zeros(32), [a] + Quiet(n), [b]);
    RunDifference(a, n);
    RunOne(c, b);
    NotUndone(a, b, n + 1);
    NotCancelled(c, b);
  }

  lemma NotCancelled(c: word, b: octet)
    requires c != Top(b)
    ensures ShiftBits(Xor(c, Top(b)), 8) != Zeros(32)
  {
    if ShiftBits(Xor(c, Top(b)), 8) == Zeros(32) {
      ShiftBitsKernel(Xor(c, Top(b)), 8);
      SameIfXorZero(c, Top(b));
    }
  }

  lemma RunDifference(a: octet, n: nat)
    ensures Run(Zeros(32), [a] + Quiet(n)) == ShiftBits(Top(a), 8 + 8 * n)
  {
    RunAppend(Zeros(32), [a], Quiet(n));
    RunOne(Zeros(32), a);
    XorNeutral(Top(a));
    RunQuiet(ShiftBits(Top(a), 8), Quiet(n));
    ShiftBitsAdd(Top(a), 8, 8 * n);
  }

  lemma RunOne(c: word, o: octet)
    ensures Run(c, [o]) == ShiftBits(Xor(c, Top(o)), 8)
  {
    RunFirst(c, [o]);
    assert [o][1..] == [];
  }

  /** Whatever happens to two bytes that are up to eight apart, the checksum changes. */
  lemma TwoBytesDetected(prefix: seq<byte>, a: byte, b: byte, a': byte, b': byte, middle: seq<byte>, suffix: seq<byte>)
    requires |middle| < 8 && (a != a' || b != b')
    ensures Checksum(prefix + ([a] + middle + [b]) + suffix) != Checksum(prefix + ([a'] + middle + [b']) + suffix)
  {
    var x, y := [a] + middle + [b], [a'] + middle + [b'];
    if Checksum(prefix + x + suffix) == Checksum(prefix + y + suffix) {
      ChecksumInjective(Run(AllOnes(), Octets(prefix + x + suffix)), Run(AllOnes(), Octets(prefix + y + suffix)));
      RunThrough(prefix, x, suffix);
      RunThrough(prefix, y, suffix);
      var c := Run(AllOnes(), Octets(prefix));
      SuffixInjective(Run(c, Octets(x)), Run(c, Octets(y)), Octets(suffix));
      SameRunsSameEnds(c, a, b, a', b', middle);
    }
  }

  lemma RunJoined(c: word, x: seq<byte>, y: seq<byte>)
    ensures Octets(x + y) == Octets(x) + Octets(y)
    ensures Run(c, Octets(x + y)) == Run(Run(c, Octets(x)), Octets(y))
  {
    assert Octets(x + y) == Octets(x) + Octets(y);
    RunAppend(c, Octets(x), Octets(y));
  }

  lemma XorAllJoined(a: seq<octet>, b: seq<octet>, x: seq<octet>, y: seq<octet>)
    requires |a| == |x| && |b| == |y|
    ensures XorAll(a + b, x + y) == XorAll(a, x) + XorAll(b, y)
  {
  }

  lemma XorAllSame(os: seq<octet>)
    ensures XorAll(os, os) == Quiet(|os|)
  {
    forall i | 0 <= i < |os|
      ensures XorAll(os, os)[i] == Zeros(8)
    {
      assert Xor(os[i], os[i]) == Zeros(8);
    }
  }

  lemma Differences(a: byte, b: byte, a': byte, b': byte, middle: seq<byte>)
    ensures XorAll(Octets([a] + middle + [b]), Octets([a'] + middle + [b']))
         == [Xor(Bits(a, 8), Bits(a', 8))] + Quiet(|middle|) + [Xor(Bits(b, 8), Bits(b', 8))]
  {
    var c := AllOnes();
    RunJoined(c, [a] + middle, [b]);
    RunJoined(c, [a'] + middle, [b']);
    RunJoined(c, [a], middle);
    RunJoined(c, [a'], middle);
    XorAllJoined(Octets([a]) + Octets(middle), Octets([b]), Octets([a']) + Octets(middle), Octets([b']));
    XorAllJoined(Octets([a]), Octets(middle), Octets([a']), Octets(middle));
    XorAllSame(Octets(middle));
    XorAllOne(a, a');
    XorAllOne(b, b');
  }

  lemma XorAllOne(a: byte, a': byte)
    ensures XorAll(Octets([a]), Octets([a'])) == [Xor(Bits(a, 8), Bits(a', 8))]
  {
  }

  lemma SameRunsSameEnds(c: word, a: byte, b: byte, a': byte, b': byte, middle: seq<byte>)
    requires |middle| < 8 && Run(c, Octets([a] + middle + [b])) == Run(c, Octets([a'] + middle + [b']))
    ensures a == a' && b == b'
  {
    var x, y := [a] + middle + [b], [a'] + middle + [b'];
    var da := Xor(Bits(a, 8), Bits(a', 8));
    RunLinear(c, c, Octets(x), Octets(y));
    assert Xor(c, c) == Zeros(32);
    assert Xor(Run(c, Octets(x)), Run(c, Octets(y))) == Zeros(32);
    Differences(a, b, a', b', middle);
    if da != Zeros(8) {
      TwoDifferences(da, |middle|, Xor(Bits(b, 8), Bits(b', 8)));
    }
    SameIfXorZero(Bits(a, 8), Bits(a', 8));
    ByteOfBits(a);
    ByteOfBits(a');
    SameEnd(c, [a] + middle, b, b');
  }

  lemma SameEnd(c: word, front: seq<byte>, b: byte, b': byte)
    requires Run(c, Octets(front + [b])) == Run(c, Octets(front + [b']))
    ensures b == b'
  {
    RunJoined(c, front, [b]);
    RunJoined(c, front, [b']);
    BurstInjective(Run(c, Octets(front)), [b], [b']);
    assert [b][0] == [b'][0];
  }
}
