/** The checksum of the write-ahead log: crc32 in pkg/wal/wal.go.

    A 32-bit register is its 32 bits, highest first, so that a shift, an
    exclusive or and a test of the top bit are what they are in the source.
    `Compute` is the source's double loop and `Checksum` the function it computes.
    `BurstDetected` is what the checksum is for: two byte strings that differ only
    inside a window of at most four consecutive bytes never have the same checksum.
    The generator is the one of IEEE 802.3 clause 3.2.9.
 */
module Crc32 {
  import opened Powers

  type byte = n: nat | n < 256
  type bits = seq<bool>
  type octet = s: bits | |s| == 8 witness Zeros(8)
  type word = s: bits | |s| == 32 witness Zeros(32)

  // ---------- numbers and their bits ----------

  /** The low `width` bits of n, highest first. */
  function Bits(n: nat, width: nat): (s: bits)
    ensures |s| == width
  {
    if width == 0 then [] else Bits(n / 2, width - 1) + [n % 2 == 1]
  }

  function Value(s: bits): nat {
    if s == [] then 0
    else 2 * Value(s[..|s| - 1]) + (if s[|s| - 1] then 1 else 0)
  }

  lemma {:induction false} ValueOfBits(n: nat, width: nat)
    requires n < Pow2(width)
    ensures Value(Bits(n, width)) == n
    decreases width
  {
    if width > 0 {
      ValueOfBits(n / 2, width - 1);
      assert Bits(n, width)[..width - 1] == Bits(n / 2, width - 1);
    }
  }

  lemma {:induction false} BitsOfValue(s: bits)
    ensures Value(s) < Pow2(|s|) && Bits(Value(s), |s|) == s
    decreases |s|
  {
    if s != [] {
      BitsOfValue(s[..|s| - 1]);
    }
  }

  lemma {:induction false} BitsJoin(q: nat, r: nat, v: nat, w: nat)
    requires r < Pow2(w)
    ensures Bits(q * Pow2(w) + r, v + w) == Bits(q, v) + Bits(r, w)
    decreases w
  {
    if w > 0 {
      var t := q * Pow2(w - 1);
      assert q * Pow2(w) == 2 * t;
      BitsJoin(q, r / 2, v, w - 1);
    }
  }

  // ---------- operations on registers ----------

  function Zeros(n: nat): (s: bits)
    ensures |s| == n && forall i :: 0 <= i < n ==> !s[i]
  {
    seq(n, _ => false)
  }

  /** 0x04C11DB7: the exponents below 32 of the generator polynomial. */
  predicate HasTerm(exponent: nat) {
    exponent in {26, 23, 22, 16, 12, 11, 10, 8, 7, 5, 4, 2, 1, 0}
  }

  function Generator(): (g: word)
    ensures g[31]
  {
    seq(32, i requires 0 <= i < 32 => HasTerm(31 - i))
  }

  /** 0xFFFFFFFF */
  function AllOnes(): word {
    seq(32, _ => true)
  }

  function Xor(a: bits, b: bits): (c: bits)
    requires |a| == |b|
    ensures |c| == |a| && forall i :: 0 <= i < |a| ==> c[i] == (a[i] != b[i])
  {
    seq(|a|, i requires 0 <= i < |a| => a[i] != b[i])
  }

  /** The register holding `o` in its highest eight bits. */
  function Top(o: octet): word {
    o + Zeros(24)
  }

  function ShiftLeft(c: word): word {
    c[1..] + [false]
  }

  function ShiftBit(c: word): word {
    if c[0] then Xor(ShiftLeft(c), Generator()) else ShiftLeft(c)
  }

  function ShiftBits(c: word, n: nat): word
    decreases n
  {
    if n == 0 then c else ShiftBits(ShiftBit(c), n - 1)
  }

  /** The register after one more byte. */
  function Feed(c: word, o: octet): word {
    ShiftBits(Xor(c, Top(o)), 8)
  }

  /** The register after all of `os`. */
  function Run(c: word, os: seq<octet>): word
    decreases |os|
  {
    if os == [] then c else Run(Feed(c, os[0]), os[1..])
  }

  function Octets(data: seq<byte>): (os: seq<octet>)
    ensures |os| == |data|
  {
    seq(|data|, i requires 0 <= i < |data| => Bits(data[i], 8))
  }

  function Checksum(data: seq<byte>): nat {
    Value(Xor(Run(AllOnes(), Octets(data)), AllOnes()))
  }

  method FeedByte(c: word, b: byte) returns (crc: word)
    ensures crc == Feed(c, Bits(b, 8))
  {
    crc := Xor(c, Top(Bits(b, 8)));
    for i := 0 to 8
      invariant ShiftBits(crc, 8 - i) == Feed(c, Bits(b, 8))
    {
      if crc[0] {
        crc := Xor(ShiftLeft(crc), Generator());
      } else {
        crc := ShiftLeft(crc);
      }
    }
  }

  method Compute(data: seq<byte>) returns (sum: nat)
    ensures sum == Checksum(data)
  {
    var crc: word := AllOnes();
    for k := 0 to |data|
      invariant Run(AllOnes(), Octets(data)) == Run(crc, Octets(data)[k..])
    {
      RunFirst(crc, Octets(data)[k..]);
      crc := FeedByte(crc, data[k]);
    }
    sum := Value(Xor(crc, AllOnes()));
  }

  lemma RunFirst(c: word, os: seq<octet>)
    requires os != []
    ensures Run(c, os) == Run(Feed(c, os[0]), os[1..])
  {}

  // ---------- the register is linear over exclusive or ----------

  lemma ShiftBitLinear(a: word, b: word)
    ensures ShiftBit(Xor(a, b)) == Xor(ShiftBit(a), ShiftBit(b))
  {}

  lemma {:induction false} ShiftBitsLinear(a: word, b: word, n: nat)
    ensures ShiftBits(Xor(a, b), n) == Xor(ShiftBits(a, n), ShiftBits(b, n))
    decreases n
  {
    if n > 0 {
      ShiftBitLinear(a, b);
      ShiftBitsLinear(ShiftBit(a), ShiftBit(b), n - 1);
    }
  }

  lemma {:induction false} ShiftBitsAdd(c: word, m: nat, n: nat)
    ensures ShiftBits(c, m + n) == ShiftBits(ShiftBits(c, m), n)
    decreases m
  {
    if m > 0 { ShiftBitsAdd(ShiftBit(c), m - 1, n); }
  }

  lemma FeedLinear(c: word, d: word, a: octet, b: octet)
    ensures Feed(Xor(c, d), Xor(a, b)) == Xor(Feed(c, a), Feed(d, b))
  {
    assert Xor(Xor(c, d), Top(Xor(a, b))) == Xor(Xor(c, Top(a)), Xor(d, Top(b)));
    ShiftBitsLinear(Xor(c, Top(a)), Xor(d, Top(b)), 8);
  }

  function XorAll(x: seq<octet>, y: seq<octet>): (z: seq<octet>)
    requires |x| == |y|
    ensures |z| == |x|
  {
    seq(|x|, i requires 0 <= i < |x| => Xor(x[i], y[i]))
  }

  lemma {:induction false} RunLinear(c: word, d: word, x: seq<octet>, y: seq<octet>)
    requires |x| == |y|
    ensures Run(Xor(c, d), XorAll(x, y)) == Xor(Run(c, x), Run(d, y))
    decreases |x|
  {
    if x != [] {
      var z := XorAll(x, y);
      FeedLinear(c, d, x[0], y[0]);
      assert z[0] == Xor(x[0], y[0]) && z[1..] == XorAll(x[1..], y[1..]);
      RunLinear(Feed(c, x[0]), Feed(d, y[0]), x[1..], y[1..]);
      RunFirst(Xor(c, d), z);
    }
  }

  lemma {:induction false} RunAppend(c: word, x: seq<octet>, y: seq<octet>)
    ensures Run(c, x + y) == Run(Run(c, x), y)
    decreases |x|
  {
    if x == [] {
      assert x + y == y;
    } else {
      assert (x + y)[1..] == x[1..] + y;
      RunAppend(Feed(c, x[0]), x[1..], y);
    }
  }

  // ---------- only the zero register is ever driven to zero ----------

  lemma {:induction false} ShiftBitsKernel(c: word, n: nat)
    requires ShiftBits(c, n) == Zeros(32)
    ensures c == Zeros(32)
    decreases n
  {
    if n > 0 {
      ShiftBitsKernel(ShiftBit(c), n - 1);
      assert ShiftBit(c)[31] == c[0];
      forall i | 0 < i < 32
        ensures !c[i]
      {
        assert ShiftBit(c)[i - 1] == ShiftLeft(c)[i - 1] == c[i];
      }
      assert c == Zeros(32);
    }
  }

  lemma {:induction false} RunKernel(c: word, os: seq<octet>)
    requires forall i :: 0 <= i < |os| ==> os[i] == Zeros(8)
    requires Run(c, os) == Zeros(32)
    ensures c == Zeros(32)
    decreases |os|
  {
    if os != [] {
      RunKernel(Feed(c, os[0]), os[1..]);
      ShiftBitsKernel(Xor(c, Top(os[0])), 8);
      assert Xor(c, Top(os[0])) == c;
    }
  }

  // ---------- up to four bytes are one word ----------

  /** A shift that moves only zeros out of the top is a plain shift. */
  lemma {:induction false} QuietShift(c: word, n: nat)
    requires n <= 32 && forall i :: 0 <= i < n ==> !c[i]
    ensures ShiftBits(c, n) == c[n..] + Zeros(n)
    decreases n
  {
    if n > 0 {
      QuietShift(ShiftBit(c), n - 1);
      assert ShiftBit(c)[n - 1..] == c[n..] + [false];
    }
  }

  function Lane(k: nat, o: octet): (w: word)
    requires k <= 3
    ensures forall i :: 0 <= i < 8 * k ==> !w[i]
    ensures w[8 * k..8 * k + 8] == o
  {
    Zeros(8 * k) + o + Zeros(24 - 8 * k)
  }

  /** The bits of at most four bytes, in order, filled up with zeros. */
  function Word(os: seq<octet>): (w: word)
    requires |os| <= 4
    ensures forall i :: 8 * |os| <= i < 32 ==> !w[i]
  {
    if os == [] then Zeros(32)
    else
      var k := |os| - 1;
      Xor(Word(os[..k]), Lane(k, os[k]))
  }

  lemma LaneReachesTop(k: nat, o: octet)
    requires k <= 3
    ensures ShiftBits(Lane(k, o), 8 * k) == Top(o)
  {
    QuietShift(Lane(k, o), 8 * k);
    assert Lane(k, o)[8 * k..] + Zeros(8 * k) == Top(o);
  }

  /** One more byte on a register that has already taken in 8 * k bits. */
  lemma FeedLane(w: word, k: nat, o: octet)
    requires k <= 3
    ensures Feed(ShiftBits(w, 8 * k), o) == ShiftBits(Xor(w, Lane(k, o)), 8 * k + 8)
  {
    LaneReachesTop(k, o);
    ShiftBitsLinear(w, Lane(k, o), 8 * k);
    ShiftBitsAdd(Xor(w, Lane(k, o)), 8 * k, 8);
  }

  lemma RunLast(c: word, os: seq<octet>)
    requires os != []
    ensures Run(c, os) == Feed(Run(c, os[..|os| - 1]), os[|os| - 1])
  {
    var front, last := os[..|os| - 1], os[|os| - 1..];
    assert os == front + last;
    RunAppend(c, front, last);
    assert last[1..] == [];
  }

  lemma {:induction false} RunOfWord(os: seq<octet>)
    requires |os| <= 4
    ensures Run(Zeros(32), os) == ShiftBits(Word(os), 8 * |os|)
    decreases |os|
  {
    if os != [] {
      var k := |os| - 1;
      RunLast(Zeros(32), os);
      RunOfWord(os[..k]);
      FeedLane(Word(os[..k]), k, os[k]);
    }
  }

  lemma {:induction false} WordAt(os: seq<octet>, i: nat, j: nat)
    requires i < |os| <= 4 && j < 8
    ensures Word(os)[8 * i + j] == os[i][j]
    decreases |os|
  {
    var k := |os| - 1;
    var lane := Lane(k, os[k]);
    if i == k {
      assert lane[8 * k..8 * k + 8][j] == os[k][j];
    } else {
      WordAt(os[..k], i, j);
    }
  }

  lemma WordParts(os: seq<octet>)
    requires 0 < |os| <= 4
    ensures var k := |os| - 1;
      Word(os)[..8 * |os|] == Word(os[..k])[..8 * k] + os[k]
  {
    var k := |os| - 1;
    LastByte(os);
    WordFront(Word(os[..k]), k, os[k]);
    assert Word(os)[..8 * |os|] == Word(os)[..8 * k] + Word(os)[8 * k..8 * |os|];
  }

  lemma LastByte(os: seq<octet>)
    requires 0 < |os| <= 4
    ensures var k := |os| - 1;
      Word(os)[8 * k..8 * |os|] == os[k]
  {
    var k := |os| - 1;
    var slice := Word(os)[8 * k..8 * |os|];
    forall j | 0 <= j < 8
      ensures slice[j] == os[k][j]
    {
      WordAt(os, k, j);
    }
  }

  lemma WordFront(w: word, k: nat, o: octet)
    requires k <= 3
    ensures Xor(w, Lane(k, o))[..8 * k] == w[..8 * k]
  {
    forall i | 0 <= i < 8 * k
      ensures Xor(w, Lane(k, o))[i] == w[i]
    {
      assert !Lane(k, o)[i];
    }
  }

  lemma WordKernel(os: seq<octet>, i: nat)
    requires i < |os| <= 4 && Word(os) == Zeros(32)
    ensures os[i] == Zeros(8)
  {
    forall j | 0 <= j < 8
      ensures !os[i][j]
    {
      WordAt(os, i, j);
    }
  }

  // ---------- detection ----------

  lemma OctetsInjective(x: seq<byte>, y: seq<byte>)
    requires |x| == |y| && forall i :: 0 <= i < |x| ==> XorAll(Octets(x), Octets(y))[i] == Zeros(8)
    ensures x == y
  {
    Pow2Values();
    forall i | 0 <= i < |x|
      ensures x[i] == y[i]
    {
      var a, b := Bits(x[i], 8), Bits(y[i], 8);
      assert XorAll(Octets(x), Octets(y))[i] == Xor(a, b);
      SameIfXorZero(a, b);
      ValueOfBits(x[i], 8);
      ValueOfBits(y[i], 8);
    }
  }

  lemma SameIfXorZero(a: bits, b: bits)
    requires |a| == |b| && Xor(a, b) == Zeros(|a|)
    ensures a == b
  {
    forall i | 0 <= i < |a|
      ensures a[i] == b[i]
    {
      assert !Xor(a, b)[i];
    }
  }

  lemma ChecksumInjective(c: word, d: word)
    requires Value(Xor(c, AllOnes())) == Value(Xor(d, AllOnes()))
    ensures c == d
  {
    BitsOfValue(Xor(c, AllOnes()));
    BitsOfValue(Xor(d, AllOnes()));
    forall i | 0 <= i < 32
      ensures c[i] == d[i]
    {
      assert Xor(c, AllOnes())[i] == Xor(d, AllOnes())[i];
    }
  }

  /** Equal registers after a common suffix were equal before it. */
  lemma SuffixInjective(c: word, d: word, s: seq<octet>)
    requires Run(c, s) == Run(d, s)
    ensures c == d
  {
    RunLinear(c, d, s, s);
    assert Xor(Run(c, s), Run(d, s)) == Zeros(32);
    forall i | 0 <= i < |s|
      ensures XorAll(s, s)[i] == Zeros(8)
    {}
    RunKernel(Xor(c, d), XorAll(s, s));
    SameIfXorZero(c, d);
  }

  /** From one register, at most four bytes are recovered from where they lead. */
  lemma BurstInjective(c: word, x: seq<byte>, y: seq<byte>)
    requires |x| == |y| <= 4 && Run(c, Octets(x)) == Run(c, Octets(y))
    ensures x == y
  {
    var difference := XorAll(Octets(x), Octets(y));
    RunLinear(c, c, Octets(x), Octets(y));
    assert Xor(c, c) == Zeros(32);
    assert Xor(Run(c, Octets(x)), Run(c, Octets(y))) == Zeros(32);
    RunOfWord(difference);
    ShiftBitsKernel(Word(difference), 8 * |x|);
    forall i | 0 <= i < |x|
      ensures difference[i] == Zeros(8)
    {
      WordKernel(difference, i);
    }
    OctetsInjective(x, y);
  }

  lemma RunBoth(x: seq<byte>, y: seq<byte>)
    ensures Run(AllOnes(), Octets(x + y)) == Run(Run(AllOnes(), Octets(x)), Octets(y))
  {
    assert Octets(x + y) == Octets(x) + Octets(y);
    RunAppend(AllOnes(), Octets(x), Octets(y));
  }

  lemma RunThrough(prefix: seq<byte>, x: seq<byte>, suffix: seq<byte>)
    ensures Run(AllOnes(), Octets(prefix + x + suffix))
         == Run(Run(Run(AllOnes(), Octets(prefix)), Octets(x)), Octets(suffix))
  {
    RunBoth(prefix + x, suffix);
    RunBoth(prefix, x);
  }

  /** Any corruption confined to four consecutive bytes changes the checksum. */
  lemma BurstDetected(prefix: seq<byte>, x: seq<byte>, y: seq<byte>, suffix: seq<byte>)
    requires |x| == |y| <= 4 && x != y
    ensures Checksum(prefix + x + suffix) != Checksum(prefix + y + suffix)
  {
    if Checksum(prefix + x + suffix) == Checksum(prefix + y + suffix) {
      ChecksumInjective(Run(AllOnes(), Octets(prefix + x + suffix)), Run(AllOnes(), Octets(prefix + y + suffix)));
      RunBurst(prefix, x, y, suffix);
    }
  }

  // ---------- a string followed by its own checksum ----------

  lemma XorNeutral(a: bits)
    ensures Xor(a, Zeros(|a|)) == a && Xor(Zeros(|a|), a) == a
  {}

  lemma XorTwice(a: bits, b: bits)
    requires |a| == |b|
    ensures Xor(a, Xor(a, b)) == b
  {}

  function Quiet(n: nat): (os: seq<octet>)
    ensures |os| == n && forall i :: 0 <= i < n ==> os[i] == Zeros(8)
  {
    seq(n, _ => Zeros(8))
  }

  lemma XorAllNeutral(os: seq<octet>)
    ensures XorAll(Quiet(|os|), os) == os
  {
    forall i | 0 <= i < |os|
      ensures XorAll(Quiet(|os|), os)[i] == os[i]
    {
      XorNeutral(os[i]);
    }
  }

  /** The register is where its own shifts lead, plus where the bytes alone lead. */
  lemma RunSuperposed(c: word, os: seq<octet>)
    ensures Run(c, os) == Xor(ShiftBits(c, 8 * |os|), Run(Zeros(32), os))
  {
    RunLinear(c, Zeros(32), Quiet(|os|), os);
    XorNeutral(c);
    XorAllNeutral(os);
    RunQuiet(c, Quiet(|os|));
  }

  /** Feeding at most four bytes is shifting the register with those bytes added in. */
  lemma RunShort(c: word, os: seq<octet>)
    requires |os| <= 4
    ensures Run(c, os) == ShiftBits(Xor(c, Word(os)), 8 * |os|)
  {
    RunSuperposed(c, os);
    RunOfWord(os);
    ShiftBitsLinear(c, Word(os), 8 * |os|);
  }

  lemma FeedQuiet(c: word)
    ensures Feed(c, Zeros(8)) == ShiftBits(c, 8)
  {
    assert Xor(c, Top(Zeros(8))) == c;
  }

  lemma {:induction false} RunQuiet(c: word, os: seq<octet>)
    requires forall i :: 0 <= i < |os| ==> os[i] == Zeros(8)
    ensures Run(c, os) == ShiftBits(c, 8 * |os|)
    decreases |os|
  {
    if os != [] {
      var rest := os[1..];
      FeedQuiet(c);
      RunFirst(c, os);
      RunQuiet(Feed(c, os[0]), rest);
      ShiftBitsAdd(c, 8, 8 * |rest|);
    }
  }

  lemma SealCancels(c: word, os: seq<octet>)
    requires |os| <= 4 && Word(os) == Xor(c, AllOnes())
    ensures Run(c, os) == ShiftBits(AllOnes(), 8 * |os|)
  {
    RunShort(c, os);
    XorTwice(c, AllOnes());
  }

  lemma ChecksumBits(body: seq<byte>)
    ensures Bits(Checksum(body), 32) == Xor(Run(AllOnes(), Octets(body)), AllOnes())
    ensures Checksum(body) < 0x1_0000_0000
  {
    BitsOfValue(Xor(Run(AllOnes(), Octets(body)), AllOnes()));
    Pow2Values();
  }

  /** Every string that ends in its own checksum, as one big-endian word, drives the
      register to the same residue. */
  lemma Residue(body: seq<byte>, seal: seq<byte>)
    requires |seal| == 4 && Word(Octets(seal)) == Bits(Checksum(body), 32)
    ensures Run(AllOnes(), Octets(body + seal)) == ShiftBits(AllOnes(), 8 * |seal|)
  {
    RunBoth(body, seal);
    ChecksumBits(body);
    SealCancels(Run(AllOnes(), Octets(body)), Octets(seal));
  }

  lemma RunBurst(prefix: seq<byte>, x: seq<byte>, y: seq<byte>, suffix: seq<byte>)
    requires |x| == |y| <= 4
    requires Run(AllOnes(), Octets(prefix + x + suffix)) == Run(AllOnes(), Octets(prefix + y + suffix))
    ensures x == y
  {
    var c := Run(AllOnes(), Octets(prefix));
    RunThrough(prefix, x, suffix);
    RunThrough(prefix, y, suffix);
    SuffixInjective(Run(c, Octets(x)), Run(c, Octets(y)), Octets(suffix));
    BurstInjective(c, x, y);
  }
}
