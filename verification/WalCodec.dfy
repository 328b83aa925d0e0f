/** The binary form of one log entry: Entry.Marshal and UnmarshalWAL in pkg/wal/wal.go.

    An entry is Type(1) Timestamp(8) Sequence(8) KeyLen(2) Key DataLen(4) Data
    Checksum(4) TrailingCRC(4), all numbers big-endian.  The decoder tests fewer
    bounds than it reads: on some truncated inputs the source indexes past the end
    of the slice and panics, which `Decode` returns as an outcome of its own.
 */
module WalCodec {
  import opened Crc32
  import opened Powers

  type uint64 = n: nat | n < 0x1_0000_0000_0000_0000
  type uint32 = n: nat | n < 0x1_0000_0000
  type int64 = n: int | -0x8000_0000_0000_0000 <= n < 0x8000_0000_0000_0000

  datatype Entry = Entry(typ: byte, timestamp: int64, sequence: uint64, key: seq<byte>, data: seq<byte>, checksum: uint32)

  datatype Outcome = Decoded(entry: Entry) | Rejected | Panicked

  // ---------- big-endian numbers ----------

  /** The low `width` bytes of n, highest first. */
  function BigEndian(n: nat, width: nat): (s: seq<byte>)
    ensures |s| == width
  {
    if width == 0 then [] else BigEndian(n / 256, width - 1) + [n % 256]
  }

  function Number(s: seq<byte>): nat {
    if s == [] then 0 else 256 * Number(s[..|s| - 1]) + s[|s| - 1]
  }

  lemma {:induction false} NumberBound(s: seq<byte>)
    ensures Number(s) < Pow2(8 * |s|)
    decreases |s|
  {
    if s != [] {
      NumberBound(s[..|s| - 1]);
      Pow2Add(8, 8 * (|s| - 1));
      Pow2Values();
    }
  }

  lemma {:induction false} NumberOfBigEndian(n: nat, width: nat)
    requires n < Pow2(8 * width)
    ensures Number(BigEndian(n, width)) == n
    decreases width
  {
    if width > 0 {
      Pow2Add(8, 8 * (width - 1));
      Pow2Values();
      NumberOfBigEndian(n / 256, width - 1);
      assert BigEndian(n, width)[..width - 1] == BigEndian(n / 256, width - 1);
    }
  }

  lemma {:induction false} BigEndianOfNumber(s: seq<byte>)
    ensures BigEndian(Number(s), |s|) == s
    decreases |s|
  {
    if s != [] {
      BigEndianOfNumber(s[..|s| - 1]);
    }
  }

  lemma Pow2Of64()
    ensures Pow2(64) == 0x1_0000_0000_0000_0000
  {
    Pow2Values();
    Pow2Add(32, 32);
  }

  /** The two's complement view of a timestamp, and back. */
  function Unsigned(t: int64): uint64 {
    if t < 0 then t + 0x1_0000_0000_0000_0000 else t
  }

  function Signed(u: uint64): int64 {
    if u >= 0x8000_0000_0000_0000 then u - 0x1_0000_0000_0000_0000 else u
  }

  function Read64(s: seq<byte>): uint64
    requires |s| == 8
  {
    NumberBound(s);
    Pow2Of64();
    Number(s)
  }

  function Read32(s: seq<byte>): uint32
    requires |s| == 4
  {
    NumberBound(s);
    Pow2Values();
    Number(s)
  }

  function Read16(s: seq<byte>): (n: nat)
    requires |s| == 2
    ensures n < 0x1_0000
  {
    NumberBound(s);
    Pow2Values();
    Number(s)
  }

  // ---------- encoding ----------

  /** The length computed by the readers from a decoded entry. */
  function Length(e: Entry): nat {
    1 + 8 + 8 + 2 + |e.key| + 4 + |e.data| + 4 + 4
  }

  /** What the two length fields can hold. */
  predicate Fits(e: Entry) {
    |e.key| < 0x1_0000 && |e.data| < 0x1_0000_0000
  }

  function Header(e: Entry): (s: seq<byte>)
    ensures |s| == 19
  {
    [e.typ] + BigEndian(Unsigned(e.timestamp), 8) + BigEndian(e.sequence, 8) + BigEndian(|e.key|, 2)
  }

  /** All of an entry but its trailing checksum. */
  function Body(e: Entry): (s: seq<byte>)
    ensures |s| == Length(e) - 4
  {
    Header(e) + e.key + BigEndian(|e.data|, 4) + e.data + BigEndian(e.checksum, 4)
  }

  function Encoding(e: Entry): (s: seq<byte>)
    ensures |s| == Length(e)
  {
    Body(e) + BigEndian(Checksum(Body(e)), 4)
  }

  /** The number that bytes stand for, read from the left. */
  function FromLeft(s: seq<byte>, read: nat): nat
    decreases |s|
  {
    if s == [] then read else FromLeft(s[1..], 256 * read + s[0])
  }

  lemma {:induction false} NumberFromLeft(s: seq<byte>, t: seq<byte>)
    ensures FromLeft(t, Number(s)) == Number(s + t)
    decreases |t|
  {
    if t == [] {
      assert s + t == s;
    } else {
      assert (s + [t[0]])[..|s|] == s;
      assert s + [t[0]] + t[1..] == s + t;
      NumberFromLeft(s + [t[0]], t[1..]);
    }
  }

  lemma FieldReads(n: nat, width: nat)
    requires n < Pow2(8 * width)
    ensures FromLeft(BigEndian(n, width), 0) == n
  {
    NumberFromLeft([], BigEndian(n, width));
    assert [] + BigEndian(n, width) == BigEndian(n, width);
    NumberOfBigEndian(n, width);
  }

  /** What stands where in an encoded entry. */
  lemma Layout(e: Entry)
    requires Fits(e)
    ensures
      var s, k, d := Encoding(e), |e.key|, |e.data|;
      && |s| == 31 + k + d && s[0] == e.typ
      && FromLeft(s[1..9], 0) == (if e.timestamp < 0 then e.timestamp + 0x1_0000_0000_0000_0000 else e.timestamp)
      && FromLeft(s[9..17], 0) == e.sequence
      && FromLeft(s[17..19], 0) == k && s[19..19 + k] == e.key
      && FromLeft(s[19 + k..23 + k], 0) == d && s[23 + k..23 + k + d] == e.data
      && FromLeft(s[23 + k + d..27 + k + d], 0) == e.checksum
      && FromLeft(s[27 + k + d..], 0) == Checksum(s[..27 + k + d])
  {
    var s, k, d := Encoding(e), |e.key|, |e.data|;
    Pow2Values();
    Pow2Of64();
    ChecksumBits(Body(e));
    FieldReads(Unsigned(e.timestamp), 8);
    FieldReads(e.sequence, 8);
    FieldReads(k, 2);
    FieldReads(d, 4);
    FieldReads(e.checksum, 4);
    FieldReads(Checksum(Body(e)), 4);
    Slices(e);
  }

  lemma Slices(e: Entry)
    ensures
      var s, k, d := Encoding(e), |e.key|, |e.data|;
      && s[0] == e.typ && s[1..9] == BigEndian(Unsigned(e.timestamp), 8) && s[9..17] == BigEndian(e.sequence, 8)
      && s[17..19] == BigEndian(k, 2) && s[19..19 + k] == e.key
      && s[19 + k..23 + k] == BigEndian(d, 4) && s[23 + k..23 + k + d] == e.data
      && s[23 + k + d..27 + k + d] == BigEndian(e.checksum, 4)
      && s[27 + k + d..] == BigEndian(Checksum(Body(e)), 4) && s[..27 + k + d] == Body(e)
  {
    var s, k, d := Encoding(e), |e.key|, |e.data|;
    var h := Header(e);
    assert s[..27 + k + d] == Body(e);
    HeaderSlices(e);
    assert s[..19] == h;
    assert s[1..9] == h[1..9] && s[9..17] == h[9..17] && s[17..19] == h[17..19];
  }

  lemma HeaderSlices(e: Entry)
    ensures
      var h := Header(e);
      && h[0] == e.typ && h[1..9] == BigEndian(Unsigned(e.timestamp), 8) && h[9..17] == BigEndian(e.sequence, 8)
      && h[17..19] == BigEndian(|e.key|, 2)
  {
  }

  method PutUint(buf: array<byte>, at: nat, n: nat, width: nat)
    requires at + width <= buf.Length
    modifies buf
    ensures buf[..at + width] == old(buf[..at]) + BigEndian(n, width)
  {
    var rest := n;
    var i := width;
    while i > 0
      invariant 0 <= i <= width
      invariant buf[..at] == old(buf[..at])
      invariant BigEndian(n, width) == BigEndian(rest, i) + buf[at + i..at + width]
    {
      i := i - 1;
      ghost var tail := buf[at + i + 1..at + width];
      buf[at + i] := rest % 256;
      assert buf[at + i..at + width] == [rest % 256] + tail;
      rest := rest / 256;
    }
    assert buf[..at + width] == buf[..at] + buf[at..at + width];
  }

  method CopyInto(buf: array<byte>, at: nat, s: seq<byte>)
    requires at + |s| <= buf.Length
    modifies buf
    ensures buf[..at + |s|] == old(buf[..at]) + s
  {
    for i := 0 to |s|
      invariant buf[..at + i] == old(buf[..at]) + s[..i]
    {
      buf[at + i] := s[i];
      assert buf[..at + i + 1] == buf[..at + i] + [s[i]];
    }
  }

  method PutHeader(buf: array<byte>, e: Entry)
    requires buf.Length >= 19
    modifies buf
    ensures buf[..19] == Header(e)
  {
    var offset := 0;
    buf[offset] := e.typ;
    offset := offset + 1;
    assert buf[..offset] == [e.typ];
    PutUint(buf, offset, Unsigned(e.timestamp), 8);
    offset := offset + 8;
    PutUint(buf, offset, e.sequence, 8);
    offset := offset + 8;
    PutUint(buf, offset, |e.key|, 2);
  }

  method Marshal(e: Entry) returns (buf: array<byte>)
    ensures fresh(buf) && buf[..] == Encoding(e)
  {
    var keyLen, dataLen := |e.key|, |e.data|;
    buf := new byte[1 + 8 + 8 + 2 + keyLen + 4 + dataLen + 4 + 4];
    PutHeader(buf, e);
    var offset := 1 + 8 + 8 + 2;
    CopyInto(buf, offset, e.key);
    offset := offset + keyLen;
    assert buf[..offset] == Header(e) + e.key;
    PutUint(buf, offset, dataLen, 4);
    offset := offset + 4;
    CopyInto(buf, offset, e.data);
    offset := offset + dataLen;
    PutUint(buf, offset, e.checksum, 4);
    offset := offset + 4;
    assert buf[..offset] == Body(e);
    var sum := Compute(buf[..offset]);
    PutUint(buf, offset, sum, 4);
    assert buf[..] == buf[..offset + 4];
  }

  // ---------- decoding ----------

  datatype Frame = Framed(k: nat, d: nat) | Short | Overrun

  /** The bounds tests of the decoder, in its order: the key and data lengths of the
      entry at the start of `data`, or how the decoder stops. */
  function FrameOf(data: seq<byte>): (f: Frame)
    ensures f.Framed? ==> 31 + f.k + f.d <= |data| && f.k < 0x1_0000 && f.d < 0x1_0000_0000
  {
    if |data| < 1 + 8 + 8 + 2 + 4 + 4 + 4 then Short
    else
      var k := Read16(data[17..19]);
      if 19 + k > |data| then Short
      else if 23 + k > |data| then Overrun
      else
        var d := Read32(data[19 + k..23 + k]);
        if 23 + k + d + 4 > |data| then Short
        else if 31 + k + d > |data| then Overrun
        else Framed(k, d)
  }

  /** `s` ends in the checksum of what precedes it. */
  predicate Sealed(s: seq<byte>) {
    |s| >= 4 && Number(s[|s| - 4..]) == Checksum(s[..|s| - 4])
  }

  /** The fields of an entry at the start of `data`, by the positions they are read from. */
  function EntryAt(data: seq<byte>, k: nat, d: nat): Entry
    requires 31 + k + d <= |data|
  {
    Entry(data[0], Signed(Read64(data[1..9])), Read64(data[9..17]), data[19..19 + k],
          data[23 + k..23 + k + d], Read32(data[23 + k + d..27 + k + d]))
  }

  function Decode(data: seq<byte>): (o: Outcome)
    ensures o.Decoded? ==> Length(o.entry) <= |data| && Fits(o.entry)
  {
    match FrameOf(data)
    case Short => Rejected
    case Overrun => Panicked
    case Framed(k, d) =>
      var s := data[..31 + k + d];
      if Sealed(s) then Decoded(EntryAt(s, k, d)) else Rejected
  }

  method Unmarshal(data: seq<byte>) returns (o: Outcome)
    ensures o == Decode(data)
  {
    if |data| < 1 + 8 + 8 + 2 + 4 + 4 + 4 {
      return Rejected;
    }
    var offset := 0;
    var typ := data[0];
    offset := offset + 1;
    var timestamp := Signed(Read64(data[offset..offset + 8]));
    offset := offset + 8;
    var sequence := Read64(data[offset..offset + 8]);
    offset := offset + 8;
    var keyLen := Read16(data[offset..offset + 2]);
    offset := offset + 2;
    if offset + keyLen > |data| {
      return Rejected;
    }
    var key := data[offset..offset + keyLen];
    offset := offset + keyLen;
    if offset + 4 > |data| {
      return Panicked;
    }
    var dataLen := Read32(data[offset..offset + 4]);
    offset := offset + 4;
    if offset + dataLen + 4 > |data| {
      return Rejected;
    }
    var payload := data[offset..offset + dataLen];
    offset := offset + dataLen;
    var checksum := Read32(data[offset..offset + 4]);
    offset := offset + 4;
    if offset + 4 > |data| {
      return Panicked;
    }
    var storedCRC := Read32(data[offset..offset + 4]);
    var calculatedCRC := Compute(data[..offset]);
    DecodeByPosition(data, keyLen, dataLen);
    if storedCRC != calculatedCRC {
      return Rejected;
    }
    return Decoded(Entry(typ, timestamp, sequence, key, payload, checksum));
  }

  lemma DecodeByPosition(data: seq<byte>, k: nat, d: nat)
    requires FrameOf(data) == Framed(k, d)
    ensures Decode(data) ==
            if Number(data[27 + k + d..31 + k + d]) != Checksum(data[..27 + k + d]) then Rejected
            else Decoded(EntryAt(data, k, d))
  {
    FieldsByPosition(data, k, d);
    SealByPosition(data, 31 + k + d);
  }

  lemma SealByPosition(data: seq<byte>, n: nat)
    requires 4 <= n <= |data|
    ensures Sealed(data[..n]) <==> Number(data[n - 4..n]) == Checksum(data[..n - 4])
  {
    var s := data[..n];
    assert s[n - 4..] == data[n - 4..n] && s[..n - 4] == data[..n - 4];
  }

  lemma FieldsByPosition(data: seq<byte>, k: nat, d: nat)
    requires 31 + k + d <= |data|
    ensures EntryAt(data[..31 + k + d], k, d) == EntryAt(data, k, d)
  {
    var s := data[..31 + k + d];
    assert s[1..9] == data[1..9] && s[9..17] == data[9..17] && s[19..19 + k] == data[19..19 + k];
    assert s[23 + k..23 + k + d] == data[23 + k..23 + k + d];
    assert s[23 + k + d..27 + k + d] == data[23 + k + d..27 + k + d];
  }

  // ---------- round trip ----------

  lemma NumbersBack(e: Entry)
    requires Fits(e)
    ensures Number(BigEndian(Unsigned(e.timestamp), 8)) == Unsigned(e.timestamp)
    ensures Number(BigEndian(e.sequence, 8)) == e.sequence
    ensures Number(BigEndian(|e.key|, 2)) == |e.key|
    ensures Number(BigEndian(|e.data|, 4)) == |e.data|
    ensures Number(BigEndian(e.checksum, 4)) == e.checksum
  {
    Pow2Values();
    Pow2Of64();
    NumberOfBigEndian(Unsigned(e.timestamp), 8);
    NumberOfBigEndian(e.sequence, 8);
    NumberOfBigEndian(|e.key|, 2);
    NumberOfBigEndian(|e.data|, 4);
    NumberOfBigEndian(e.checksum, 4);
  }

  lemma SealBack(body: seq<byte>)
    ensures Number(BigEndian(Checksum(body), 4)) == Checksum(body)
  {
    ChecksumBits(body);
    Pow2Values();
    NumberOfBigEndian(Checksum(body), 4);
  }

  lemma HeaderLayout(e: Entry)
    ensures var h := Header(e);
      && h[0] == e.typ
      && h[1..9] == BigEndian(Unsigned(e.timestamp), 8)
      && h[9..17] == BigEndian(e.sequence, 8)
      && h[17..19] == BigEndian(|e.key|, 2)
  {}

  lemma BodyLayout(e: Entry)
    ensures var b, k, d := Body(e), |e.key|, |e.data|;
      && b[..19] == Header(e)
      && b[19..19 + k] == e.key
      && b[19 + k..23 + k] == BigEndian(d, 4)
      && b[23 + k..23 + k + d] == e.data
      && b[23 + k + d..] == BigEndian(e.checksum, 4)
  {}

  /** `data` agrees with the first n bytes of the encoding of e. */
  ghost predicate Agrees(data: seq<byte>, e: Entry, n: nat) {
    n <= |data| && n <= Length(e) && data[..n] == Encoding(e)[..n]
  }

  lemma SameSlice(a: seq<byte>, b: seq<byte>, n: nat, lo: nat, hi: nat)
    requires lo <= hi <= n <= |a| && n <= |b| && a[..n] == b[..n]
    ensures a[lo..hi] == b[lo..hi]
  {
    assert a[..n][lo..hi] == a[lo..hi] && b[..n][lo..hi] == b[lo..hi];
  }

  lemma KeyLengthRead(data: seq<byte>, e: Entry, n: nat)
    requires Fits(e) && Agrees(data, e, n) && 19 <= n
    ensures Read16(data[17..19]) == |e.key|
  {
    SameSlice(data, Encoding(e), n, 17, 19);
    SameSlice(Encoding(e), Body(e), 19, 17, 19);
    BodyLayout(e);
    SameSlice(Body(e), Header(e), 19, 17, 19);
    HeaderLayout(e);
    NumbersBack(e);
  }

  lemma DataLengthRead(data: seq<byte>, e: Entry, n: nat)
    requires Fits(e) && Agrees(data, e, n) && 23 + |e.key| <= n
    ensures Read32(data[19 + |e.key|..23 + |e.key|]) == |e.data|
  {
    var k := |e.key|;
    SameSlice(data, Encoding(e), n, 19 + k, 23 + k);
    SameSlice(Encoding(e), Body(e), 23 + k, 19 + k, 23 + k);
    BodyLayout(e);
    NumbersBack(e);
  }

  lemma FrameRead(data: seq<byte>, e: Entry)
    requires Fits(e) && Agrees(data, e, Length(e))
    ensures FrameOf(data) == Framed(|e.key|, |e.data|)
  {
    KeyLengthRead(data, e, Length(e));
    DataLengthRead(data, e, Length(e));
  }

  lemma FieldsRead(e: Entry)
    requires Fits(e)
    ensures EntryAt(Encoding(e), |e.key|, |e.data|) == e
  {
    var s, b, k, d := Encoding(e), Body(e), |e.key|, |e.data|;
    var n := 27 + k + d;
    assert s[..n] == b == b[..n];
    BodyLayout(e);
    HeaderLayout(e);
    NumbersBack(e);
    assert s[0] == b[0] == b[..19][0];
    SameSlice(s, b, n, 1, 9);
    SameSlice(b, Header(e), 19, 1, 9);
    SameSlice(s, b, n, 9, 17);
    SameSlice(b, Header(e), 19, 9, 17);
    SameSlice(s, b, n, 19, 19 + k);
    SameSlice(s, b, n, 23 + k, 23 + k + d);
    SameSlice(s, b, n, 23 + k + d, n);
  }

  lemma EncodingSealed(e: Entry)
    ensures Sealed(Encoding(e))
  {
    SealBack(Body(e));
    var s := Encoding(e);
    assert s[..|s| - 4] == Body(e) && s[|s| - 4..] == BigEndian(Checksum(Body(e)), 4);
  }

  /** Decoding recovers an entry, whatever follows it in the file, exactly when the
      length fields can hold its lengths. */
  lemma RoundTrip(e: Entry, rest: seq<byte>)
    ensures Decode(Encoding(e) + rest) == Decoded(e) <==> Fits(e)
  {
    if Fits(e) { FitsRoundTrip(e, rest); }
  }

  lemma FitsRoundTrip(e: Entry, rest: seq<byte>)
    requires Fits(e)
    ensures Decode(Encoding(e) + rest) == Decoded(e)
  {
    var data := Encoding(e) + rest;
    assert data[..Length(e)] == Encoding(e) == Encoding(e)[..Length(e)];
    FrameRead(data, e);
    EncodingSealed(e);
    FieldsRead(e);
  }

  // ---------- torn entries ----------

  /** The cuts of an encoding at which the decoder reads past the end: inside the
      data length or inside the trailing checksum, once the first length test passes. */
  predicate PanicCut(e: Entry, cut: nat) {
    && 31 <= cut < Length(e)
    && (19 + |e.key| <= cut < 23 + |e.key| || 27 + |e.key| + |e.data| <= cut)
  }

  /** No proper prefix of an encoding decodes; exactly the panic cuts panic. */
  lemma TornEntry(e: Entry, cut: nat)
    requires Fits(e) && cut < Length(e)
    ensures Decode(Encoding(e)[..cut]) == if PanicCut(e, cut) then Panicked else Rejected
  {
    var data := Encoding(e)[..cut];
    if 31 <= cut {
      assert data[..cut] == Encoding(e)[..cut];
      KeyLengthRead(data, e, cut);
      if 23 + |e.key| <= cut {
        DataLengthRead(data, e, cut);
      }
    }
  }

  // ---------- damaged entries ----------

  /** Four big-endian bytes are the bits of the number. */
  lemma {:induction false} BigEndianBits(n: nat, width: nat)
    requires width <= 4
    ensures Word(Octets(BigEndian(n, width)))[..8 * width] == Bits(n, 8 * width)
    decreases width
  {
    if width > 0 {
      var k := width - 1;
      var front, os := BigEndian(n / 256, k), Octets(BigEndian(n, width));
      assert os[..k] == Octets(front) && os[k] == Bits(n % 256, 8);
      BigEndianBits(n / 256, k);
      WordParts(os);
      ByteBits(n, 8 * k);
    }
  }

  lemma ByteBits(n: nat, v: nat)
    ensures Bits(n, v + 8) == Bits(n / 256, v) + Bits(n % 256, 8)
  {
    Pow2Values();
    BitsJoin(n / 256, n % 256, v, 8);
  }

  lemma SealedResidue(s: seq<byte>)
    requires Sealed(s)
    ensures Run(AllOnes(), Octets(s)) == ShiftBits(AllOnes(), 32)
  {
    var body, seal := s[..|s| - 4], s[|s| - 4..];
    BigEndianOfNumber(seal);
    BigEndianBits(Checksum(body), 4);
    Residue(body, seal);
    assert s == body + seal;
  }

  /** Two sealed strings that differ only within four consecutive bytes are equal. */
  lemma SealedBurst(prefix: seq<byte>, x: seq<byte>, y: seq<byte>, suffix: seq<byte>)
    requires |x| == |y| <= 4
    requires Sealed(prefix + x + suffix) && Sealed(prefix + y + suffix)
    ensures x == y
  {
    SealedResidue(prefix + x + suffix);
    SealedResidue(prefix + y + suffix);
    RunBurst(prefix, x, y, suffix);
  }

  /** Damage to at most four consecutive bytes of an entry, its trailing checksum
      included and its two length fields excluded, is always rejected. */
  lemma DamageRejected(e: Entry, prefix: seq<byte>, x: seq<byte>, y: seq<byte>, suffix: seq<byte>, rest: seq<byte>)
    requires Fits(e)
    requires Encoding(e) == prefix + x + suffix && |x| == |y| <= 4 && x != y
    requires |prefix| + |x| <= 17
          || (19 <= |prefix| && |prefix| + |x| <= 19 + |e.key|)
          || 23 + |e.key| <= |prefix|
    ensures Decode(prefix + y + suffix + rest) == Rejected
  {
    var damaged := prefix + y + suffix;
    EncodingSealed(e);
    if Sealed(damaged) {
      SealedBurst(prefix, x, y, suffix);
      assert false;
    }
    DamagedFrame(e, prefix, x, y, suffix, rest);
    assert (damaged + rest)[..Length(e)] == damaged;
  }

  lemma DamagedFrame(e: Entry, prefix: seq<byte>, x: seq<byte>, y: seq<byte>, suffix: seq<byte>, rest: seq<byte>)
    requires Fits(e)
    requires Encoding(e) == prefix + x + suffix && |x| == |y|
    requires |prefix| + |x| <= 17
          || (19 <= |prefix| && |prefix| + |x| <= 19 + |e.key|)
          || 23 + |e.key| <= |prefix|
    ensures FrameOf(prefix + y + suffix + rest) == Framed(|e.key|, |e.data|)
  {
    var s, data, k := Encoding(e), prefix + y + suffix + rest, |e.key|;
    OutsideWindow(prefix, x, y, suffix, rest, 17, 19);
    OutsideWindow(prefix, x, y, suffix, rest, 19 + k, 23 + k);
    assert s[..Length(e)] == s;
    KeyLengthRead(s, e, Length(e));
    DataLengthRead(s, e, Length(e));
  }

  lemma OutsideWindow(prefix: seq<byte>, x: seq<byte>, y: seq<byte>, suffix: seq<byte>, rest: seq<byte>, lo: nat, hi: nat)
    requires |x| == |y| && lo <= hi <= |prefix + x + suffix|
    requires hi <= |prefix| || |prefix| + |x| <= lo
    ensures (prefix + y + suffix + rest)[lo..hi] == (prefix + x + suffix)[lo..hi]
  {}
}
