/** The rotating log: Writer and Reader in pkg/wal/wal.go.

    A directory maps the number n of each log file, named FileName(n), to its bytes.
    The writer appends encoded entries to its active file and starts the next file when
    the active one is full; the reader puts the file names in byte order and decodes the
    files one after another.  This layer is
    stated for any entry format that keeps the laws of `Lawful`; `WalIsLawful` shows
    that the format of the source does.
 */
module WalLog {
  import opened Crc32
  import opened WalCodec
  import opened FileNames
  import opened Graph

  type Files = map<nat, seq<byte>>

  /** What the log uses of the entry format: the checksum, Marshal, UnmarshalWAL, and
      the cuts of an encoding at which decoding panics. */
  datatype Codec = Codec(
    sum: seq<byte> -> uint32, enc: Entry -> seq<byte>, dec: seq<byte> -> Outcome, crashes: (Entry, nat) -> bool)

  ghost predicate Lawful(c: Codec) {
    && (forall e :: |c.enc(e)| == Length(e))
    && (forall e, rest {:trigger c.enc(e) + rest} :: Fits(e) ==> c.dec(c.enc(e) + rest) == Decoded(e))
    && (forall e, cut: nat {:trigger c.enc(e)[..cut]} :: Fits(e) && cut < Length(e) ==>
          c.dec(c.enc(e)[..cut]) == if c.crashes(e, cut) then Panicked else Rejected)
    && (forall data :: c.dec(data).Decoded? ==> Length(c.dec(data).entry) <= |data|)
  }

  function Sum(data: seq<byte>): uint32 {
    ChecksumBits(data);
    Checksum(data)
  }

  /** The format of the source. */
  const WAL: Codec := Codec(
    (data: seq<byte>) => Sum(data), (e: Entry) => Encoding(e), (data: seq<byte>) => Decode(data),
    (e: Entry, cut: nat) => PanicCut(e, cut))

  lemma WalIsLawful()
    ensures Lawful(WAL)
  {
    forall e, rest | Fits(e)
      ensures WAL.dec(WAL.enc(e) + rest) == Decoded(e)
    {
      WalRoundTrip(e, rest);
    }
    forall e, cut: nat | Fits(e) && cut < Length(e)
      ensures WAL.dec(WAL.enc(e)[..cut]) == if WAL.crashes(e, cut) then Panicked else Rejected
    {
      WalTorn(e, cut);
    }
  }

  lemma WalRoundTrip(e: Entry, rest: seq<byte>)
    requires Fits(e)
    ensures WAL.dec(WAL.enc(e) + rest) == Decoded(e)
  {
    FitsRoundTrip(e, rest);
  }

  lemma WalTorn(e: Entry, cut: nat)
    requires Fits(e) && cut < Length(e)
    ensures |WAL.enc(e)| == Length(e)
    ensures WAL.dec(WAL.enc(e)[..cut]) == if WAL.crashes(e, cut) then Panicked else Rejected
  {
    TornEntry(e, cut);
  }

  // ---------- the bytes of several entries ----------

  function EncodeAll(c: Codec, es: seq<Entry>): seq<byte> {
    if es == [] then [] else c.enc(es[0]) + EncodeAll(c, es[1..])
  }

  datatype FileRead = Read(es: seq<Entry>) | Crashed

  /** The entries of one file up to the first one that is rejected. */
  function DecodeAll(c: Codec, data: seq<byte>): FileRead
    requires Lawful(c)
    decreases |data|
  {
    if data == [] then Read([])
    else
      match c.dec(data)
      case Rejected => Read([])
      case Panicked => Crashed
      case Decoded(e) => After([e], DecodeAll(c, data[Length(e)..]))
  }

  function After(es: seq<Entry>, r: FileRead): FileRead {
    if r.Read? then Read(es + r.es) else Crashed
  }

  ghost predicate AllFit(es: seq<Entry>) {
    forall e :: e in es ==> Fits(e)
  }

  lemma {:induction false} EncodeAppend(c: Codec, es: seq<Entry>, fs: seq<Entry>)
    ensures EncodeAll(c, es + fs) == EncodeAll(c, es) + EncodeAll(c, fs)
    decreases |es|
  {
    if es == [] {
      assert es + fs == fs;
    } else {
      EncodeAppend(c, es[1..], fs);
      assert (es + fs)[1..] == es[1..] + fs;
    }
  }

  lemma EncodeOne(c: Codec, e: Entry)
    ensures EncodeAll(c, [e]) == c.enc(e)
  {
    assert EncodeAll(c, [e]) == c.enc(e) + EncodeAll(c, [e][1..]);
  }

  lemma DecodeFirst(c: Codec, e: Entry, rest: seq<byte>)
    requires Lawful(c) && Fits(e)
    ensures DecodeAll(c, c.enc(e) + rest) == After([e], DecodeAll(c, rest))
  {
    var data := c.enc(e) + rest;
    assert c.dec(data) == Decoded(e);
    assert |c.enc(e)| == Length(e);
    assert data[Length(e)..] == rest;
  }

  /** Whole entries are read back in order, and reading goes on behind them. */
  lemma {:induction false} ReadPast(c: Codec, es: seq<Entry>, rest: seq<byte>)
    requires Lawful(c) && AllFit(es)
    ensures DecodeAll(c, EncodeAll(c, es) + rest) == After(es, DecodeAll(c, rest))
    decreases |es|
  {
    if es == [] {
      assert EncodeAll(c, es) + rest == rest;
    } else {
      var e := es[0];
      var more := EncodeAll(c, es[1..]) + rest;
      assert EncodeAll(c, es) + rest == c.enc(e) + more;
      DecodeFirst(c, e, more);
      ReadPast(c, es[1..], rest);
      AfterAfter([e], es[1..], DecodeAll(c, rest));
      assert es == [e] + es[1..];
    }
  }

  lemma ReadBack(c: Codec, es: seq<Entry>)
    requires Lawful(c) && AllFit(es)
    ensures DecodeAll(c, EncodeAll(c, es)) == Read(es)
  {
    ReadPast(c, es, []);
    assert EncodeAll(c, es) + [] == EncodeAll(c, es);
  }

  // ---------- torn files ----------

  /** A file cut at byte `cut` holds `whole` entries and `torn` bytes of the next. */
  ghost predicate CutAt(c: Codec, es: seq<Entry>, cut: nat, whole: nat, torn: nat) {
    && whole <= |es|
    && cut == |EncodeAll(c, es[..whole])| + torn
    && (if whole == |es| then torn == 0 else torn < |c.enc(es[whole])|)
  }

  lemma {:induction false} CutExists(c: Codec, es: seq<Entry>, cut: nat) returns (whole: nat, torn: nat)
    requires cut <= |EncodeAll(c, es)|
    ensures CutAt(c, es, cut, whole, torn)
    decreases |es|
  {
    if es == [] {
      whole, torn := 0, 0;
    } else if cut < |c.enc(es[0])| {
      whole, torn := 0, cut;
    } else {
      whole, torn := CutExists(c, es[1..], cut - |c.enc(es[0])|);
      var rest := es[1..][..whole];
      whole := whole + 1;
      assert es[..whole] == [es[0]] + rest;
      EncodeAppend(c, [es[0]], rest);
      EncodeOne(c, es[0]);
    }
  }

  /** Cutting a log file anywhere leaves exactly the whole entries before the cut,
      unless the cut is one at which the decoder panics. */
  lemma TornFile(c: Codec, es: seq<Entry>, cut: nat, whole: nat, torn: nat)
    requires Lawful(c) && AllFit(es) && cut <= |EncodeAll(c, es)| && CutAt(c, es, cut, whole, torn)
    ensures DecodeAll(c, EncodeAll(c, es)[..cut]) ==
            if torn > 0 && c.crashes(es[whole], torn) then Crashed else Read(es[..whole])
  {
    var front := es[..whole];
    CutBytes(c, es, cut, whole, torn);
    if torn == 0 {
      assert EncodeAll(c, front) + [] == EncodeAll(c, front);
      ReadBack(c, front);
    } else {
      TornTail(c, es[whole], torn);
      ReadPast(c, front, c.enc(es[whole])[..torn]);
      assert front + [] == front;
    }
  }

  lemma TornTail(c: Codec, e: Entry, torn: nat)
    requires Lawful(c) && Fits(e) && 0 < torn < |c.enc(e)|
    ensures DecodeAll(c, c.enc(e)[..torn]) == if c.crashes(e, torn) then Crashed else Read([])
  {
    assert |c.enc(e)| == Length(e);
    assert c.enc(e)[..torn] != [];
  }

  lemma CutBytes(c: Codec, es: seq<Entry>, cut: nat, whole: nat, torn: nat)
    requires cut <= |EncodeAll(c, es)| && CutAt(c, es, cut, whole, torn)
    ensures EncodeAll(c, es)[..cut] ==
            EncodeAll(c, es[..whole]) + (if torn == 0 then [] else c.enc(es[whole])[..torn])
  {
    var front, back := es[..whole], es[whole..];
    assert es == front + back;
    EncodeAppend(c, front, back);
    if torn > 0 {
      assert EncodeAll(c, back) == c.enc(es[whole]) + EncodeAll(c, back[1..]);
    }
  }

  /** A torn append at one of those cuts takes the reader down with it. */
  lemma TornEntryCrashes(c: Codec, e: Entry, torn: nat)
    requires Lawful(c) && Fits(e) && 0 < torn < |c.enc(e)| && c.crashes(e, torn)
    ensures DecodeAll(c, EncodeAll(c, [e])[..torn]) == Crashed
  {
    EncodeOne(c, e);
    TornTail(c, e, torn);
  }

  /** In the format of the source, losing the last byte of any entry that has a key or
      data is such a cut. */
  lemma LastByteCrashes(e: Entry)
    requires |e.key| + |e.data| > 0
    ensures WAL.crashes(e, Length(e) - 1)
  {}

  // ---------- reading files ----------

  datatype LogRead = Entries(es: seq<Entry>) | ReadError | Panic

  function ReadFiles(c: Codec, fs: Files, ns: seq<nat>): LogRead
    requires Lawful(c)
  {
    if ns == [] then Entries([])
    else if ns[0] !in fs then ReadError
    else
      match DecodeAll(c, fs[ns[0]])
      case Crashed => Panic
      case Read(es) => Then(es, ReadFiles(c, fs, ns[1..]))
  }

  function Then(es: seq<Entry>, r: LogRead): LogRead {
    if r.Entries? then Entries(es + r.es) else r
  }

  function AtLeast(es: seq<Entry>, from: nat): seq<Entry> {
    if es == [] then []
    else (if es[0].sequence >= from then [es[0]] else []) + AtLeast(es[1..], from)
  }

  datatype FileRange = FileRange(file: nat, minSeq: nat, maxSeq: nat)

  /** `lo` and `hi` are the least and greatest sequence numbers of es, both 0 for none. */
  ghost predicate IsRange(es: seq<Entry>, lo: nat, hi: nat) {
    if es == [] then lo == hi == 0
    else
      && (forall e :: e in es ==> lo <= e.sequence <= hi)
      && (exists e :: e in es && e.sequence == lo)
      && (exists e :: e in es && e.sequence == hi)
  }

  ghost predicate Positive(es: seq<Entry>) {
    forall e :: e in es ==> e.sequence > 0
  }

  /** `ranges` lists, in order, the ranges of the files that hold an entry. */
  ghost predicate RangesOf(c: Codec, fs: Files, ns: seq<nat>, ranges: seq<FileRange>)
    requires Lawful(c)
  {
    if ns == [] then ranges == []
    else
      var k := |ns| - 1;
      && ns[k] in fs
      && RangesStep(DecodeAll(c, fs[ns[k]]), ns[k], ranges)
      && RangesOf(c, fs, ns[..k], if LastIs(ranges, ns[k]) then ranges[..|ranges| - 1] else ranges)
  }

  ghost predicate LastIs(ranges: seq<FileRange>, n: nat) {
    ranges != [] && ranges[|ranges| - 1].file == n
  }

  ghost predicate RangesStep(r: FileRead, n: nat, ranges: seq<FileRange>) {
    && r.Read?
    && if LastIs(ranges, n) then
         var last := ranges[|ranges| - 1];
         last.maxSeq > 0 && (Positive(r.es) ==> IsRange(r.es, last.minSeq, last.maxSeq))
       else
         forall e :: e in r.es ==> e.sequence == 0
  }

  class Directory {
    var files: Files

    constructor ()
      ensures files == map[]
    {
      files := map[];
    }
  }

  method DecodeFile(c: Codec, data: seq<byte>) returns (r: FileRead)
    requires Lawful(c)
    ensures r == DecodeAll(c, data)
  {
    var entries: seq<Entry> := [];
    var offset := 0;
    while offset < |data|
      invariant 0 <= offset <= |data|
      invariant DecodeAll(c, data) == After(entries, DecodeAll(c, data[offset..]))
      decreases |data| - offset
    {
      var o := c.dec(data[offset..]);
      match o {
        case Rejected => break;
        case Panicked => return Crashed;
        case Decoded(entry) =>
          assert data[offset..][Length(entry)..] == data[offset + Length(entry)..];
          AfterAfter(entries, [entry], DecodeAll(c, data[offset + Length(entry)..]));
          entries := entries + [entry];
          offset := offset + (1 + 8 + 8 + 2 + |entry.key| + 4 + |entry.data| + 4 + 4);
      }
    }
    r := Read(entries);
  }

  lemma AfterAfter(es: seq<Entry>, fs: seq<Entry>, r: FileRead)
    ensures After(es, After(fs, r)) == After(es + fs, r)
  {
    if r.Read? { assert es + (fs + r.es) == (es + fs) + r.es; }
  }

  ghost predicate Scanned(es: seq<Entry>, lo: nat, hi: nat) {
    && (Positive(es) ==> IsRange(es, lo, hi))
    && (forall e :: e in es ==> e.sequence <= hi)
  }

  method ScanFile(c: Codec, data: seq<byte>) returns (crashed: bool, lo: nat, hi: nat)
    requires Lawful(c)
    ensures crashed <==> DecodeAll(c, data) == Crashed
    ensures !crashed ==> Scanned(DecodeAll(c, data).es, lo, hi)
  {
    lo, hi := 0, 0;
    var offset := 0;
    ghost var entries: seq<Entry> := [];
    while offset < |data|
      invariant 0 <= offset <= |data|
      invariant DecodeAll(c, data) == After(entries, DecodeAll(c, data[offset..]))
      invariant Scanned(entries, lo, hi)
      decreases |data| - offset
    {
      var o := c.dec(data[offset..]);
      match o {
        case Rejected => break;
        case Panicked => return true, lo, hi;
        case Decoded(entry) =>
          assert data[offset..][Length(entry)..] == data[offset + Length(entry)..];
          AfterAfter(entries, [entry], DecodeAll(c, data[offset + Length(entry)..]));
          ScanStep(entries, entry, lo, hi);
          entries := entries + [entry];
          if lo == 0 || entry.sequence < lo {
            lo := entry.sequence;
          }
          if entry.sequence > hi {
            hi := entry.sequence;
          }
          offset := offset + (1 + 8 + 8 + 2 + |entry.key| + 4 + |entry.data| + 4 + 4);
      }
    }
    crashed := false;
    assert entries + [] == entries;
  }

  lemma ScanStep(es: seq<Entry>, e: Entry, lo: nat, hi: nat)
    requires Scanned(es, lo, hi)
    ensures Scanned(es + [e], if lo == 0 || e.sequence < lo then e.sequence else lo,
                    if e.sequence > hi then e.sequence else hi)
  {
    RangeGrows(es, e, lo, hi);
  }

  lemma RangeGrows(es: seq<Entry>, e: Entry, lo: nat, hi: nat)
    requires Positive(es) ==> IsRange(es, lo, hi)
    ensures Positive(es + [e]) ==>
      IsRange(es + [e], if lo == 0 || e.sequence < lo then e.sequence else lo, if e.sequence > hi then e.sequence else hi)
  {
    if Positive(es + [e]) {
      assert forall x :: x in es ==> x in es + [e];
      assert e in es + [e] && Positive(es);
    }
  }

  /** The numbers of the files of `fs` in the byte order of their names. */
  ghost predicate Listing(fs: Files, ns: seq<nat>) {
    && (forall n :: n in ns <==> n in fs)
    && (forall i, j :: 0 <= i < j < |ns| ==> Less(FileName(ns[i]), FileName(ns[j])))
  }

  lemma ListingDistinct(fs: Files, ns: seq<nat>)
    requires Listing(fs, ns)
    ensures Distinct(ns)
  {
    forall i, j | 0 <= i < j < |ns|
      ensures ns[i] != ns[j]
    {
      LessIrreflexive(FileName(ns[i]));
    }
  }

  class Reader {
    const dir: Directory
    const codec: Codec
    const files: seq<nat>

    constructor (dir: Directory, codec: Codec)
      ensures this.dir == dir && this.codec == codec
      ensures Listing(dir.files, files) && Distinct(files)
    {
      this.dir := dir;
      this.codec := codec;
      var names := Sorted(set n | n in dir.files :: FileName(n));
      files := seq(|names|, i requires 0 <= i < |names| => FileSeqOf(names[i]));
      ListingOfNames(dir.files, names);
      new;
      ListingDistinct(dir.files, files);
    }

    method ReadAll() returns (r: LogRead)
      requires Lawful(codec)
      ensures r == ReadFiles(codec, dir.files, files)
    {
      var entries: seq<Entry> := [];
      for i := 0 to |files|
        invariant ReadFiles(codec, dir.files, files) == Then(entries, ReadFiles(codec, dir.files, files[i..]))
      {
        assert files[i..][1..] == files[i + 1..];
        if files[i] !in dir.files {
          return ReadError;
        }
        var file := DecodeFile(codec, dir.files[files[i]]);
        if file == Crashed {
          return Panic;
        }
        ThenThen(entries, file.es, ReadFiles(codec, dir.files, files[i + 1..]));
        entries := entries + file.es;
      }
      r := Entries(entries);
    }

    method ReadFrom(from: nat) returns (r: LogRead)
      requires Lawful(codec)
      ensures var all := ReadFiles(codec, dir.files, files);
        r == if all.Entries? then Entries(AtLeast(all.es, from)) else all
    {
      r := ReadAll();
      if r.Entries? {
        if from == 0 {
          AtLeastZero(r.es);
        } else {
          var result := KeepAtLeast(r.es, from);
          r := Entries(result);
        }
      }
    }

    /** The sequence range of every file that holds an entry. */
    method FileRanges() returns (ranges: seq<FileRange>, r: LogRead)
      requires Lawful(codec) && Distinct(files)
      ensures var all := ReadFiles(codec, dir.files, files); r == if all.Entries? then Entries([]) else all
      ensures r.Entries? ==> RangesOf(codec, dir.files, files, ranges)
    {
      ranges, r := [], Entries([]);
      var i := 0;
      while i < |files|
        invariant 0 <= i <= |files|
        invariant r == Entries([])
        invariant SameFailure(ReadFiles(codec, dir.files, files), ReadFiles(codec, dir.files, files[i..]))
        invariant RangesOf(codec, dir.files, files[..i], ranges)
        invariant FilesAmong(ranges, files[..i])
      {
        assert files[i..][1..] == files[i + 1..];
        if files[i] !in dir.files {
          r := ReadError;
          return;
        }
        var crashed, lo, hi := ScanFile(codec, dir.files[files[i]]);
        if crashed {
          r := Panic;
          return;
        }
        RangesGrow(codec, dir.files, files, i, ranges, lo, hi);
        if hi > 0 {
          ranges := ranges + [FileRange(files[i], lo, hi)];
        }
        i := i + 1;
      }
      assert files[..|files|] == files;
    }
  }

  ghost predicate FilesAmong(ranges: seq<FileRange>, ns: seq<nat>) {
    forall range :: range in ranges ==> range.file in ns
  }

  lemma RangesGrow(c: Codec, fs: Files, ns: seq<nat>, i: nat, ranges: seq<FileRange>, lo: nat, hi: nat)
    requires Lawful(c) && i < |ns| && ns[i] in fs && DecodeAll(c, fs[ns[i]]).Read?
    requires RangesOf(c, fs, ns[..i], ranges) && FilesAmong(ranges, ns[..i]) && Distinct(ns)
    requires Scanned(DecodeAll(c, fs[ns[i]]).es, lo, hi)
    ensures var ranges' := if hi > 0 then ranges + [FileRange(ns[i], lo, hi)] else ranges;
      RangesOf(c, fs, ns[..i + 1], ranges') && FilesAmong(ranges', ns[..i + 1])
  {
    var r := DecodeAll(c, fs[ns[i]]);
    var ranges' := if hi > 0 then ranges + [FileRange(ns[i], lo, hi)] else ranges;
    assert ns[..i + 1][..i] == ns[..i];
    assert ranges != [] ==> ranges[|ranges| - 1] in ranges;
    assert !LastIs(ranges, ns[i]);
    if hi > 0 {
      assert ranges'[..|ranges'| - 1] == ranges;
    }
    assert RangesStep(r, ns[i], ranges');
    FilesGrow(ns, i, ranges, ranges');
  }

  lemma FilesGrow(ns: seq<nat>, i: nat, ranges: seq<FileRange>, ranges': seq<FileRange>)
    requires i < |ns| && FilesAmong(ranges, ns[..i])
    requires ranges' == ranges || (exists lo, hi :: ranges' == ranges + [FileRange(ns[i], lo, hi)])
    ensures FilesAmong(ranges', ns[..i + 1])
  {
    assert ns[..i + 1] == ns[..i] + [ns[i]];
  }

  lemma ListingOfNames(fs: Files, names: seq<string>)
    requires Ascending(names) && forall x :: x in names <==> x in set n | n in fs :: FileName(n)
    ensures Listing(fs, seq(|names|, i requires 0 <= i < |names| => FileSeqOf(names[i])))
  {
    var ns := seq(|names|, i requires 0 <= i < |names| => FileSeqOf(names[i]));
    forall i | 0 <= i < |names|
      ensures ns[i] in fs && FileName(ns[i]) == names[i]
    {
      assert names[i] in names;
      var n :| n in fs && names[i] == FileName(n);
      FileSeqOfName(n);
    }
    forall n | n in fs
      ensures n in ns
    {
      assert FileName(n) in names;
      var i :| 0 <= i < |names| && names[i] == FileName(n);
      FileSeqOfName(n);
      assert ns[i] == n;
    }
  }

  ghost predicate SameFailure(a: LogRead, b: LogRead) {
    if a.Entries? then b.Entries? else a == b
  }

  lemma ThenThen(es: seq<Entry>, fs: seq<Entry>, r: LogRead)
    ensures Then(es, Then(fs, r)) == Then(es + fs, r)
  {
    if r.Entries? { assert es + (fs + r.es) == (es + fs) + r.es; }
  }

  method KeepAtLeast(es: seq<Entry>, from: nat) returns (result: seq<Entry>)
    ensures result == AtLeast(es, from)
  {
    result := [];
    for i := 0 to |es|
      invariant AtLeast(es, from) == result + AtLeast(es[i..], from)
    {
      assert es[i..][1..] == es[i + 1..];
      if es[i].sequence >= from {
        result := result + [es[i]];
      }
    }
  }

  lemma {:induction false} AtLeastZero(es: seq<Entry>)
    ensures AtLeast(es, 0) == es
    decreases |es|
  {
    if es != [] { AtLeastZero(es[1..]); }
  }

  // ---------- the directory a writer leaves ----------

  function Flatten(content: seq<seq<Entry>>): seq<Entry> {
    if content == [] then [] else content[0] + Flatten(content[1..])
  }

  /** Entries are numbered 1, 2, 3 and so on. */
  ghost predicate Numbered(es: seq<Entry>) {
    forall i :: 0 <= i < |es| ==> es[i].sequence == i + 1
  }

  /** Every file of `fs` is one of the files 1 .. |content| and holds that file's
      entries; files may be missing. */
  ghost predicate Holds(c: Codec, fs: Files, content: seq<seq<Entry>>) {
    forall k :: k in fs ==> 1 <= k <= |content| && fs[k] == EncodeAll(c, content[k - 1])
  }

  lemma HoldsNewFile(c: Codec, fs: Files, content: seq<seq<Entry>>)
    requires Holds(c, fs, content)
    ensures Holds(c, fs[|content| + 1 := []], content + [[]])
  {}

  lemma HoldsNewEntry(c: Codec, fs: Files, content: seq<seq<Entry>>, e: Entry)
    requires Holds(c, fs, content) && content != [] && |content| in fs
    ensures var n := |content|;
      Holds(c, fs[n := fs[n] + c.enc(e)], content[n - 1 := content[n - 1] + [e]])
  {
    EncodeAppend(c, content[|content| - 1], [e]);
    EncodeOne(c, e);
  }

  class Writer {
    const dir: Directory
    const codec: Codec
    const maxSize: int
    var file: nat
    var size: nat
    var sequence: nat
    var entrySeq: uint64
    ghost var content: seq<seq<Entry>>

    ghost predicate Valid()
      reads this, dir
    {
      && sequence == |content| >= 1
      && file == sequence
      && file in dir.files
      && size == |dir.files[file]|
      && Holds(codec, dir.files, content)
      && Numbered(Flatten(content))
      && entrySeq == |Flatten(content)|
    }

    constructor (dir: Directory, codec: Codec, maxSize: int)
      requires dir.files == map[]
      modifies dir
      ensures Valid() && this.dir == dir && this.codec == codec && this.maxSize == maxSize
      ensures content == [[]]
    {
      this.dir := dir;
      this.codec := codec;
      this.maxSize := maxSize;
      this.sequence := 1;
      this.entrySeq := 0;
      this.size := 0;
      this.file := 1;
      this.content := [[]];
      new;
      dir.files := map[1 := []];
      FlattenOne([]);
    }

    method OpenNewFile()
      requires Valid()
      modifies this, dir
      ensures Valid() && size == 0 && entrySeq == old(entrySeq)
      ensures content == old(content) + [[]] && Flatten(content) == old(Flatten(content))
      ensures dir.files == old(dir.files)[|old(content)| + 1 := []]
    {
      FlattenAppend(content, [[]]);
      FlattenOne([]);
      HoldsNewFile(codec, dir.files, content);
      sequence := sequence + 1;
      file := sequence;
      dir.files := dir.files[file := []];
      size := 0;
      content := content + [[]];
    }

    method AppendToFile(entry: Entry)
      requires Valid() && entry.sequence == entrySeq + 1
      modifies this, dir
      ensures Valid() && entrySeq == entry.sequence
      ensures content == Logged(old(content), false, entry)
      ensures Flatten(content) == old(Flatten(content)) + [entry]
      ensures dir.files.Keys == old(dir.files.Keys)
    {
      var buf := codec.enc(entry);
      HoldsNewEntry(codec, dir.files, content, entry);
      FlattenLast(content, entry);
      dir.files := dir.files[file := dir.files[file] + buf];
      size := size + |buf|;
      entrySeq := entry.sequence;
      content := Logged(content, false, entry);
    }

    method Write(typ: byte, key: seq<byte>, data: seq<byte>, now: int64) returns (seqNo: uint64)
      requires Valid() && entrySeq < 0xFFFF_FFFF_FFFF_FFFF
      modifies this, dir
      ensures Valid()
      ensures entrySeq == seqNo == old(entrySeq) + 1
      ensures content == Logged(old(content), old(size) >= maxSize, Entry(typ, now, seqNo, key, data, codec.sum(data)))
      ensures Flatten(content) == old(Flatten(content)) + [Entry(typ, now, seqNo, key, data, codec.sum(data))]
      ensures dir.files.Keys == old(dir.files.Keys) + {|content|}
    {
      seqNo := entrySeq + 1;
      var entry := Entry(typ, now, seqNo, key, data, codec.sum(data));
      LoggedNewFile(content, entry);
      if size >= maxSize {
        OpenNewFile();
      }
      AppendToFile(entry);
    }
  }

  lemma LoggedNewFile(content: seq<seq<Entry>>, e: Entry)
    requires content != []
    ensures Logged(content + [[]], false, e) == Logged(content, true, e)
  {
    assert [] + [e] == [e];
  }

  /** The files after one more entry, in a new file or in the last one. */
  function Logged(content: seq<seq<Entry>>, rotate: bool, e: Entry): seq<seq<Entry>>
    requires content != []
  {
    if rotate then content + [[e]]
    else content[|content| - 1 := content[|content| - 1] + [e]]
  }

  lemma {:induction false} FlattenAppend(a: seq<seq<Entry>>, b: seq<seq<Entry>>)
    ensures Flatten(a + b) == Flatten(a) + Flatten(b)
    decreases |a|
  {
    if a == [] {
      assert a + b == b;
    } else {
      FlattenAppend(a[1..], b);
      assert (a + b)[1..] == a[1..] + b;
    }
  }

  lemma FlattenOne(es: seq<Entry>)
    ensures Flatten([es]) == es
  {
    assert Flatten([es]) == es + Flatten([es][1..]);
  }

  lemma FlattenLast(content: seq<seq<Entry>>, e: Entry)
    requires content != []
    ensures var k := |content| - 1;
      Flatten(content[k := content[k] + [e]]) == Flatten(content) + [e]
  {
    var k := |content| - 1;
    var front, last := content[..k], content[k];
    assert content == front + [last];
    assert content[k := last + [e]] == front + [last + [e]];
    FlattenAppend(front, [last]);
    FlattenAppend(front, [last + [e]]);
    FlattenOne(last);
    FlattenOne(last + [e]);
  }

  // ---------- reading the whole log back ----------

  /** The entries of the files whose numbers are in `alive`, in the order written. */
  function Surviving(alive: set<nat>, content: seq<seq<Entry>>): seq<Entry> {
    if content == [] then []
    else
      var n := |content|;
      Surviving(alive, content[..n - 1]) + (if n in alive then content[n - 1] else [])
  }

  /** The numbers up to n that are in `alive`, in order. */
  function Survivors(alive: set<nat>, n: nat): (ns: seq<nat>)
    ensures forall k :: k in ns <==> k in alive && 1 <= k <= n
  {
    if n == 0 then [] else Survivors(alive, n - 1) + (if n in alive then [n] else [])
  }

  ghost predicate Increasing(ns: seq<nat>) {
    forall i, j :: 0 <= i < j < |ns| ==> ns[i] < ns[j]
  }

  lemma ListingIncreases(fs: Files, ns: seq<nat>)
    requires Listing(fs, ns) && forall n :: n in fs ==> n < FIRST_LONG_NAME
    ensures Increasing(ns)
  {
    forall i, j | 0 <= i < j < |ns|
      ensures ns[i] < ns[j]
    {
      assert ns[i] in ns && ns[j] in ns;
      if ns[j] < ns[i] {
        NameOrder(ns[j], ns[i]);
        LessAsymmetric(FileName(ns[j]), FileName(ns[i]));
      } else if ns[j] == ns[i] {
        LessIrreflexive(FileName(ns[i]));
      }
    }
  }

  lemma {:induction false} SurvivorsIncrease(alive: set<nat>, n: nat)
    ensures Increasing(Survivors(alive, n))
    decreases n
  {
    if n > 0 { 
      SurvivorsIncrease(alive, n - 1);
      var ns := Survivors(alive, n - 1);
      assert forall i :: 0 <= i < |ns| ==> ns[i] in ns;
    }
  }

  lemma {:induction false} SameIncreasing(a: seq<nat>, b: seq<nat>)
    requires Increasing(a) && Increasing(b) && forall k :: k in a <==> k in b
    ensures a == b
    decreases |a|
  {
    assert b != [] ==> b[|b| - 1] in a;
    if a != [] {
      var m := a[|a| - 1];
      assert m in a && m in b && |b| > 0;
      LastIsGreatest(a);
      LastIsGreatest(b);
      assert b[|b| - 1] == m;
      FrontMembers(a);
      FrontMembers(b);
      var fa, fb := a[..|a| - 1], b[..|b| - 1];
      assert forall k :: k in fa <==> k in a && k != m;
      assert forall k :: k in fb <==> k in b && k != m;
      SameIncreasing(fa, fb);
    }
  }

  lemma LastIsGreatest(a: seq<nat>)
    requires Increasing(a) && a != []
    ensures forall k :: k in a ==> k <= a[|a| - 1]
  {}

  lemma FrontMembers(a: seq<nat>)
    requires Increasing(a) && a != []
    ensures forall k :: k in a[..|a| - 1] <==> k in a && k != a[|a| - 1]
  {
    assert a == a[..|a| - 1] + [a[|a| - 1]];
  }

  lemma ListingIsSurvivors(fs: Files, ns: seq<nat>, n: nat)
    requires Listing(fs, ns) && n < FIRST_LONG_NAME && forall k :: k in fs ==> 1 <= k <= n
    ensures ns == Survivors(fs.Keys, n)
  {
    ListingIncreases(fs, ns);
    SurvivorsIncrease(fs.Keys, n);
    SameIncreasing(ns, Survivors(fs.Keys, n));
  }

  lemma {:induction false} ReadFilesAppend(c: Codec, fs: Files, a: seq<nat>, b: seq<nat>)
    requires Lawful(c) && ReadFiles(c, fs, a).Entries?
    ensures ReadFiles(c, fs, a + b) == Then(ReadFiles(c, fs, a).es, ReadFiles(c, fs, b))
    decreases |a|
  {
    if a == [] {
      assert a + b == b;
      if ReadFiles(c, fs, b).Entries? { assert [] + ReadFiles(c, fs, b).es == ReadFiles(c, fs, b).es; }
    } else {
      var first := DecodeAll(c, fs[a[0]]).es;
      assert (a + b)[1..] == a[1..] + b;
      ReadFilesAppend(c, fs, a[1..], b);
      ThenThen(first, ReadFiles(c, fs, a[1..]).es, ReadFiles(c, fs, b));
    }
  }

  lemma {:induction false} SurvivorsRead(c: Codec, fs: Files, content: seq<seq<Entry>>, k: nat)
    requires Lawful(c) && Holds(c, fs, content) && k <= |content| && AllFit(Flatten(content))
    ensures ReadFiles(c, fs, Survivors(fs.Keys, k)) == Entries(Surviving(fs.Keys, content[..k]))
    decreases k
  {
    if k > 0 {
      SurvivorsRead(c, fs, content, k - 1);
      assert content[..k][..k - 1] == content[..k - 1];
      if k in fs {
        FileFits(content, k - 1);
        ReadBack(c, content[k - 1]);
        ReadOne(c, fs, k);
        ReadFilesAppend(c, fs, Survivors(fs.Keys, k - 1), [k]);
      } else {
        var es := Surviving(fs.Keys, content[..k - 1]);
        assert es + [] == es && Survivors(fs.Keys, k - 1) + [] == Survivors(fs.Keys, k - 1);
      }
    }
  }

  lemma ReadOne(c: Codec, fs: Files, k: nat)
    requires Lawful(c) && k in fs && DecodeAll(c, fs[k]).Read?
    ensures ReadFiles(c, fs, [k]) == Entries(DecodeAll(c, fs[k]).es)
  {
    var es := DecodeAll(c, fs[k]).es;
    assert [k][1..] == [] && es + [] == es;
  }

  lemma FileFits(content: seq<seq<Entry>>, i: nat)
    requires i < |content| && AllFit(Flatten(content))
    ensures AllFit(content[i])
  {
    forall e | e in content[i]
      ensures Fits(e)
    {
      InFlatten(content, i, e);
    }
  }

  lemma {:induction false} InFlatten(content: seq<seq<Entry>>, i: nat, e: Entry)
    requires i < |content| && e in content[i]
    ensures e in Flatten(content)
    decreases i
  {
    if i > 0 { InFlatten(content[1..], i - 1, e); }
  }

  /** Listing, sorting, concatenating and decoding the files of a writer gives exactly the
      entries written to the files that are still there, in order. */
  lemma LogReadsBack(c: Codec, fs: Files, content: seq<seq<Entry>>, ns: seq<nat>)
    requires Lawful(c) && Holds(c, fs, content) && AllFit(Flatten(content))
    requires Listing(fs, ns) && |content| < FIRST_LONG_NAME
    ensures ReadFiles(c, fs, ns) == Entries(Surviving(fs.Keys, content))
  {
    ListingIsSurvivors(fs, ns, |content|);
    SurvivorsRead(c, fs, content, |content|);
    assert content[..|content|] == content;
  }

  lemma {:induction false} NothingLost(alive: set<nat>, content: seq<seq<Entry>>)
    requires forall k :: 1 <= k <= |content| ==> k in alive
    ensures Surviving(alive, content) == Flatten(content)
    decreases |content|
  {
    if content != [] {
      var front, last := content[..|content| - 1], content[|content| - 1];
      NothingLost(alive, front);
      assert content == front + [last];
      FlattenAppend(front, [last]);
      FlattenOne(last);
    }
  }

  /** With every file still there, reading back gives all n entries, numbered 1 to n. */
  lemma WholeLogReadsBack(w: Writer, ns: seq<nat>)
    requires w.Valid() && Lawful(w.codec) && AllFit(Flatten(w.content))
    requires Listing(w.dir.files, ns) && w.sequence < FIRST_LONG_NAME
    requires forall k :: 1 <= k <= w.sequence ==> k in w.dir.files
    ensures ReadFiles(w.codec, w.dir.files, ns) == Entries(Flatten(w.content))
    ensures |Flatten(w.content)| == w.entrySeq && Numbered(Flatten(w.content))
  {
    LogReadsBack(w.codec, w.dir.files, w.content, ns);
    NothingLost(w.dir.files.Keys, w.content);
  }

  // ---------- the sequence numbers of the files ----------

  /** The entries of one file are a contiguous piece of the whole log. */
  lemma FileIsInterval(content: seq<seq<Entry>>, i: nat)
    requires i < |content|
    ensures |Flatten(content[..i])| + |content[i]| <= |Flatten(content)|
    ensures content[i] == Flatten(content)[|Flatten(content[..i])|..|Flatten(content[..i])| + |content[i]|]
  {
    var front, back := content[..i], content[i + 1..];
    assert content == front + ([content[i]] + back);
    FlattenAppend(front, [content[i]] + back);
    FlattenAppend([content[i]], back);
    FlattenOne(content[i]);
  }

  lemma FlattenLength(content: seq<seq<Entry>>, i: nat, j: nat)
    requires i < j <= |content|
    ensures |Flatten(content[..i])| + |content[i]| <= |Flatten(content[..j])|
  {
    FileIsInterval(content[..j], i);
    assert content[..j][..i] == content[..i];
  }

  lemma EntryNumber(content: seq<seq<Entry>>, i: nat, a: nat)
    requires Numbered(Flatten(content)) && i < |content| && a < |content[i]|
    ensures content[i][a].sequence == |Flatten(content[..i])| + a + 1
  {
    FileIsInterval(content, i);
    assert content[i][a] == Flatten(content)[|Flatten(content[..i])| + a];
  }

  /** Later files hold only greater sequence numbers. */
  lemma FilesDisjoint(content: seq<seq<Entry>>, i: nat, j: nat, e: Entry, f: Entry)
    requires Numbered(Flatten(content)) && i < j < |content| && e in content[i] && f in content[j]
    ensures e.sequence < f.sequence
  {
    var a :| 0 <= a < |content[i]| && content[i][a] == e;
    var b :| 0 <= b < |content[j]| && content[j][b] == f;
    EntryNumber(content, i, a);
    EntryNumber(content, j, b);
    FlattenLength(content, i, j);
  }
}
