/** The primary's side of replication (scheduler/internal/server/sync.go): the
    acknowledgement table, the response stream of SyncWAL, and the cleanup pass. */
module Sync {
  import opened Model
  import opened WalCodec
  import opened WalLog
  import opened Store
  import FileNames

  const BATCH_SIZE := 100

  datatype Response = Response(entries: seq<Entry>, more: bool)

  function Batches(es: seq<Entry>): seq<Response>
    decreases |es|
  {
    if |es| <= BATCH_SIZE then [Response(es, false)]
    else [Response(es[..BATCH_SIZE], true)] + Batches(es[BATCH_SIZE..])
  }

  /** All responses of one call, over a log that does not change during the call. */
  function Responses(log: seq<Entry>, last: nat): seq<Response> {
    var es := AtLeast(log, last + 1);
    if |es| < BATCH_SIZE then Batches(es) else Batches(es) + [Response([], false)]
  }

  function Sent(rs: seq<Response>): seq<Entry> {
    if rs == [] then [] else rs[0].entries + Sent(rs[1..])
  }

  /** What a receiver has by the time it sees the first response without `more`. */
  function Delivered(rs: seq<Response>): seq<Entry> {
    if rs == [] then []
    else if !rs[0].more then rs[0].entries
    else rs[0].entries + Delivered(rs[1..])
  }

  lemma {:induction false} SentAppend(a: seq<Response>, b: seq<Response>)
    ensures Sent(a + b) == Sent(a) + Sent(b)
    decreases |a|
  {
    if a == [] {
      assert a + b == b;
    } else {
      SentAppend(a[1..], b);
      assert (a + b)[1..] == a[1..] + b;
    }
  }

  lemma {:induction false} BatchesExact(es: seq<Entry>, after: seq<Response>)
    ensures Sent(Batches(es)) == es && Delivered(Batches(es) + after) == es
    ensures forall r :: r in Batches(es) ==> |r.entries| <= BATCH_SIZE
    decreases |es|
  {
    var rs := Batches(es);
    if |es| <= BATCH_SIZE {
      assert rs[1..] == [] && es + [] == es;
      assert (rs + after)[0] == rs[0];
    } else {
      var rest := Batches(es[BATCH_SIZE..]);
      BatchesExact(es[BATCH_SIZE..], after);
      assert rs[1..] == rest && (rs + after)[1..] == rest + after;
      assert es == es[..BATCH_SIZE] + es[BATCH_SIZE..];
    }
  }

  /** The responses are exactly the entries after `last`, in order and once each, at most
      100 at a time, and a receiver that stops at the first response without `more` has
      received all of them. */
  lemma StreamExact(log: seq<Entry>, last: nat)
    ensures Sent(Responses(log, last)) == AtLeast(log, last + 1)
    ensures Delivered(Responses(log, last)) == AtLeast(log, last + 1)
    ensures forall r :: r in Responses(log, last) ==> |r.entries| <= 100
    ensures
      var rs, n := Responses(log, last), |AtLeast(log, last + 1)|;
      rs != [] && !rs[|rs| - 1].more && (rs[|rs| - 1].entries == [] <==> n == 0 || n >= 100)
  {
    var es := AtLeast(log, last + 1);
    var tail := if |es| < BATCH_SIZE then [] else [Response([], false)];
    BatchesExact(es, tail);
    SentAppend(Batches(es), tail);
    assert Responses(log, last) == Batches(es) + tail;
    assert Sent(tail) == [];
  }

  lemma {:induction false} NothingAbove(es: seq<Entry>, from: nat, n: nat)
    requires forall e :: e in AtLeast(es, from) ==> e.sequence <= n
    requires from <= n + 1
    ensures AtLeast(es, n + 1) == []
    decreases |es|
  {
    if es != [] {
      NothingAbove(es[1..], from, n);
    }
  }

  class SyncService {
    const store: Store
    var standbyAck: map<string, nat>

    ghost predicate Valid()
      reads this
    {
      forall id :: id in standbyAck ==> standbyAck[id] > 0
    }

    constructor (store: Store)
      ensures Valid() && this.store == store && standbyAck == map[]
    {
      this.store := store;
      standbyAck := map[];
    }

    /** The least acknowledgement, 0 when there is none. */
    method MinStandbyAck() returns (min: nat)
      requires Valid()
      ensures standbyAck == map[] <==> min == 0
      ensures standbyAck != map[] ==> exists id :: id in standbyAck && standbyAck[id] == min
      ensures forall id :: id in standbyAck ==> min <= standbyAck[id]
    {
      min := 0;
      if |standbyAck| == 0 {
        return;
      }
      var rest := standbyAck.Keys;
      while rest != {}
        invariant rest <= standbyAck.Keys
        invariant min == 0 <==> rest == standbyAck.Keys
        invariant min != 0 ==> exists id :: id in standbyAck && standbyAck[id] == min
        invariant forall id :: id in standbyAck && id !in rest ==> min <= standbyAck[id]
        decreases rest
      {
        var id :| id in rest;
        rest := rest - {id};
        if min == 0 || standbyAck[id] < min {
          min := standbyAck[id];
        }
      }
    }

    method SyncWAL(standbyID: string, lastSequence: nat) returns (responses: seq<Response>, ghost logReads: nat)
      requires Valid() && store.Readable()
      modifies this
      ensures Valid()
      ensures standbyAck == if lastSequence > 0 then old(standbyAck)[standbyID := lastSequence] else old(standbyAck)
      ensures responses == Responses(store.LogEntries(), lastSequence) && logReads <= 2
    {
      if lastSequence > 0 {
        standbyAck := standbyAck[standbyID := lastSequence];
      }
      responses, logReads := StreamLog(store, lastSequence);
    }
  }

  /** The loop of SyncWAL. */
  method StreamLog(store: Store, lastSequence: nat) returns (responses: seq<Response>, ghost logReads: nat)
    requires store.Readable()
    ensures responses == Responses(old(store.LogEntries()), lastSequence) && logReads <= 2
  {
    responses, logReads := [], 0;
    ghost var log := store.LogEntries();
    var lastSeq := lastSequence;
    while true
      modifies {}
      invariant StreamingOf(log, lastSequence)(lastSeq, responses, logReads) && logReads <= 2
      decreases 2 - logReads
    {
      var n, batched, max := ReadBatches(store, lastSeq, log);
      logReads := logReads + 1;
      if n == 0 {
        NoMore(log, lastSequence, lastSeq, responses, logReads - 1);
        responses := responses + [Response([], false)];
        return;
      }
      FirstRead(log, lastSequence, lastSeq, responses, logReads - 1, batched, max);
      responses := responses + batched;
      lastSeq := max;
      if n < BATCH_SIZE {
        return;
      }
    }
  }

  /** One round of the loop: reads the log once and batches what it finds. */
  method ReadBatches(store: Store, lastSeq: nat, ghost log: seq<Entry>) returns (n: nat, batched: seq<Response>, max: nat)
    requires store.Readable() && log == store.LogEntries()
    ensures n == |AtLeast(log, lastSeq + 1)|
    ensures n > 0 ==> Batched(AtLeast(log, lastSeq + 1), lastSeq, batched, max)
  {
    var entries := store.ReadWALFrom(lastSeq + 1);
    n, batched, max := |entries|, [], lastSeq;
    if n > 0 {
      batched, max := SendBatches(entries, lastSeq);
    }
  }

  ghost predicate Batched(es: seq<Entry>, last: nat, batched: seq<Response>, max: nat) {
    batched == Batches(es) && max >= last && forall e :: e in es ==> e.sequence <= max
  }

  /** The state of the loop before each read. */
  ghost predicate Streaming(log: seq<Entry>, first: nat, last: nat, responses: seq<Response>, logReads: nat) {
    var es := AtLeast(log, first + 1);
    if logReads == 0 then responses == [] && last == first
    else logReads == 1 && |es| >= BATCH_SIZE && responses == Batches(es) && AtLeast(log, last + 1) == []
  }

  ghost function StreamingOf(log: seq<Entry>, first: nat): (nat, seq<Response>, nat) -> bool {
    (last: nat, responses: seq<Response>, logReads: nat) => Streaming(log, first, last, responses, logReads)
  }

  lemma NoMore(log: seq<Entry>, first: nat, last: nat, responses: seq<Response>, logReads: nat)
    requires StreamingOf(log, first)(last, responses, logReads) && AtLeast(log, last + 1) == []
    ensures logReads <= 1
    ensures responses + [Response([], false)] == Responses(log, first)
  {
    if logReads == 0 { assert [] + [Response([], false)] == Batches([]); }
  }

  lemma FirstRead(log: seq<Entry>, first: nat, last: nat, responses: seq<Response>, logReads: nat,
                  batched: seq<Response>, max: nat)
    requires StreamingOf(log, first)(last, responses, logReads)
    requires AtLeast(log, last + 1) != [] && Batched(AtLeast(log, last + 1), last, batched, max)
    ensures logReads == 0
    ensures if |AtLeast(log, last + 1)| < BATCH_SIZE then responses + batched == Responses(log, first)
            else StreamingOf(log, first)(max, responses + batched, 1)
  {
    NothingAbove(log, last + 1, max);
    assert [] + batched == batched;
  }

  /** The inner loops of SyncWAL. */
  method SendBatches(entries: seq<Entry>, last: nat) returns (responses: seq<Response>, lastSeq: nat)
    requires entries != []
    ensures responses == Batches(entries)
    ensures lastSeq >= last && forall e :: e in entries ==> e.sequence <= lastSeq
  {
    responses, lastSeq := [], last;
    var i := 0;
    while i < |entries|
      invariant 0 <= i && BatchesLeft(entries, i, responses)
      invariant lastSeq >= last && forall k :: 0 <= k < i && k < |entries| ==> entries[k].sequence <= lastSeq
      decreases |entries| - i
    {
      var end := i + BATCH_SIZE;
      if end > |entries| {
        end := |entries|;
      }
      var batch := entries[i..end];
      lastSeq := Advance(batch, lastSeq);
      BatchesNext(entries, i, end, responses);
      assert forall k :: i <= k < end ==> entries[k] == batch[k - i];
      responses := responses + [Response(batch, end < |entries|)];
      i := i + BATCH_SIZE;
    }
  }

  method Advance(batch: seq<Entry>, last: nat) returns (lastSeq: nat)
    ensures lastSeq >= last && forall k :: 0 <= k < |batch| ==> batch[k].sequence <= lastSeq
  {
    lastSeq := last;
    for k := 0 to |batch|
      invariant lastSeq >= last && forall j :: 0 <= j < k ==> batch[j].sequence <= lastSeq
    {
      if batch[k].sequence > lastSeq {
        lastSeq := batch[k].sequence;
      }
    }
  }

  /** The batches of the entries from i on are still to come. */
  ghost predicate BatchesLeft(es: seq<Entry>, i: nat, responses: seq<Response>) {
    if i < |es| then Batches(es) == responses + Batches(es[i..]) else Batches(es) == responses
  }

  lemma BatchesNext(es: seq<Entry>, i: nat, end: nat, responses: seq<Response>)
    requires i < |es| && end == (if i + BATCH_SIZE > |es| then |es| else i + BATCH_SIZE) && BatchesLeft(es, i, responses)
    ensures BatchesLeft(es, i + BATCH_SIZE, responses + [Response(es[i..end], end < |es|)])
  {
    var batch := Response(es[i..end], end < |es|);
    if end < |es| {
      assert es[i..][..BATCH_SIZE] == es[i..end] && es[i..][BATCH_SIZE..] == es[end..];
      assert responses + ([batch] + Batches(es[end..])) == responses + [batch] + Batches(es[end..]);
    } else {
      assert es[i..end] == es[i..];
    }
  }

  // ---------- cleanup ----------

  /** File k is not the active one, holds an entry, and holds none above `ack`. */
  ghost predicate Covered(content: seq<seq<Entry>>, k: nat, ack: nat) {
    && 1 <= k < |content| && content[k - 1] != []
    && forall e :: e in content[k - 1] ==> e.sequence <= ack
  }

  lemma {:induction false} RangeValid(c: Codec, fs: Files, ns: seq<nat>, ranges: seq<FileRange>, j: nat)
    requires Lawful(c) && RangesOf(c, fs, ns, ranges) && j < |ranges|
    ensures ranges[j].file in ns && ranges[j].file in fs && ranges[j].maxSeq > 0
    ensures var r := DecodeAll(c, fs[ranges[j].file]);
      r.Read? && (Positive(r.es) ==> IsRange(r.es, ranges[j].minSeq, ranges[j].maxSeq))
    decreases |ns|
  {
    var k := |ns| - 1;
    if LastIs(ranges, ns[k]) {
      if j < |ranges| - 1 {
        RangeValid(c, fs, ns[..k], ranges[..|ranges| - 1], j);
      }
    } else {
      RangeValid(c, fs, ns[..k], ranges, j);
    }
  }

  lemma {:induction false} RangeExists(c: Codec, fs: Files, ns: seq<nat>, ranges: seq<FileRange>, i: nat) returns (j: nat)
    requires Lawful(c) && RangesOf(c, fs, ns, ranges) && i < |ns| && ns[i] in fs
    requires var r := DecodeAll(c, fs[ns[i]]); r.Read? && r.es != [] && Positive(r.es)
    ensures j < |ranges| && ranges[j].file == ns[i]
    decreases |ns|
  {
    var k := |ns| - 1;
    var es := DecodeAll(c, fs[ns[i]]).es;
    assert es[0] in es && es[0].sequence > 0;
    if i == k {
      j := |ranges| - 1;
    } else {
      j := RangeExists(c, fs, ns[..k], if LastIs(ranges, ns[k]) then ranges[..|ranges| - 1] else ranges, i);
    }
  }

  /** The files the cleanup loop removes. */
  ghost predicate Selected(ranges: seq<FileRange>, active: nat, ack: nat, k: nat) {
    k != active && exists j :: 0 <= j < |ranges| && ranges[j].file == k && ranges[j].maxSeq <= ack
  }

  class Checkpointer {
    const dir: Directory
    const codec: Codec

    constructor (dir: Directory, codec: Codec)
      ensures this.dir == dir && this.codec == codec
    {
      this.dir := dir;
      this.codec := codec;
    }

    method RemoveFiles(ranges: seq<FileRange>, active: nat, ackSeq: nat)
      modifies dir
      ensures dir.files == map k | k in old(dir.files) && !Selected(ranges, active, ackSeq, k) :: old(dir.files)[k]
    {
      ghost var fs := dir.files;
      for i := 0 to |ranges|
        invariant dir.files == map k | k in fs && !Selected(ranges[..i], active, ackSeq, k) :: fs[k]
      {
        var range := ranges[i];
        SelectedStep(ranges, i, active, ackSeq);
        if range.file != active && range.maxSeq <= ackSeq {
          dir.files := dir.files - {range.file};
        }
      }
      assert ranges[..|ranges|] == ranges;
    }

    /** Lists the sequence ranges of the files; those that the removal selects are the
        covered ones. */
    method ListRanges(w: Writer, ackSeq: nat) returns (ranges: seq<FileRange>)
      requires w.Valid() && w.dir == dir && w.codec == codec && Lawful(codec) && AllFit(Flatten(w.content))
      ensures forall k :: k in old(dir.files) ==> (Selected(ranges, old(w.sequence), ackSeq, k) <==> Covered(old(w.content), k, ackSeq))
    {
      var reader := new Reader(dir, codec);
      FilesReadable(w, reader.files);
      var r;
      ranges, r := reader.FileRanges();
      forall k | k in dir.files
        ensures Selected(ranges, w.sequence, ackSeq, k) <==> Covered(w.content, k, ackSeq)
      {
        SelectedIsCovered(w, reader.files, ranges, k, ackSeq);
      }
    }

    /** Removes exactly the files that `ackSeq` covers and leaves the others as they are. */
    method Cleanup(w: Writer, ackSeq: nat)
      requires w.Valid() && w.dir == dir && w.codec == codec && Lawful(codec) && AllFit(Flatten(w.content))
      modifies dir
      ensures ackSeq == 0 ==> dir.files == old(dir.files)
      ensures ackSeq > 0 ==>
        dir.files == map k | k in old(dir.files) && !Covered(old(w.content), k, ackSeq) :: old(dir.files)[k]
      ensures ackSeq > 0 ==> forall k :: k in old(dir.files) ==> (k !in dir.files <==>
        k < |old(w.content)| && old(w.content)[k - 1] != [] && forall e :: e in old(w.content)[k - 1] ==> e.sequence <= ackSeq)
    {
      if ackSeq == 0 {
        return;
      }
      var ranges := ListRanges(w, ackSeq);
      RemoveFiles(ranges, w.sequence, ackSeq);
    }
  }

  lemma SelectedStep(ranges: seq<FileRange>, i: nat, active: nat, ack: nat)
    requires i < |ranges|
    ensures forall k :: Selected(ranges[..i + 1], active, ack, k) <==>
      Selected(ranges[..i], active, ack, k) || (k == ranges[i].file && k != active && ranges[i].maxSeq <= ack)
  {
    var next := ranges[..i + 1];
    forall k
      ensures Selected(next, active, ack, k) <==>
        Selected(ranges[..i], active, ack, k) || (k == ranges[i].file && k != active && ranges[i].maxSeq <= ack)
    {
      if Selected(ranges[..i], active, ack, k) {
        var j :| 0 <= j < i && ranges[..i][j].file == k && ranges[..i][j].maxSeq <= ack;
        assert next[j] == ranges[..i][j];
      }
      if k == ranges[i].file && k != active && ranges[i].maxSeq <= ack {
        assert next[i] == ranges[i];
      }
      if Selected(next, active, ack, k) {
        var j :| 0 <= j < |next| && next[j].file == k && next[j].maxSeq <= ack;
        if j < i { assert ranges[..i][j] == next[j]; }
      }
    }
  }

  lemma SelectedIsCovered(w: Writer, ns: seq<nat>, ranges: seq<FileRange>, k: nat, ack: nat)
    requires w.Valid() && Lawful(w.codec) && AllFit(Flatten(w.content)) && k in w.dir.files
    requires Listing(w.dir.files, ns) && RangesOf(w.codec, w.dir.files, ns, ranges)
    ensures Selected(ranges, w.sequence, ack, k) <==> Covered(w.content, k, ack)
  {
    var es := w.content[k - 1];
    FileReadable(w, k);
    if Selected(ranges, w.sequence, ack, k) {
      var j :| 0 <= j < |ranges| && ranges[j].file == k && ranges[j].maxSeq <= ack;
      RangeValid(w.codec, w.dir.files, ns, ranges, j);
    }
    if Covered(w.content, k, ack) {
      var i :| 0 <= i < |ns| && ns[i] == k;
      var j := RangeExists(w.codec, w.dir.files, ns, ranges, i);
      RangeValid(w.codec, w.dir.files, ns, ranges, j);
    }
  }

  lemma FileReadable(w: Writer, k: nat)
    requires w.Valid() && Lawful(w.codec) && AllFit(Flatten(w.content)) && k in w.dir.files
    ensures 1 <= k <= |w.content| && Positive(w.content[k - 1])
    ensures DecodeAll(w.codec, w.dir.files[k]) == Read(w.content[k - 1])
  {
    FileFits(w.content, k - 1);
    ReadBack(w.codec, w.content[k - 1]);
    forall e | e in w.content[k - 1]
      ensures e.sequence > 0
    {
      InFlatten(w.content, k - 1, e);
    }
  }

  lemma FilesReadable(w: Writer, ns: seq<nat>)
    requires w.Valid() && Lawful(w.codec) && AllFit(Flatten(w.content)) && Listing(w.dir.files, ns)
    ensures ReadFiles(w.codec, w.dir.files, ns).Entries?
  {
    forall n | n in ns
      ensures n in w.dir.files && DecodeAll(w.codec, w.dir.files[n]).Read?
    {
      FileReadable(w, n);
    }
    AllReadable(w.codec, w.dir.files, ns);
  }

  lemma {:induction false} AllReadable(c: Codec, fs: Files, ns: seq<nat>)
    requires Lawful(c) && forall n :: n in ns ==> n in fs && DecodeAll(c, fs[n]).Read?
    ensures ReadFiles(c, fs, ns).Entries?
    decreases |ns|
  {
    if ns != [] { AllReadable(c, fs, ns[1..]); }
  }
}
