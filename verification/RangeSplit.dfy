/** Splitting an inclusive range of int64 numbers into parts (splitByRange in
    pkg/taskmodel/taskmodel.go and in scheduler/internal/server/split.go), with the
    wrap-around and the truncating division of the original. */
module RangeSplit {
  const MIN64 := -0x8000_0000_0000_0000
  const MAX64 := 0x7fff_ffff_ffff_ffff
  const SPAN64 := 0x1_0000_0000_0000_0000
  const HALF64 := 0x8000_0000_0000_0000
  const MAX32 := 0x7fff_ffff

  predicate Int64(x: int) {
    MIN64 <= x <= MAX64
  }

  function Wrap(x: int): (w: int)
    ensures Int64(w) && (Int64(x) ==> w == x)
  {
    (x + HALF64) % SPAN64 - HALF64
  }

  /** Division that truncates toward zero, and the remainder with the sign of `a`. */
  function Quo(a: int, n: int): int
    requires n > 0
  {
    if a >= 0 then a / n else -((-a) / n)
  }

  function Rem(a: int, n: int): int
    requires n > 0
  {
    a - Quo(a, n) * n
  }

  datatype Part = Part(start: int, end: int)

  function Size(p: Part): int {
    p.end - p.start + 1
  }

  datatype Outcome = Panicked | Parts(parts: seq<Part>)

  // ---------- the loop ----------

  function EndOf(start: int, i: int, n: int, last: int, partSize: int, remainder: int): int {
    if i == n - 1 then last else Wrap(start + partSize - 1 + (if i < remainder then 1 else 0))
  }

  /** Each part ends where its size says, the last one at `end`, and the next one starts after it. */
  ghost predicate IsSplit(parts: seq<Part>, start: int, end: int, n: int)
    requires n > 0
  {
    var total := Wrap(end - start);
    && |parts| == n && parts[0].start == start
    && (forall i :: 0 <= i < n ==> parts[i].end == EndOf(parts[i].start, i, n, end, Quo(total, n), Rem(total, n)))
    && (forall i :: 0 <= i < n - 1 ==> parts[i + 1].start == Wrap(parts[i].end + 1))
  }

  method SplitByRange(start: int, end: int, numParts: int) returns (r: Outcome)
    requires Int64(start) && Int64(end) && numParts <= MAX32
    ensures r.Panicked? <==> numParts <= 0
    ensures r.Parts? ==> IsSplit(r.parts, start, end, numParts)
  {
    var total := Wrap(end - start);
    if numParts <= 0 {
      // A division by zero, or a slice of negative length.
      return Panicked;
    }
    var partSize, remainder := Quo(total, numParts), Rem(total, numParts);
    var parts: seq<Part> := [];
    var from := start;
    for i := 0 to numParts
      invariant |parts| == i && Int64(from) && IsStarted(parts, start, from)
      invariant forall k :: 0 <= k < i ==> parts[k].end == EndOf(parts[k].start, k, numParts, end, partSize, remainder)
    {
      var to := Wrap(Wrap(from + partSize) - 1);
      if i < remainder {
        to := Wrap(to + 1);
      }
      if i == numParts - 1 {
        to := end;
      }
      NextEnd(from, i, numParts, end, partSize, remainder);
      StartedNext(parts, start, from, Part(from, to));
      parts := parts + [Part(from, to)];
      from := Wrap(to + 1);
    }
    r := Parts(parts);
  }

  /** Each part starts after the one before, and the next one would start at `from`. */
  ghost predicate IsStarted(parts: seq<Part>, start: int, from: int) {
    if parts == [] then from == start
    else
      && parts[0].start == start && from == Wrap(parts[|parts| - 1].end + 1)
      && forall k :: 0 <= k < |parts| - 1 ==> parts[k + 1].start == Wrap(parts[k].end + 1)
  }

  lemma StartedNext(parts: seq<Part>, start: int, from: int, part: Part)
    requires IsStarted(parts, start, from) && part.start == from
    ensures IsStarted(parts + [part], start, Wrap(part.end + 1))
  {
  }

  /** The end as the loop computes it. */
  lemma NextEnd(from: int, i: int, n: int, end: int, partSize: int, remainder: int)
    ensures
      var to := Wrap(Wrap(from + partSize) - 1);
      EndOf(from, i, n, end, partSize, remainder) == if i == n - 1 then end else if i < remainder then Wrap(to + 1) else to
  {
    WrapTwice(from, partSize);
  }

  lemma WrapTwice(from: int, partSize: int)
    ensures Wrap(Wrap(from + partSize) - 1) == Wrap(from + partSize - 1)
    ensures Wrap(Wrap(from + partSize - 1) + 1) == Wrap(from + partSize)
  {
  }

  // ---------- exact, balanced partitions ----------

  /** Consecutive parts from `start` to `end`, none of negative size, whose sizes differ by
      at most one. */
  ghost predicate IsPartition(parts: seq<Part>, start: int, end: int) {
    && parts != [] && parts[0].start == start && parts[|parts| - 1].end == end
    && (forall i :: 0 <= i < |parts| - 1 ==> parts[i + 1].start == parts[i].end + 1)
    && (forall i :: 0 <= i < |parts| ==> Size(parts[i]) >= 0)
    && (forall i, j :: 0 <= i < |parts| && 0 <= j < |parts| ==> Size(parts[i]) <= Size(parts[j]) + 1)
  }

  /** Every number of the range lies in exactly one part. */
  lemma {:induction false} PartitionCovers(parts: seq<Part>, start: int, end: int, x: int)
    requires IsPartition(parts, start, end) && start <= x <= end
    ensures exists i :: 0 <= i < |parts| && parts[i].start <= x <= parts[i].end
    ensures forall i, j :: 0 <= i < j < |parts| ==> !(parts[i].start <= x <= parts[i].end && parts[j].start <= x <= parts[j].end)
  {
    var i := 0;
    while parts[i].end < x
      invariant 0 <= i < |parts| && parts[i].start <= x
      decreases |parts| - i
    {
      i := i + 1;
    }
    forall i, j | 0 <= i < j < |parts|
      ensures parts[i].end < parts[j].start
    {
      PartsAscend(parts, start, end, i, j);
    }
  }

  lemma {:induction false} PartsAscend(parts: seq<Part>, start: int, end: int, i: nat, j: nat)
    requires IsPartition(parts, start, end) && i < j < |parts|
    ensures parts[i].end < parts[j].start
    decreases j
  {
    if i < j - 1 { PartsAscend(parts, start, end, i, j - 1); }
    assert parts[j - 1 + 1].start == parts[j - 1].end + 1;
  }

  // ---------- when the split is one ----------

  /** One part, or no overflow: the width fits in an int64, and no empty part lies below the
      least one. */
  predicate NoOverflow(start: int, end: int, n: int) {
    n == 1 || (end - start < HALF64 && !(start == MIN64 && end == start))
  }

  function Min(a: int, b: int): int {
    if a <= b then a else b
  }

  /** Where part `i` starts when nothing overflows. */
  function StartOf(start: int, p: int, rem: int, i: int): int {
    start + i * p + Min(i, rem)
  }

  lemma StartOfNext(start: int, p: int, rem: int, i: int)
    ensures StartOf(start, p, rem, i + 1) == StartOf(start, p, rem, i) + p + (if i < rem then 1 else 0)
  {
    assert (i + 1) * p == i * p + p;
  }

  lemma Product(i: int, j: int, p: int)
    requires 0 <= i <= j && p >= 0
    ensures 0 <= i * p <= j * p
  {
    assert j * p == i * p + (j - i) * p;
  }

  lemma Division(total: int, n: int)
    requires total >= 0 && n > 0
    ensures Quo(total, n) == total / n && Rem(total, n) == total % n
    ensures total == n * Quo(total, n) + Rem(total, n) && 0 <= Rem(total, n) < n && Quo(total, n) >= 0
  {
  }

  /** The starts stay between `start` and `end - p`, the start of the last part. */
  lemma StartOfBounds(start: int, end: int, n: int, p: int, rem: int, i: int)
    requires start <= end && n > 0 && end - start == n * p + rem && 0 <= rem < n && p >= 0 && 0 <= i <= n - 1
    ensures start <= StartOf(start, p, rem, i) <= end - p
    ensures i == n - 1 ==> StartOf(start, p, rem, i) == end - p
  {
    Product(i, n - 1, p);
    assert n * p == (n - 1) * p + p;
  }

  lemma {:induction false} PartAt(parts: seq<Part>, start: int, end: int, n: int, i: int)
    requires Int64(start) && Int64(end) && start <= end && n >= 2 && NoOverflow(start, end, n) && IsSplit(parts, start, end, n)
    requires 0 <= i < n
    ensures
      var p, rem := Quo(end - start, n), Rem(end - start, n);
      && parts[i].start == StartOf(start, p, rem, i)
      && parts[i].end == if i == n - 1 then end else StartOf(start, p, rem, i + 1) - 1
    decreases i
  {
    var p, rem := Quo(end - start, n), Rem(end - start, n);
    Division(end - start, n);
    StartOfBounds(start, end, n, p, rem, i);
    if i > 0 {
      PartAt(parts, start, end, n, i - 1);
      assert parts[i - 1 + 1].start == Wrap(parts[i - 1].end + 1);
    }
    if i < n - 1 {
      StartOfNext(start, p, rem, i);
      StartOfBounds(start, end, n, p, rem, i + 1);
      NotBelow(start, end, n, p, rem, i);
    }
  }

  lemma NotBelow(start: int, end: int, n: int, p: int, rem: int, i: int)
    requires Int64(start) && Int64(end) && start <= end && n >= 2 && NoOverflow(start, end, n)
    requires end - start == n * p + rem && 0 <= rem < n && p >= 0 && 0 <= i < n - 1
    ensures Int64(StartOf(start, p, rem, i + 1) - 1)
  {
    StartOfBounds(start, end, n, p, rem, i + 1);
    if start == MIN64 {
      Product(1, i + 1, p);
      if p == 0 { assert n * p == 0; }
    }
  }

  lemma NoOverflowSplits(parts: seq<Part>, start: int, end: int, n: int)
    requires Int64(start) && Int64(end) && start <= end && n >= 1 && NoOverflow(start, end, n) && IsSplit(parts, start, end, n)
    ensures IsPartition(parts, start, end)
    ensures forall i :: 0 <= i < n ==>
      Size(parts[i]) == (end - start) / n + (if i < (end - start) % n || i == n - 1 then 1 else 0)
  {
    if n > 1 {
      var p, rem := Quo(end - start, n), Rem(end - start, n);
      Division(end - start, n);
      forall i | 0 <= i < n
        ensures Size(parts[i]) == p + (if i < rem || i == n - 1 then 1 else 0)
        ensures i < n - 1 ==> parts[i + 1].start == parts[i].end + 1
      {
        PartAt(parts, start, end, n, i);
        if i < n - 1 {
          PartAt(parts, start, end, n, i + 1);
          StartOfNext(start, p, rem, i);
        } else {
          StartOfBounds(start, end, n, p, rem, i);
        }
      }
    }
  }

  lemma {:induction false} EndsBy(parts: seq<Part>, start: int, end: int, i: nat, most: int)
    requires IsPartition(parts, start, end) && i < |parts| && most >= 0 && forall k :: 0 <= k < |parts| ==> Size(parts[k]) <= most
    ensures parts[i].end <= start - 1 + (i + 1) * most
    decreases i
  {
    if i > 0 {
      EndsBy(parts, start, end, i - 1, most);
      assert parts[i - 1 + 1].start == parts[i - 1].end + 1;
      assert (i + 1) * most == i * most + most;
    }
  }

  lemma {:induction false} EndsAscend(parts: seq<Part>, start: int, end: int, i: nat)
    requires IsPartition(parts, start, end) && i < |parts|
    ensures parts[i].end <= end
    decreases |parts| - i
  {
    if i < |parts| - 1 {
      EndsAscend(parts, start, end, i + 1);
      assert parts[i + 1].start == parts[i].end + 1;
    }
  }

  /** A partition into two parts or more has a first part of at most about half the range. */
  lemma FirstIsSmall(parts: seq<Part>, start: int, end: int)
    requires IsPartition(parts, start, end) && |parts| >= 2
    ensures 0 <= Size(parts[0]) && 2 * Size(parts[0]) <= end - start + 2
  {
    EndsAscend(parts, start, end, 1);
    assert parts[0 + 1].start == parts[0].end + 1;
  }

  lemma OverflowFails(parts: seq<Part>, start: int, end: int, n: int)
    requires Int64(start) && Int64(end) && start <= end && 1 <= n <= MAX32 && !NoOverflow(start, end, n)
    requires IsSplit(parts, start, end, n)
    ensures !IsPartition(parts, start, end)
  {
    if IsPartition(parts, start, end) {
      FirstIsSmall(parts, start, end);
      FirstPart(parts, start, end, n);
      if Size(parts[0]) == 0 {
        EndsBy(parts, start, end, n - 1, 1);
      }
      assert false;
    }
  }

  /** With an overflow the first part is negative, far too large, or empty. */
  lemma FirstPart(parts: seq<Part>, start: int, end: int, n: int)
    requires Int64(start) && Int64(end) && start <= end && 1 <= n <= MAX32 && !NoOverflow(start, end, n)
    requires IsSplit(parts, start, end, n)
    ensures Size(parts[0]) <= 0 || 2 * Size(parts[0]) > end - start + 2
    ensures Size(parts[0]) == 0 ==> end - start >= HALF64
  {
    var total := Wrap(end - start);
    QuoBounds(total, n);
  }

  lemma QuoBounds(total: int, n: int)
    requires -HALF64 <= total <= 0 && n >= 2
    ensures -0x4000_0000_0000_0000 <= Quo(total, n) <= 0 && Rem(total, n) <= 0
  {
  }

  /** For a range that is not empty the split is an exact, balanced partition if and only if
      nothing overflows. */
  lemma SplitExactly(parts: seq<Part>, start: int, end: int, n: int)
    requires Int64(start) && Int64(end) && start <= end && 1 <= n <= MAX32 && IsSplit(parts, start, end, n)
    ensures IsPartition(parts, start, end) <==> NoOverflow(start, end, n)
  {
    if NoOverflow(start, end, n) {
      NoOverflowSplits(parts, start, end, n);
    } else {
      OverflowFails(parts, start, end, n);
    }
  }
}
