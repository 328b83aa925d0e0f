/** Shares of GPU memory (agent/internal/container/hami.go).  Devices and containers are
    only compared, so their identifiers may be of any type. */
module Gpu {
  import opened Graph
  import opened Lists
  import opened Model

  datatype Device<D> = Device(uuid: D, availMB: int)

  datatype Allocation<D> = Allocation(uuid: D, memoryMB: int)

  /** Reading a Go map: a missing key counts as 0. */
  function Get<K>(m: map<K, int>, k: K): int {
    if k in m then m[k] else 0
  }

  // ---------- sums over containers ----------

  ghost function Sum<C(!new)>(s: set<C>, f: C -> int): int {
    if s == {} then 0 else var c :| c in s; f(c) + Sum(s - {c}, f)
  }

  /** Any element can be taken out first. */
  lemma {:induction false} SumWithout<C(!new)>(s: set<C>, f: C -> int, c: C)
    requires c in s
    ensures Sum(s, f) == f(c) + Sum(s - {c}, f)
    decreases s
  {
    var d :| d in s && Sum(s, f) == f(d) + Sum(s - {d}, f);
    if d != c {
      SumWithout(s - {d}, f, c);
      SumWithout(s - {c}, f, d);
      assert s - {d} - {c} == s - {c} - {d};
    }
  }

  lemma {:induction false} SumSame<C(!new)>(s: set<C>, f: C -> int, g: C -> int)
    requires forall c :: c in s ==> f(c) == g(c)
    ensures Sum(s, f) == Sum(s, g)
    decreases s
  {
    if s != {} {
      var c :| c in s;
      SumWithout(s, f, c);
      SumWithout(s, g, c);
      SumSame(s - {c}, f, g);
    }
  }

  lemma {:induction false} SumNonNegative<C(!new)>(s: set<C>, f: C -> int)
    requires forall c :: c in s ==> f(c) >= 0
    ensures Sum(s, f) >= 0
    decreases s
  {
    if s != {} {
      var c :| c in s;
      SumWithout(s, f, c);
      SumNonNegative(s - {c}, f);
    }
  }

  type Shares<C, D> = map<C, map<D, int>>

  ghost function ShareOf<C(!new), D(!new)>(shares: Shares<C, D>, d: D): C -> int {
    c => if c in shares then Get(shares[c], d) else 0
  }

  /** What all containers together hold of a device. */
  ghost function Total<C(!new), D(!new)>(shares: Shares<C, D>, d: D): int {
    Sum(shares.Keys, ShareOf(shares, d))
  }

  lemma TotalWithout<C(!new), D(!new)>(shares: Shares<C, D>, c: C, d: D)
    ensures Total(shares - {c}, d) == Total(shares, d) - ShareOf(shares, d)(c)
  {
    var rest := shares - {c};
    assert rest.Keys == shares.Keys - {c};
    SumSame(rest.Keys, ShareOf(rest, d), ShareOf(shares, d));
    if c in shares {
      SumWithout(shares.Keys, ShareOf(shares, d), c);
    } else {
      assert rest.Keys == shares.Keys;
    }
  }

  // ---------- the state ----------

  /** Per device, the books agree with what the containers hold. */
  ghost predicate Conserved<C(!new), D(!new)>(taken: map<D, int>, shares: Shares<C, D>) {
    forall d :: Get(taken, d) == Total(shares, d)
  }

  ghost predicate NonNegative<C(!new), D(!new)>(shares: Shares<C, D>) {
    forall c, d :: c in shares && d in shares[c] ==> shares[c][d] >= 0
  }

  function Max(a: int, b: int): int {
    if a >= b then a else b
  }

  /** No device is overcommitted. */
  ghost predicate Within<D(!new)>(devices: seq<Device<D>>, taken: map<D, int>) {
    forall i :: 0 <= i < |devices| ==> Get(taken, devices[i].uuid) <= Max(devices[i].availMB, 0)
  }

  ghost predicate UniqueUuids<D(!new)>(devices: seq<Device<D>>) {
    forall i, j :: 0 <= i < j < |devices| ==> devices[i].uuid != devices[j].uuid
  }

  predicate Free<D>(taken: map<D, int>, d: Device<D>, memoryMB: int) {
    d.availMB - Get(taken, d.uuid) >= memoryMB
  }

  function HasRoom<D>(taken: map<D, int>, memoryMB: int): Device<D> -> bool {
    (d: Device<D>) => Free(taken, d, memoryMB)
  }

  function Room<D>(taken: map<D, int>): Device<D> -> real {
    (d: Device<D>) => (d.availMB - Get(taken, d.uuid)) as real
  }

  // ---------- what calls do ----------

  ghost predicate IsPicked<D(!new)>(picked: seq<Device<D>>, d: D) {
    exists i :: 0 <= i < |picked| && picked[i].uuid == d
  }

  /** Each picked device gives `memoryMB` to the container, and nothing else changes. */
  ghost predicate Granted<C(!new), D(!new)>(taken: map<D, int>, shares: Shares<C, D>, taken': map<D, int>,
                                            shares': Shares<C, D>, c: C, memoryMB: int, picked: seq<Device<D>>)
  {
    && (forall d :: Get(taken', d) == Get(taken, d) + (if IsPicked(picked, d) then memoryMB else 0))
    && (forall x, d :: ShareOf(shares', d)(x) ==
          ShareOf(shares, d)(x) + (if x == c && IsPicked(picked, d) then memoryMB else 0))
    && (forall x :: x in shares' ==> x in shares || x == c)
  }

  lemma GrantedNothing<C(!new), D(!new)>(taken: map<D, int>, shares: Shares<C, D>, c: C, memoryMB: int)
    ensures Granted(taken, shares, taken, shares, c, memoryMB, [])
  {
  }

  /** One more device, not picked before. */
  lemma GrantedNext<C(!new), D(!new)>(taken: map<D, int>, shares: Shares<C, D>, taken': map<D, int>, shares': Shares<C, D>,
                                      c: C, memoryMB: int, picked: seq<Device<D>>, i: nat)
    requires i < |picked| && UniqueUuids(picked) && Granted(taken, shares, taken', shares', c, memoryMB, picked[..i])
    ensures
      var uuid := picked[i].uuid;
      var entry := if c in shares' then shares'[c] else map[];
      Granted(taken, shares, taken'[uuid := Get(taken', uuid) + memoryMB], shares'[c := entry[uuid := Get(entry, uuid) + memoryMB]],
              c, memoryMB, picked[..i + 1])
  {
    var uuid := picked[i].uuid;
    forall d
      ensures IsPicked(picked[..i + 1], d) <==> IsPicked(picked[..i], d) || d == uuid
      ensures d == uuid ==> !IsPicked(picked[..i], d)
    {
      PickedNext(picked, i, d);
    }
  }

  lemma GrantedToPicked<C(!new), D(!new)>(taken: map<D, int>, shares: Shares<C, D>, taken': map<D, int>, shares': Shares<C, D>,
                                          c: C, memoryMB: int, picked: seq<Device<D>>)
    requires Granted(taken, shares, taken', shares', c, memoryMB, picked)
    ensures forall p :: p in picked ==> Get(taken', p.uuid) == Get(taken, p.uuid) + memoryMB
    ensures forall d :: (forall p :: p in picked ==> p.uuid != d) ==> Get(taken', d) == Get(taken, d)
  {
    forall p | p in picked
      ensures IsPicked(picked, p.uuid)
    {
      var i :| 0 <= i < |picked| && picked[i] == p;
    }
  }

  lemma PickedNext<D(!new)>(picked: seq<Device<D>>, i: nat, d: D)
    requires i < |picked| && UniqueUuids(picked)
    ensures IsPicked(picked[..i + 1], d) <==> IsPicked(picked[..i], d) || d == picked[i].uuid
    ensures d == picked[i].uuid ==> !IsPicked(picked[..i], d)
  {
    assert picked[..i + 1] == picked[..i] + [picked[i]];
    if d == picked[i].uuid { assert picked[..i + 1][i].uuid == d; }
    if IsPicked(picked[..i], d) {
      var k :| 0 <= k < i && picked[..i][k].uuid == d;
      assert picked[..i + 1][k].uuid == d;
    }
  }

  /** A grant keeps the books balanced, for any request. */
  lemma GrantedConserves<C(!new), D(!new)>(taken: map<D, int>, shares: Shares<C, D>, taken': map<D, int>, shares': Shares<C, D>,
                                           c: C, memoryMB: int, picked: seq<Device<D>>)
    requires Conserved(taken, shares) && Granted(taken, shares, taken', shares', c, memoryMB, picked)
    ensures Conserved(taken', shares')
  {
    forall d
      ensures Get(taken', d) == Total(shares', d)
    {
      SameOthers(shares, shares', c, d);
    }
  }

  lemma SameOthers<C(!new), D(!new)>(shares: Shares<C, D>, shares': Shares<C, D>, c: C, d: D)
    requires forall x :: x != c ==> ShareOf(shares', d)(x) == ShareOf(shares, d)(x)
    ensures Total(shares', d) - ShareOf(shares', d)(c) == Total(shares, d) - ShareOf(shares, d)(c)
  {
    TotalWithout(shares, c, d);
    TotalWithout(shares', c, d);
    var a, b := shares - {c}, shares' - {c};
    forall x
      ensures ShareOf(a, d)(x) == (if x == c then 0 else ShareOf(shares, d)(x))
      ensures ShareOf(b, d)(x) == (if x == c then 0 else ShareOf(shares', d)(x))
    {
      ShareWithout(shares, c, d, x);
      ShareWithout(shares', c, d, x);
    }
    SumWider(a.Keys, b.Keys, ShareOf(a, d), ShareOf(b, d));
  }

  lemma ShareWithout<C(!new), D(!new)>(shares: Shares<C, D>, c: C, d: D, x: C)
    ensures ShareOf(shares - {c}, d)(x) == if x == c then 0 else ShareOf(shares, d)(x)
  {
  }

  /** Elements that count 0 may be left out of a sum. */
  lemma SumWider<C(!new)>(s: set<C>, t: set<C>, f: C -> int, g: C -> int)
    requires forall c :: c in s + t ==> f(c) == g(c)
    requires forall c :: c in t - s ==> g(c) == 0
    requires forall c :: c in s - t ==> f(c) == 0
    ensures Sum(s, f) == Sum(t, g)
  {
    SumZeros(s + t, s, f);
    SumZeros(s + t, t, g);
    SumSame(s + t, f, g);
  }

  lemma {:induction false} SumZeros<C(!new)>(s: set<C>, t: set<C>, f: C -> int)
    requires t <= s && forall c :: c in s - t ==> f(c) == 0
    ensures Sum(s, f) == Sum(t, f)
    decreases s
  {
    var extra := s - t;
    if extra == {} {
      assert forall c :: c in s && c !in t ==> c in extra;
      assert s == t;
    } else {
      var c :| c in extra;
      SumWithout(s, f, c);
      SumZeros(s - {c}, t, f);
    }
  }

  /** A non-negative grant on devices with room overcommits none. */
  lemma GrantedWithin<C(!new), D(!new)>(devices: seq<Device<D>>, taken: map<D, int>, shares: Shares<C, D>, taken': map<D, int>,
                                        shares': Shares<C, D>, c: C, memoryMB: int, picked: seq<Device<D>>)
    requires Granted(taken, shares, taken', shares', c, memoryMB, picked) && memoryMB >= 0
    requires Within(devices, taken) && UniqueUuids(devices)
    requires forall p :: p in picked ==> p in devices && Free(taken, p, memoryMB)
    ensures Within(devices, taken')
  {
    forall i | 0 <= i < |devices|
      ensures Get(taken', devices[i].uuid) <= Max(devices[i].availMB, 0)
    {
      if IsPicked(picked, devices[i].uuid) {
        var k :| 0 <= k < |picked| && picked[k].uuid == devices[i].uuid;
        assert picked[k] in picked;
        var j :| 0 <= j < |devices| && devices[j] == picked[k];
        assert i == j;
      }
    }
  }

  lemma GrantedNonNegative<C(!new), D(!new)>(taken: map<D, int>, shares: Shares<C, D>, taken': map<D, int>, shares': Shares<C, D>,
                                             c: C, memoryMB: int, picked: seq<Device<D>>)
    requires Granted(taken, shares, taken', shares', c, memoryMB, picked) && memoryMB >= 0 && NonNegative(shares)
    ensures NonNegative(shares')
  {
    forall x, d | x in shares' && d in shares'[x]
      ensures shares'[x][d] >= 0
    {
      assert ShareOf(shares', d)(x) == shares'[x][d];
      assert ShareOf(shares, d)(x) >= 0;
    }
  }

  // ---------- releasing ----------

  /** What releasing a container does: its shares go, and a device with nothing left to
      account for goes from the books. */
  ghost predicate Released<C(!new), D(!new)>(taken: map<D, int>, shares: Shares<C, D>, taken': map<D, int>,
                                             shares': Shares<C, D>, c: C)
  {
    && shares' == shares - {c}
    && forall d :: Get(taken', d) ==
         if c in shares && d in shares[c] then Max(Get(taken, d) - shares[c][d], 0) else Get(taken, d)
  }

  /** The books stay balanced exactly when no device's remaining total is negative; that is
      so in particular when no share is. */
  lemma ReleaseConserves<C(!new), D(!new)>(taken: map<D, int>, shares: Shares<C, D>, taken': map<D, int>,
                                           shares': Shares<C, D>, c: C)
    requires Conserved(taken, shares) && Released(taken, shares, taken', shares', c)
    ensures Conserved(taken', shares') <==> (c in shares ==> forall d :: d in shares[c] ==> Total(shares', d) >= 0)
    ensures NonNegative(shares) ==> Conserved(taken', shares') && NonNegative(shares')
  {
    forall d
      ensures Total(shares', d) == Get(taken, d) - ShareOf(shares, d)(c)
      ensures NonNegative(shares) ==> Total(shares', d) >= 0
    {
      TotalWithout(shares, c, d);
      if NonNegative(shares) { SumNonNegative(shares'.Keys, ShareOf(shares', d)); }
    }
    if c in shares && !Conserved(taken', shares') {
      var d :| Get(taken', d) != Total(shares', d);
      assert d in shares[c];
    }
    if c in shares {
      forall d | d in shares[c] && Total(shares', d) < 0
        ensures Get(taken', d) != Total(shares', d)
      {
      }
    }
  }

  /** The books while the devices in `rest` are still to be released. */
  function Remaining<D(==)>(taken: map<D, int>, entry: map<D, int>, rest: set<D>, d: D): int {
    if d in entry && d !in rest then Max(Get(taken, d) - entry[d], 0) else Get(taken, d)
  }

  lemma RemainingNext<D(!new)>(before: map<D, int>, taken: map<D, int>, entry: map<D, int>, rest: set<D>, uuid: D)
    requires uuid in rest && rest <= entry.Keys && forall d :: Get(taken, d) == Remaining(before, entry, rest, d)
    ensures
      var less := taken[uuid := Get(taken, uuid) - entry[uuid]];
      forall d :: Get(if less[uuid] <= 0 then less - {uuid} else less, d) == Remaining(before, entry, rest - {uuid}, d)
  {
    var less := taken[uuid := Get(taken, uuid) - entry[uuid]];
    forall d
      ensures Get(if less[uuid] <= 0 then less - {uuid} else less, d) == Remaining(before, entry, rest - {uuid}, d)
    {
      assert Get(taken, d) == Remaining(before, entry, rest, d);
    }
  }

  lemma ReleaseWithin<C(!new), D(!new)>(devices: seq<Device<D>>, taken: map<D, int>, shares: Shares<C, D>,
                                        taken': map<D, int>, shares': Shares<C, D>, c: C)
    requires Within(devices, taken) && NonNegative(shares) && Released(taken, shares, taken', shares', c)
    ensures Within(devices, taken')
  {
    forall i | 0 <= i < |devices|
      ensures Get(taken', devices[i].uuid) <= Max(devices[i].availMB, 0)
    {
      assert Get(taken, devices[i].uuid) <= Max(devices[i].availMB, 0);
    }
  }

  /** With negative requests releasing can lose memory: -5 granted to one container and 3 to
      another leave the books empty after the other is released. */
  lemma NegativeRequestBreaks(shares: Shares<int, int>, taken: map<int, int>)
    requires shares == map[1 := map[0 := -5], 2 := map[0 := 3]] && taken == map[0 := -2]
    ensures Conserved(taken, shares) && Released(taken, shares, map[], shares - {2}, 2)
    ensures !Conserved(map[], shares - {2})
  {
    forall d
      ensures Total(shares, d) == Get(taken, d)
      ensures Total(shares - {2}, d) == if d == 0 then -5 else 0
    {
      TotalWithout(shares, 2, d);
      TotalWithout(shares - {2}, 1, d);
      assert (shares - {2} - {1}).Keys == {};
    }
    assert Get(map[], 0) == 0;
  }

  /** Granting to a container without shares and releasing it leaves every device and every
      other container as it was. */
  lemma ReleaseUndoes<C(!new), D(!new)>(taken: map<D, int>, shares: Shares<C, D>, taken1: map<D, int>, shares1: Shares<C, D>,
                                        taken2: map<D, int>, shares2: Shares<C, D>, c: C, memoryMB: int, picked: seq<Device<D>>)
    requires Conserved(taken, shares) && NonNegative(shares) && memoryMB >= 0 && c !in shares
    requires Granted(taken, shares, taken1, shares1, c, memoryMB, picked)
    requires Released(taken1, shares1, taken2, shares2, c)
    ensures forall d :: Get(taken2, d) == Get(taken, d)
    ensures forall x, d :: ShareOf(shares2, d)(x) == ShareOf(shares, d)(x)
  {
    GrantedConserves(taken, shares, taken1, shares1, c, memoryMB, picked);
    GrantedNonNegative(taken, shares, taken1, shares1, c, memoryMB, picked);
    ReleaseConserves(taken1, shares1, taken2, shares2, c);
    forall x, d
      ensures ShareOf(shares2, d)(x) == ShareOf(shares, d)(x)
      ensures Get(taken2, d) == Get(taken, d)
    {
      ShareWithout(shares1, c, d, x);
      TotalWithout(shares1, c, d);
    }
  }

  // ---------- candidates ----------

  lemma KeptUnique<D(!new)>(devices: seq<Device<D>>, taken: map<D, int>, memoryMB: int, ranked: seq<Device<D>>)
    requires UniqueUuids(devices) && multiset(ranked) == multiset(Keep(devices, HasRoom(taken, memoryMB)))
    ensures UniqueUuids(ranked) && |ranked| == |Keep(devices, HasRoom(taken, memoryMB))|
    ensures forall p :: p in ranked <==> p in devices && Free(taken, p, memoryMB)
  {
    var kept := Keep(devices, HasRoom(taken, memoryMB));
    KeepDistinct(devices, HasRoom(taken, memoryMB));
    PermutationDistinct(kept, ranked);
    assert |multiset(ranked)| == |multiset(kept)|;
    forall p
      ensures p in ranked <==> p in devices && Free(taken, p, memoryMB)
    {
      assert p in ranked <==> p in multiset(ranked);
      assert p in kept <==> p in multiset(kept);
      InKeep(devices, HasRoom(taken, memoryMB), p);
    }
    forall i, j | 0 <= i < j < |ranked|
      ensures ranked[i].uuid != ranked[j].uuid
    {
      assert ranked[i] != ranked[j] && ranked[i] in ranked && ranked[j] in ranked;
      var a :| 0 <= a < |devices| && devices[a] == ranked[i];
      var b :| 0 <= b < |devices| && devices[b] == ranked[j];
    }
  }

  /** The devices whose memory, less what all containers hold of it together, is enough. */
  ghost function Roomy<C(!new), D(!new)>(devices: seq<Device<D>>, shares: Shares<C, D>, memoryMB: int): set<int> {
    set i | 0 <= i < |devices| && devices[i].availMB - Total(shares, devices[i].uuid) >= memoryMB
  }

  /** With balanced books, a device has as much room as its memory exceeds what all containers
      hold of it together. */
  lemma RoomCount<C(!new), D(!new)>(devices: seq<Device<D>>, taken: map<D, int>, shares: Shares<C, D>, memoryMB: int)
    requires Conserved(taken, shares)
    ensures |Keep(devices, HasRoom(taken, memoryMB))| == |Roomy(devices, shares, memoryMB)|
  {
    var p := HasRoom(taken, memoryMB);
    KeepCount(devices, p);
    forall i | 0 <= i < |devices|
      ensures HasRoom(taken, memoryMB)(devices[i]) <==> devices[i].availMB - Total(shares, devices[i].uuid) >= memoryMB
    {
      assert Get(taken, devices[i].uuid) == Total(shares, devices[i].uuid);
    }
    assert Positions(devices, p) == Roomy(devices, shares, memoryMB);
  }

  /** Each picked device has enough room, and no less than any other with enough room. */
  lemma PickedHaveRoom<C(!new), D(!new)>(devices: seq<Device<D>>, taken: map<D, int>, shares: Shares<C, D>, memoryMB: int,
                                         count: int, picked: seq<Device<D>>, p: Device<D>, other: Device<D>)
    requires Conserved(taken, shares) && Picked(devices, taken, memoryMB, count, picked) && p in picked
    ensures p.availMB - Total(shares, p.uuid) >= memoryMB
    ensures other in devices && other !in picked && other.availMB - Total(shares, other.uuid) >= memoryMB ==>
      p.availMB - Total(shares, p.uuid) >= other.availMB - Total(shares, other.uuid)
  {
    assert Get(taken, p.uuid) == Total(shares, p.uuid) && Get(taken, other.uuid) == Total(shares, other.uuid);
    assert Free(taken, p, memoryMB);
    if other in devices && other !in picked && Free(taken, other, memoryMB) {
      assert Room(taken)(p) >= Room(taken)(other);
    }
  }

  /** The devices with the most room were picked. */
  ghost predicate MostRoom<D(!new)>(devices: seq<Device<D>>, taken: map<D, int>, memoryMB: int, picked: seq<Device<D>>) {
    forall p, other :: p in picked && other in devices && Free(taken, other, memoryMB) && other !in picked ==>
      Room(taken)(p) >= Room(taken)(other)
  }

  lemma FirstHaveMostRoom<D(!new)>(devices: seq<Device<D>>, taken: map<D, int>, memoryMB: int, ranked: seq<Device<D>>, n: nat)
    requires n <= |ranked| && Descending(ranked, Room(taken))
    requires forall p :: p in ranked <==> p in devices && Free(taken, p, memoryMB)
    ensures MostRoom(devices, taken, memoryMB, ranked[..n])
  {
    forall p, other | p in ranked[..n] && other in ranked && other !in ranked[..n]
      ensures Room(taken)(p) >= Room(taken)(other)
    {
      var i :| 0 <= i < n && ranked[..n][i] == p;
      var j :| 0 <= j < |ranked| && ranked[j] == other;
      assert forall m :: 0 <= m < n ==> ranked[..n][m] == ranked[m];
    }
  }

  /** The devices of a successful call. */
  ghost predicate Picked<D(!new)>(devices: seq<Device<D>>, taken: map<D, int>, memoryMB: int, count: int, picked: seq<Device<D>>) {
    && |picked| == Max(count, 0) && UniqueUuids(picked) && MostRoom(devices, taken, memoryMB, picked)
    && forall p :: p in picked ==> p in devices && Free(taken, p, memoryMB)
  }

  ghost predicate AreAllocations<D(!new)>(allocs: seq<Allocation<D>>, memoryMB: int, picked: seq<Device<D>>) {
    |allocs| == |picked| && forall i :: 0 <= i < |picked| ==> allocs[i] == Allocation(picked[i].uuid, memoryMB)
  }

  ghost predicate Balanced<C(!new), D(!new)>(devices: seq<Device<D>>, taken: map<D, int>, shares: Shares<C, D>) {
    Conserved(taken, shares) && NonNegative(shares) && Within(devices, taken)
  }

  lemma GrantedKeeps<C(!new), D(!new)>(devices: seq<Device<D>>, taken: map<D, int>, shares: Shares<C, D>, taken': map<D, int>,
                                       shares': Shares<C, D>, c: C, memoryMB: int, count: int, picked: seq<Device<D>>)
    requires UniqueUuids(devices) && Picked(devices, taken, memoryMB, count, picked)
    requires Granted(taken, shares, taken', shares', c, memoryMB, picked)
    ensures Conserved(taken, shares) ==> Conserved(taken', shares')
    ensures Balanced(devices, taken, shares) && memoryMB >= 0 ==> Balanced(devices, taken', shares')
  {
    if Conserved(taken, shares) {
      GrantedConserves(taken, shares, taken', shares', c, memoryMB, picked);
      if memoryMB >= 0 && NonNegative(shares) && Within(devices, taken) {
        GrantedWithin(devices, taken, shares, taken', shares', c, memoryMB, picked);
        GrantedNonNegative(taken, shares, taken', shares', c, memoryMB, picked);
      }
    }
  }

  class HAMiManager<C(==, !new), D(==, !new)> {
    const enabled: bool
    var taken: map<D, int>
    var shares: Shares<C, D>
    var devices: seq<Device<D>>

    constructor (enabled: bool)
      ensures Valid() && Sane() && this.enabled == enabled && devices == []
    {
      this.enabled := enabled;
      taken, shares, devices := map[], map[], [];
    }

    ghost predicate Valid()
      reads this
    {
      UniqueUuids(devices)
    }

    /** Holds in every run of releases and of allocations with non-negative requests. */
    ghost predicate Sane()
      reads this
    {
      Balanced(devices, taken, shares) && (devices == [] ==> forall d :: Get(taken, d) == 0)
    }

    /** Grants `memoryMB` on the `count` devices with the most room, if that many have enough;
        otherwise changes no books.  `discovered` is what a query of the driver returns. */
    method AllocateGPUs(c: C, memoryMB: int, count: int, discovered: seq<Device<D>>)
      returns (allocs: Option<seq<Allocation<D>>>, ghost picked: seq<Device<D>>)
      requires Valid() && UniqueUuids(discovered)
      modifies this
      ensures Valid() && devices == if enabled && old(devices) == [] then discovered else old(devices)
      ensures allocs.Some? <==> enabled && devices != [] && |Keep(devices, HasRoom(old(taken), memoryMB))| >= count
      ensures old(Conserved(taken, shares)) ==> 
        (allocs.Some? <==> enabled && devices != [] && |Roomy(devices, old(shares), memoryMB)| >= count)
      ensures allocs.None? ==> taken == old(taken) && shares == old(shares)
      ensures allocs.Some? ==> Picked(devices, old(taken), memoryMB, count, picked) && AreAllocations(allocs.value, memoryMB, picked)
      ensures allocs.Some? ==> Granted(old(taken), old(shares), taken, shares, c, memoryMB, picked)
      ensures allocs.Some? ==> |allocs.value| == Max(count, 0) && forall a :: a in allocs.value ==> a.memoryMB == memoryMB
      ensures allocs.Some? ==> forall p :: p in picked ==> Get(taken, p.uuid) == Get(old(taken), p.uuid) + memoryMB
      ensures allocs.Some? ==> forall d :: (forall p :: p in picked ==> p.uuid != d) ==> Get(taken, d) == Get(old(taken), d)
      ensures old(Conserved(taken, shares)) ==> Conserved(taken, shares)
      ensures old(Sane()) && memoryMB >= 0 ==> Sane()
    {
      allocs, picked := None, [];
      if !enabled {
        return;
      }
      if |devices| == 0 {
        devices := discovered;
      }
      if |devices| == 0 {
        return;
      }
      var candidates := Candidates(memoryMB);
      KeptUnique(devices, taken, memoryMB, candidates);
      if Conserved(taken, shares) { RoomCount(devices, taken, shares, memoryMB); }
      if |candidates| < count {
        return;
      }
      var n := if count < 0 then 0 else count;
      FirstHaveMostRoom(devices, taken, memoryMB, candidates, n);
      picked := candidates[..n];
      var list := Grant(c, memoryMB, candidates[..n]);
      allocs := Some(list);
      GrantedKeeps(devices, old(taken), old(shares), taken, shares, c, memoryMB, count, picked);
      GrantedToPicked(old(taken), old(shares), taken, shares, c, memoryMB, picked);
    }

    /** The devices with enough room, those with the most first. */
    method Candidates(memoryMB: int) returns (candidates: seq<Device<D>>)
      ensures Descending(candidates, Room(taken))
      ensures multiset(candidates) == multiset(Keep(devices, HasRoom(taken, memoryMB)))
    {
      var list := devices;
      candidates := [];
      for i := 0 to |list|
        invariant candidates == Keep(list[..i], HasRoom(taken, memoryMB))
      {
        KeepNext(list, i, HasRoom(taken, memoryMB));
        var avail := list[i].availMB - Get(taken, list[i].uuid);
        if avail >= memoryMB {
          candidates := candidates + [list[i]];
        }
      }
      assert list[..|list|] == list;
      candidates := Rank(candidates, Room(taken));
    }

    /** The loop over the picked devices. */
    method Grant(c: C, memoryMB: int, picked: seq<Device<D>>) returns (allocs: seq<Allocation<D>>)
      requires UniqueUuids(picked)
      modifies this`taken, this`shares
      ensures Granted(old(taken), old(shares), taken, shares, c, memoryMB, picked)
      ensures AreAllocations(allocs, memoryMB, picked)
    {
      allocs := [];
      ghost var taken0, shares0 := taken, shares;
      assert picked[..0] == [];
      GrantedNothing(taken, shares, c, memoryMB);
      for i := 0 to |picked|
        invariant Granted(taken0, shares0, taken, shares, c, memoryMB, picked[..i])
        invariant AreAllocations(allocs, memoryMB, picked[..i])
      {
        GrantedNext(taken0, shares0, taken, shares, c, memoryMB, picked, i);
        var uuid := picked[i].uuid;
        var entry := if c in shares then shares[c] else map[];
        taken, shares := taken[uuid := Get(taken, uuid) + memoryMB], shares[c := entry[uuid := Get(entry, uuid) + memoryMB]];
        allocs := allocs + [Allocation(uuid, memoryMB)];
      }
      assert picked[..|picked|] == picked;
    }

    /** Gives back all that the container holds. */
    method ReleaseGPUs(c: C)
      modifies this`taken, this`shares
      ensures enabled ==> Released(old(taken), old(shares), taken, shares, c)
      ensures !enabled ==> taken == old(taken) && shares == old(shares)
      ensures old(Sane()) ==> Sane()
    {
      if !enabled {
        return;
      }
      if c in shares {
        var entry := shares[c];
        var rest := entry.Keys;
        while rest != {}
          invariant rest <= entry.Keys && shares == old(shares)
          invariant forall d :: Get(taken, d) == Remaining(old(taken), entry, rest, d)
          decreases rest
        {
          var uuid :| uuid in rest;
          RemainingNext(old(taken), taken, entry, rest, uuid);
          rest := rest - {uuid};
          taken := taken[uuid := Get(taken, uuid) - entry[uuid]];
          if taken[uuid] <= 0 {
            taken := taken - {uuid};
          }
        }
        shares := shares - {c};
      }
      assert c !in old(shares) ==> old(shares) - {c} == old(shares);
      if old(Sane()) {
        ReleaseConserves(old(taken), old(shares), taken, shares, c);
        ReleaseWithin(devices, old(taken), old(shares), taken, shares, c);
      }
    }

    /** What is reported as available: the physical memory less what is allocated. */
    method AvailableGPUs(discovered: seq<Device<D>>) returns (gpus: seq<Device<D>>)
      ensures var list := if devices != [] then devices else discovered;
        |gpus| == |list| && forall i :: 0 <= i < |list| ==>
          && gpus[i].uuid == list[i].uuid
          && gpus[i].availMB == if list[i].uuid in taken then Max(list[i].availMB - taken[list[i].uuid], 0) else list[i].availMB
    {
      var list := if |devices| > 0 then devices else discovered;
      gpus := [];
      for i := 0 to |list|
        invariant |gpus| == i
        invariant forall k :: 0 <= k < i ==>
          && gpus[k].uuid == list[k].uuid
          && gpus[k].availMB == if list[k].uuid in taken then Max(list[k].availMB - taken[list[k].uuid], 0) else list[k].availMB
      {
        var gpu := list[i];
        if gpu.uuid in taken {
          gpu := gpu.(availMB := gpu.availMB - taken[gpu.uuid]);
          if gpu.availMB < 0 {
            gpu := gpu.(availMB := 0);
          }
        }
        gpus := gpus + [gpu];
      }
    }
  }
}
