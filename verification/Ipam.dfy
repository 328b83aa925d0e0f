/** Overlay addresses (scheduler/internal/ipam/ipam.go), for IPv4 networks. */
module Ipam {
  import opened FileNames
  import opened Model
  import opened Powers
  import opened StoreView

  // ---------- addresses ----------

  /** Four bytes, the most significant first. */
  predicate IsIPv4(ip: seq<int>) {
    |ip| == 4 && forall i :: 0 <= i < 4 ==> 0 <= ip[i] < 256
  }

  const ADDRESSES := 0x1_0000_0000

  function Value(ip: seq<int>): (v: int)
    requires IsIPv4(ip)
    ensures 0 <= v < ADDRESSES
  {
    ((ip[0] * 256 + ip[1]) * 256 + ip[2]) * 256 + ip[3]
  }

  lemma ValueTells(a: seq<int>, b: seq<int>)
    requires IsIPv4(a) && IsIPv4(b) && Value(a) == Value(b)
    ensures a == b
  {
    ByteTells((a[0] * 256 + a[1]) * 256 + a[2], a[3], (b[0] * 256 + b[1]) * 256 + b[2], b[3]);
    ByteTells(a[0] * 256 + a[1], a[2], b[0] * 256 + b[1], b[2]);
    ByteTells(a[0], a[1], b[0], b[1]);
  }

  lemma ByteTells(x: int, low: int, y: int, low': int)
    requires x * 256 + low == y * 256 + low' && 0 <= low < 256 && 0 <= low' < 256
    ensures x == y && low == low'
  {
  }

  function Decimal(n: nat): string {
    Fixed(n, Width(n))
  }

  /** The dotted form. */
  function Dotted(ip: seq<int>): (s: string)
    requires IsIPv4(ip)
    ensures s != ""
  {
    Decimal(ip[0]) + ['.'] + Decimal(ip[1]) + ['.'] + Decimal(ip[2]) + ['.'] + Decimal(ip[3])
  }

  lemma DecimalTells(m: nat, n: nat)
    requires Decimal(m) == Decimal(n)
    ensures m == n
  {
    ParseFixed(m, Width(m));
    ParseFixed(n, Width(n));
  }

  lemma SplitNumber(p: string, m: nat, q: string, n: nat)
    requires p + ['.'] + Decimal(m) == q + ['.'] + Decimal(n)
    ensures p == q && m == n
  {
    DigitsOnly(m, Width(m), '.');
    DigitsOnly(n, Width(n), '.');
    SplitAtLast('.', p, Decimal(m), q, Decimal(n));
    DecimalTells(m, n);
  }

  /** Different addresses have different dotted forms. */
  lemma DottedTells(a: seq<int>, b: seq<int>)
    requires IsIPv4(a) && IsIPv4(b) && Dotted(a) == Dotted(b)
    ensures a == b
  {
    var a2, b2 := Decimal(a[0]) + ['.'] + Decimal(a[1]), Decimal(b[0]) + ['.'] + Decimal(b[1]);
    SplitNumber(a2 + ['.'] + Decimal(a[2]), a[3], b2 + ['.'] + Decimal(b[2]), b[3]);
    SplitNumber(a2, a[2], b2, b[2]);
    SplitNumber(Decimal(a[0]), a[1], Decimal(b[0]), b[1]);
    DecimalTells(a[0], b[0]);
  }

  // ---------- reading the text ----------

  lemma DottedIs()
    ensures Dotted([10, 1, 0, 2]) == "10.1.0.2"
  {
    assert Decimal(10) == "10" && Decimal(1) == "1" && Decimal(0) == "0" && Decimal(2) == "2";
  }

  /** The position of the first dot, or the length. */
  function FirstDot(s: string): (i: nat)
    ensures i <= |s| && (i < |s| ==> s[i] == '.') && '.' !in s[..i]
  {
    if s == "" || s[0] == '.' then 0
    else
      var i := FirstDot(s[1..]);
      assert s[..1 + i] == [s[0]] + s[1..][..i];
      1 + i
  }

  /** Reads decimal fields between dots from the left, each worth 256 of the next. */
  function ReadFields(s: string, read: nat): nat
    decreases |s|
  {
    var i := FirstDot(s);
    if i == |s| then 256 * read + Parse(s) else ReadFields(s[i + 1..], 256 * read + Parse(s[..i]))
  }

  function ReadAddress(s: string): nat {
    ReadFields(s, 0)
  }

  lemma {:induction false} DotBehind(p: string, rest: string)
    requires '.' !in p
    ensures FirstDot(p) == |p| && FirstDot(p + ['.'] + rest) == |p|
    decreases |p|
  {
    var s := p + ['.'] + rest;
    if p != "" {
      DotBehind(p[1..], rest);
      assert s[1..] == p[1..] + ['.'] + rest;
    }
  }

  lemma ReadField(s: string, n: nat, p: string, rest: string, next: nat)
    requires '.' !in p && s == p + ['.'] + rest && next == 256 * n + Parse(p)
    ensures ReadFields(s, n) == ReadFields(rest, next)
  {
    DotBehind(p, rest);
    assert s[..|p|] == p && s[|p| + 1..] == rest;
    ReadTo(s, n, |p|, next);
  }

  lemma ReadTo(s: string, n: nat, i: nat, next: nat)
    requires i == FirstDot(s) < |s| && next == 256 * n + Parse(s[..i])
    ensures ReadFields(s, n) == ReadFields(s[i + 1..], next)
  {
  }

  lemma ReadLast(p: string, n: nat, next: nat)
    requires '.' !in p && next == 256 * n + Parse(p)
    ensures ReadFields(p, n) == next
  {
    DotBehind(p, "");
  }

  lemma Regroup(a: string, b: string, c: string, d: string)
    ensures a + ['.'] + b + ['.'] + c + ['.'] + d == a + ['.'] + (b + ['.'] + (c + ['.'] + d))
  {
  }

  lemma DecimalReads(n: nat)
    ensures '.' !in Decimal(n) && Parse(Decimal(n)) == n
  {
    DigitsOnly(n, Width(n), '.');
    ParseFixed(n, Width(n));
  }

  /** The dotted form of an address reads as its number. */
  lemma DottedReads(ip: seq<int>)
    requires IsIPv4(ip)
    ensures ReadAddress(Dotted(ip)) == Value(ip)
  {
    DecimalReads(ip[0]);
    DecimalReads(ip[1]);
    DecimalReads(ip[2]);
    DecimalReads(ip[3]);
    var a, b, c, d := Decimal(ip[0]), Decimal(ip[1]), Decimal(ip[2]), Decimal(ip[3]);
    var ab := ip[0] * 256 + ip[1];
    var abc := ab * 256 + ip[2];
    Regroup(a, b, c, d);
    ReadField(Dotted(ip), 0, a, b + ['.'] + (c + ['.'] + d), ip[0]);
    ReadField(b + ['.'] + (c + ['.'] + d), ip[0], b, c + ['.'] + d, ab);
    ReadField(c + ['.'] + d, ab, c, d, abc);
    ReadLast(d, abc, Value(ip));
  }

  // ---------- the next address ----------

  /** Increments a copy from the last byte, carrying while a byte wraps to 0: one more,
      modulo 2^32. */
  method NextIP(ip: seq<int>) returns (next: seq<int>)
    requires IsIPv4(ip)
    ensures IsIPv4(next) && Value(next) == (Value(ip) + 1) % ADDRESSES
  {
    var bytes := new int[4](i requires 0 <= i < 4 => ip[i]);
    var i := 3;
    while i >= 0
      invariant -1 <= i <= 3
      invariant forall k :: 0 <= k <= i ==> bytes[k] == ip[k]
      invariant forall k :: i < k < 4 ==> bytes[k] == 0 && ip[k] == 255
    {
      bytes[i] := (bytes[i] + 1) % 256;
      if bytes[i] != 0 {
        break;
      }
      i := i - 1;
    }
    next := bytes[..];
    SuccessorIs(Value(ip));
    if i >= 0 { Carried(ip, next, i); }
  }

  lemma Carried(ip: seq<int>, next: seq<int>, i: nat)
    requires IsIPv4(ip) && IsIPv4(next) && i < 4 && next[i] == ip[i] + 1
    requires forall k :: 0 <= k < i ==> next[k] == ip[k]
    requires forall k :: i < k < 4 ==> next[k] == 0 && ip[k] == 255
    ensures Value(next) == Value(ip) + 1
  {
  }

  // ---------- networks ----------

  datatype Network = Network(base: int, prefix: nat)

  /** A network of prefix length at least 1: an aligned block of at most half the addresses. */
  predicate IsNetwork(net: Network) {
    1 <= net.prefix <= 32 && 0 <= net.base && net.base % Pow2(32 - net.prefix) == 0 && Last(net) < ADDRESSES
  }

  function Last(net: Network): int
    requires net.prefix <= 32
  {
    net.base + Pow2(32 - net.prefix) - 1
  }

  predicate Contains(net: Network, v: int)
    requires net.prefix <= 32
  {
    net.base <= v <= Last(net)
  }

  lemma AtMostHalf(net: Network)
    requires IsNetwork(net)
    ensures 0 <= net.base <= Last(net) < net.base + 0x8000_0000 && Last(net) < ADDRESSES
  {
    Pow2Grows(32 - net.prefix, 31);
    Pow2Values();
    assert Pow2(32) == 2 * Pow2(31);
  }

  function Successor(v: int): int {
    if v + 1 == ADDRESSES then 0 else v + 1
  }

  lemma SuccessorIs(v: int)
    requires 0 <= v < ADDRESSES
    ensures (v + 1) % ADDRESSES == Successor(v)
  {
  }

  /** The search steps by one inside an interval of at most half of all values, and leaves it
      after the last one; it starts next to some `gateway` inside. */
  lemma IntervalStep(base: int, last: int, gateway: int, v: int)
    requires 0 <= base <= last < base + 0x8000_0000 && last < ADDRESSES && base <= gateway <= last && 0 <= v < ADDRESSES
    requires if base <= Successor(gateway) <= last then base <= v <= last else v == Successor(gateway)
    ensures base <= Successor(v) <= last ==> Successor(v) == v + 1 && base <= Successor(gateway) <= last
    ensures !(base <= Successor(v) <= last) && base <= Successor(gateway) <= last ==> v == last
    ensures base <= Successor(gateway) <= last <==> gateway != last
  {
  }

  lemma NextStep(net: Network, gateway: int, start: int, v: int)
    requires IsNetwork(net) && Contains(net, gateway) && start == (gateway + 1) % ADDRESSES && 0 <= v < ADDRESSES
    requires if Contains(net, start) then Contains(net, v) else v == start
    ensures Contains(net, (v + 1) % ADDRESSES) ==> (v + 1) % ADDRESSES == v + 1 && Contains(net, start)
    ensures !Contains(net, (v + 1) % ADDRESSES) && Contains(net, start) ==> v == Last(net)
  {
    AtMostHalf(net);
    SuccessorIs(gateway);
    SuccessorIs(v);
    IntervalStep(net.base, Last(net), gateway, v);
  }

  // ---------- allocation ----------

  ghost predicate IsAddress(s: string, v: int) {
    exists ip :: IsIPv4(ip) && Value(ip) == v && Dotted(ip) == s
  }

  /** The node's record is for the address `v`. */
  ghost predicate Holds(allocations: map<string, string>, node: string, v: int) {
    node in allocations && IsAddress(allocations[node], v)
  }

  ghost predicate Used(allocations: map<string, string>, v: int) {
    exists node :: Holds(allocations, node, v)
  }

  ghost predicate NotFree(allocations: map<string, string>, gateway: int, v: int) {
    v == gateway || Used(allocations, v)
  }

  ghost predicate Injective<K(!new), V>(m: map<K, V>) {
    forall a, b :: a in m && b in m && m[a] == m[b] ==> a == b
  }

  ghost predicate AnAddress(s: string) {
    exists v :: IsAddress(s, v)
  }

  ghost predicate AllAddresses<K(!new)>(m: map<K, string>) {
    forall k :: k in m ==> AnAddress(m[k])
  }

  /** One node per address, none has the gateway's, and every record is an address. */
  ghost predicate Sound(allocations: map<string, string>, gateway: int) {
    AllAddresses(allocations) && Injective(allocations) && !Used(allocations, gateway)
  }

  ghost predicate AllInside(net: Network, allocations: map<string, string>)
    requires net.prefix <= 32
  {
    forall node, v :: Holds(allocations, node, v) ==> Contains(net, v)
  }

  /** All addresses from `from` to before `to` are in use. */
  ghost predicate UsedBetween(allocations: map<string, string>, gateway: int, from: int, to: int) {
    from <= to && forall w :: from <= w < to ==> NotFree(allocations, gateway, w)
  }

  lemma UsedToo(allocations: map<string, string>, gateway: int, from: int, to: int)
    requires UsedBetween(allocations, gateway, from, to) && NotFree(allocations, gateway, to)
    ensures UsedBetween(allocations, gateway, from, to + 1)
  {
  }

  ghost predicate LeastFree(allocations: map<string, string>, gateway: int, from: int, v: int) {
    UsedBetween(allocations, gateway, from, v) && !NotFree(allocations, gateway, v)
  }

  /** Everything from `from` to the end of the network is in use, and `from` in any case. */
  ghost predicate Exhausted(allocations: map<string, string>, gateway: int, from: int, net: Network)
    requires net.prefix <= 32
  {
    && NotFree(allocations, gateway, from)
    && (Contains(net, from) ==> UsedBetween(allocations, gateway, from, Last(net) + 1))
  }

  lemma AddressReads(s: string, v: int)
    requires IsAddress(s, v)
    ensures ReadAddress(s) == v
  {
    var ip :| IsIPv4(ip) && Value(ip) == v && Dotted(ip) == s;
    DottedReads(ip);
  }

  ghost predicate SomeReads(allocations: map<string, string>, v: int) {
    exists node :: node in allocations && ReadAddress(allocations[node]) == v
  }

  /** Every number above the gateway and below `end` is read from some record. */
  ghost predicate AllRead(allocations: map<string, string>, gateway: int, end: int) {
    forall v :: gateway < v < end ==> SomeReads(allocations, v)
  }

  /** The text reads as the least number above the gateway that no record reads as, and it
      is in the network. */
  ghost predicate ReadsAsLeast(net: Network, allocations: map<string, string>, gateway: int, text: string)
    requires net.prefix <= 32
  {
    && gateway < ReadAddress(text) && Contains(net, ReadAddress(text))
    && !SomeReads(allocations, ReadAddress(text)) && AllRead(allocations, gateway, ReadAddress(text))
  }

  lemma UsedReads(allocations: map<string, string>, gateway: int, v: int)
    requires AllAddresses(allocations)
    ensures Used(allocations, v) <==> SomeReads(allocations, v)
  {
    if Used(allocations, v) {
      var node :| Holds(allocations, node, v);
      AddressReads(allocations[node], v);
    }
    if SomeReads(allocations, v) {
      var node :| node in allocations && ReadAddress(allocations[node]) == v;
      assert AnAddress(allocations[node]);
      var w :| IsAddress(allocations[node], w);
      AddressReads(allocations[node], w);
      assert Holds(allocations, node, v);
    }
  }

  lemma AllUsedRead(allocations: map<string, string>, gateway: int, end: int)
    requires AllAddresses(allocations) && UsedBetween(allocations, gateway, gateway + 1, end)
    ensures AllRead(allocations, gateway, end)
  {
    forall v | gateway < v < end
      ensures SomeReads(allocations, v)
    {
      assert NotFree(allocations, gateway, v);
      UsedReads(allocations, gateway, v);
    }
  }

  lemma LeastFreeReads(net: Network, allocations: map<string, string>, gateway: int, start: int, v: int, text: string)
    requires IsNetwork(net) && Contains(net, gateway) && gateway != Last(net) && AllAddresses(allocations)
    requires start == (gateway + 1) % ADDRESSES && LeastFree(allocations, gateway, start, v)
    requires IsAddress(text, v) && (Contains(net, v) <==> Contains(net, start))
    ensures ReadsAsLeast(net, allocations, gateway, text)
  {
    StartAboveGateway(net, gateway);
    AddressReads(text, v);
    UsedReads(allocations, gateway, v);
    AllUsedRead(allocations, gateway, v);
  }

  lemma ExhaustedReads(net: Network, allocations: map<string, string>, gateway: int, start: int)
    requires IsNetwork(net) && Contains(net, gateway) && gateway != Last(net) && AllAddresses(allocations)
    requires start == (gateway + 1) % ADDRESSES && Exhausted(allocations, gateway, start, net)
    ensures AllRead(allocations, gateway, Last(net) + 1)
  {
    StartAboveGateway(net, gateway);
    AllUsedRead(allocations, gateway, Last(net) + 1);
  }

  lemma StartAboveGateway(net: Network, gateway: int)
    requires IsNetwork(net) && Contains(net, gateway) && gateway != Last(net)
    ensures (gateway + 1) % ADDRESSES == gateway + 1 && Contains(net, gateway + 1)
  {
    StartInside(net, gateway);
    AtMostHalf(net);
    SuccessorIs(gateway);
  }

  method ValuesOf<K(==, !new), V(==)>(m: map<K, V>) returns (values: set<V>)
    ensures values == m.Values
  {
    values := {};
    var rest := m.Keys;
    while rest != {}
      invariant rest <= m.Keys && values <= m.Values && forall k :: k in m && k !in rest ==> m[k] in values
      decreases rest
    {
      var k :| k in rest;
      rest := rest - {k};
      values := values + {m[k]};
    }
  }

  class IPAM {
    const store: Buckets
    const net: Network
    const gateway: seq<int>
    const start: seq<int>

    ghost predicate Valid()
      reads store
    {
      && IsNetwork(net) && IsIPv4(gateway) && IsIPv4(start) && Contains(net, Value(gateway))
      && Value(start) == (Value(gateway) + 1) % ADDRESSES
      && Sound(store.db.ipam, Value(gateway))
    }

    /** Unless the gateway is the last address, no address outside the network comes into use. */
    ghost predicate StaysInside(before: map<string, string>, after: map<string, string>)
      requires IsNetwork(net) && IsIPv4(gateway)
    {
      Value(gateway) != Last(net) && AllInside(net, before) ==> AllInside(net, after)
    }

    /** The gateway must be in the network; addresses already stored must be sound. */
    static method NewIPAM(store: Buckets, net: Network, gateway: seq<int>) returns (ipam: IPAM?)
      requires IsNetwork(net) && IsIPv4(gateway)
      ensures ipam != null <==> Contains(net, Value(gateway))
      ensures ipam != null ==> ipam.store == store && ipam.net == net && ipam.gateway == gateway
      ensures ipam != null ==> (ipam.Valid() <==> Sound(store.db.ipam, Value(gateway)))
    {
      if Contains(net, Value(gateway)) {
        var start := NextIP(gateway);
        ipam := new IPAM(store, net, gateway, start);
      } else {
        ipam := null;
      }
    }

    constructor (store: Buckets, net: Network, gateway: seq<int>, start: seq<int>)
      ensures this.store == store && this.net == net && this.gateway == gateway && this.start == start
    {
      this.store, this.net, this.gateway, this.start := store, net, gateway, start;
    }

    /** A node keeps its address.  A new one is the least free address from the one after the
        gateway on; none is returned only when all of them up to the end of the network are
        in use. */
    method Allocate(nodeID: string) returns (ip: Option<string>, ghost v: int)
      requires Valid()
      modifies store
      ensures Valid()
      ensures nodeID in old(store.db).ipam ==> ip == Some(old(store.db).ipam[nodeID]) && store.db == old(store.db)
      ensures nodeID !in old(store.db).ipam && ip.Some? ==>
        && IsAddress(ip.value, v) && store.db == old(store.db).(ipam := old(store.db).ipam[nodeID := ip.value])
        && LeastFree(old(store.db).ipam, Value(gateway), Value(start), v) && (Contains(net, v) <==> Contains(net, Value(start)))
      ensures StaysInside(old(store.db).ipam, store.db.ipam)
      ensures nodeID !in old(store.db).ipam && Value(gateway) != Last(net) ==>
        if ip.Some? then ReadsAsLeast(net, old(store.db).ipam, Value(gateway), ip.value)
        else AllRead(old(store.db).ipam, Value(gateway), Last(net) + 1)
      ensures ip.None? ==> store.db == old(store.db) && Exhausted(store.db.ipam, Value(gateway), Value(start), net)
    {
      v := 0;
      if nodeID in store.db.ipam && store.db.ipam[nodeID] != "" {
        return Some(store.db.ipam[nodeID]), v;
      }
      NoEmptyAddress(store.db.ipam, nodeID);
      var taken := ValuesOf(store.db.ipam);
      taken := taken + {Dotted(gateway)};
      var free := FirstFree(taken, store.db.ipam);
      if free.None? {
        NoneFree(store.db.ipam);
        return None, v;
      }
      v := Value(free.value);
      AllocationKeepsSound(store.db.ipam, Value(gateway), nodeID, free.value);
      FreeAllocated(store.db.ipam, nodeID, free.value);
      store.SaveIPAllocation(nodeID, Dotted(free.value));
      ip := Some(Dotted(free.value));
    }

    /** The search, which ends at the first address outside the network. */
    method FirstFree(taken: set<string>, ghost allocations: map<string, string>) returns (free: Option<seq<int>>)
      requires Valid() && taken == allocations.Values + {Dotted(gateway)}
      ensures free.Some? ==> IsIPv4(free.value) && (Contains(net, Value(free.value)) <==> Contains(net, Value(start)))
      ensures free.Some? ==> LeastFree(allocations, Value(gateway), Value(start), Value(free.value))
      ensures free.None? ==> Exhausted(allocations, Value(gateway), Value(start), net)
    {
      var current := start;
      while true
        modifies {}
        invariant IsIPv4(current) && UsedBetween(allocations, Value(gateway), Value(start), Value(current))
        invariant if Contains(net, Value(start)) then Contains(net, Value(current)) else current == start
        decreases ADDRESSES - Value(current)
      {
        TakenMeansUsed(allocations, gateway, current);
        if Dotted(current) !in taken {
          return Some(current);
        }
        UsedToo(allocations, Value(gateway), Value(start), Value(current));
        var next := NextIP(current);
        NextStep(net, Value(gateway), Value(start), Value(current));
        if !Contains(net, Value(next)) {
          return None;
        }
        current := next;
      }
    }

    lemma NoneFree(allocations: map<string, string>)
      requires IsNetwork(net) && IsIPv4(gateway) && IsIPv4(start) && Contains(net, Value(gateway))
      requires Value(start) == (Value(gateway) + 1) % ADDRESSES && AllAddresses(allocations)
      requires Exhausted(allocations, Value(gateway), Value(start), net)
      ensures Value(gateway) != Last(net) ==> AllRead(allocations, Value(gateway), Last(net) + 1)
    {
      if Value(gateway) != Last(net) { ExhaustedReads(net, allocations, Value(gateway), Value(start)); }
    }

    /** Putting the least free address in the books. */
    lemma FreeAllocated(allocations: map<string, string>, nodeID: string, ip: seq<int>)
      requires IsNetwork(net) && IsIPv4(gateway) && IsIPv4(start) && Contains(net, Value(gateway)) && IsIPv4(ip)
      requires Value(start) == (Value(gateway) + 1) % ADDRESSES && AllAddresses(allocations)
      requires LeastFree(allocations, Value(gateway), Value(start), Value(ip))
      requires Contains(net, Value(ip)) <==> Contains(net, Value(start))
      ensures StaysInside(allocations, allocations[nodeID := Dotted(ip)]) && IsAddress(Dotted(ip), Value(ip))
      ensures Value(gateway) != Last(net) ==> ReadsAsLeast(net, allocations, Value(gateway), Dotted(ip))
    {
      assert IsAddress(Dotted(ip), Value(ip));
      if Value(gateway) != Last(net) {
        LeastFreeReads(net, allocations, Value(gateway), Value(start), Value(ip), Dotted(ip));
        if AllInside(net, allocations) {
          AllocationStaysInside(net, Value(gateway), Value(start), allocations, nodeID, Dotted(ip), Value(ip));
        }
      }
    }

    method Release(nodeID: string)
      requires Valid()
      modifies store
      ensures Valid() && store.db == old(store.db).(ipam := old(store.db).ipam - {nodeID})
      ensures StaysInside(old(store.db).ipam, store.db.ipam)
    {
      if AllInside(net, store.db.ipam) { ReleaseStaysInside(net, store.db.ipam, nodeID); }
      ReleaseKeepsSound(store.db.ipam, Value(gateway), nodeID);
      store.DeleteIPAllocation(nodeID);
    }
  }

  lemma SameAddress(s: string, v: int, w: int)
    requires IsAddress(s, v) && IsAddress(s, w)
    ensures v == w
  {
    var a :| IsIPv4(a) && Value(a) == v && Dotted(a) == s;
    var b :| IsIPv4(b) && Value(b) == w && Dotted(b) == s;
    DottedTells(a, b);
  }

  /** The test on dotted forms is a test on addresses. */
  lemma TakenMeansUsed(allocations: map<string, string>, gateway: seq<int>, ip: seq<int>)
    requires IsIPv4(gateway) && IsIPv4(ip)
    ensures Dotted(ip) in allocations.Values || Dotted(ip) == Dotted(gateway) <==>
      NotFree(allocations, Value(gateway), Value(ip))
  {
    if Dotted(ip) == Dotted(gateway) { DottedTells(ip, gateway); }
    if Value(ip) == Value(gateway) { ValueTells(ip, gateway); }
    if Dotted(ip) in allocations.Values {
      var n :| n in allocations && allocations[n] == Dotted(ip);
      assert Holds(allocations, n, Value(ip));
    }
    if Used(allocations, Value(ip)) {
      var n :| Holds(allocations, n, Value(ip));
      var other :| IsIPv4(other) && Value(other) == Value(ip) && Dotted(other) == allocations[n];
      ValueTells(other, ip);
    }
  }

  lemma NoEmptyAddress(allocations: map<string, string>, node: string)
    requires AllAddresses(allocations)
    ensures node in allocations ==> allocations[node] != ""
  {
    if node in allocations {
      var v :| IsAddress(allocations[node], v);
    }
  }

  lemma InjectiveWith<K(!new), V>(m: map<K, V>, k: K, v: V)
    requires Injective(m) && v !in m.Values
    ensures Injective(m[k := v])
  {
    assert forall a :: a in m ==> m[a] in m.Values;
  }

  lemma AddressesWithout<K(!new)>(m: map<K, string>, k: K)
    requires AllAddresses(m)
    ensures AllAddresses(m - {k})
  {
    var later := m - {k};
    forall j | j in later
      ensures AnAddress(later[j])
    {
      assert AnAddress(m[j]);
    }
  }

  lemma InjectiveWithout<K(!new), V>(m: map<K, V>, k: K)
    requires Injective(m)
    ensures Injective(m - {k})
  {
  }

  lemma AllocationKeepsSound(allocations: map<string, string>, gateway: int, node: string, ip: seq<int>)
    requires Sound(allocations, gateway) && IsIPv4(ip) && !NotFree(allocations, gateway, Value(ip)) && node !in allocations
    ensures Sound(allocations[node := Dotted(ip)], gateway)
  {
    var later := allocations[node := Dotted(ip)];
    assert IsAddress(Dotted(ip), Value(ip));
    if Dotted(ip) in allocations.Values {
      var n :| n in allocations && allocations[n] == Dotted(ip);
      assert Holds(allocations, n, Value(ip));
      assert false;
    }
    InjectiveWith(allocations, node, Dotted(ip));
    forall n
      ensures !Holds(later, n, gateway)
    {
      if n == node {
        NotTheGateway(ip, gateway);
      } else {
        assert !Holds(allocations, n, gateway);
      }
    }
  }

  lemma NotTheGateway(ip: seq<int>, gateway: int)
    requires IsIPv4(ip) && Value(ip) != gateway
    ensures !IsAddress(Dotted(ip), gateway)
  {
    assert IsAddress(Dotted(ip), Value(ip));
    if IsAddress(Dotted(ip), gateway) { SameAddress(Dotted(ip), gateway, Value(ip)); }
  }

  lemma ReleaseKeepsSound(allocations: map<string, string>, gateway: int, node: string)
    requires Sound(allocations, gateway)
    ensures Sound(allocations - {node}, gateway)
  {
    InjectiveWithout(allocations, node);
    AddressesWithout(allocations, node);
    var later := allocations - {node};
    forall n
      ensures !Holds(later, n, gateway)
    {
      assert !Holds(allocations, n, gateway);
    }
  }

  /** Unless the gateway is the last address, every address in use stays in the network:
      an allocation adds one from inside. */
  lemma AllocationStaysInside(net: Network, gateway: int, start: int, allocations: map<string, string>, node: string, ip: string, v: int)
    requires IsNetwork(net) && Contains(net, gateway) && gateway != Last(net) && AllInside(net, allocations)
    requires start == (gateway + 1) % ADDRESSES && IsAddress(ip, v) && (Contains(net, v) <==> Contains(net, start))
    ensures AllInside(net, allocations[node := ip])
  {
    StartInside(net, gateway);
    var later := allocations[node := ip];
    forall n, w
      ensures Holds(later, n, w) ==> Contains(net, w)
    {
      if Holds(later, n, w) {
        if n == node { SameAddress(ip, v, w); } else { assert Holds(allocations, n, w); }
      }
    }
  }

  /** A release leaves only addresses that were in use. */
  lemma ReleaseStaysInside(net: Network, allocations: map<string, string>, node: string)
    requires net.prefix <= 32 && AllInside(net, allocations)
    ensures AllInside(net, allocations - {node})
  {
    var later := allocations - {node};
    forall n, w
      ensures Holds(later, n, w) ==> Contains(net, w)
    {
      assert Holds(later, n, w) ==> Holds(allocations, n, w);
    }
  }

  /** The first address tried is in the network exactly when the gateway is not its last. */
  lemma StartInside(net: Network, gateway: int)
    requires IsNetwork(net) && Contains(net, gateway)
    ensures Contains(net, (gateway + 1) % ADDRESSES) <==> gateway != Last(net)
  {
    AtMostHalf(net);
    SuccessorIs(gateway);
    IntervalStep(net.base, Last(net), gateway, Successor(gateway));
  }

  /** So a network whose gateway is its last address hands out an address outside it. */
  lemma LastGatewayEscapes(net: Network, gateway: int)
    requires IsNetwork(net) && Contains(net, gateway)
    ensures gateway == Last(net) ==>
      LeastFree(map[], gateway, (gateway + 1) % ADDRESSES, (gateway + 1) % ADDRESSES) && !Contains(net, (gateway + 1) % ADDRESSES)
  {
    StartInside(net, gateway);
  }
}
