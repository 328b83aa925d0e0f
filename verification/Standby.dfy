/** The standby's side of replication (scheduler/internal/server/standby.go): one sync
    round, the replay of an entry, and the health checks that end in promotion. */
module StandbyNode {
  import opened Model
  import opened Crc32
  import opened WalCodec
  import opened WalLog
  import opened Store
  import opened Sync
  import R = Replication

  /** The store and last number after replaying `es` up to the first failure. */
  function ReplayAll(docs: Docs, db: Db, last: nat, es: seq<Entry>, now: int): (Db, nat)
    decreases |es|
  {
    if es == [] then (db, last)
    else
      match ReplayEntry(docs, db, es[0].key, es[0].data, now)
      case Aborted => (db, last)
      case Replayed(db') =>
        ReplayAll(docs, db', if es[0].sequence > last then es[0].sequence else last, es[1..], now)
  }

  predicate AllReplay(docs: Docs, db: Db, es: seq<Entry>, now: int)
    decreases |es|
  {
    es == [] || (ReplayEntry(docs, db, es[0].key, es[0].data, now).Replayed?
                 && AllReplay(docs, ReplayEntry(docs, db, es[0].key, es[0].data, now).db, es[1..], now))
  }

  lemma {:induction false} ReplayAllAppend(docs: Docs, db: Db, last: nat, a: seq<Entry>, b: seq<Entry>, now: int)
    ensures ReplayAll(docs, db, last, a + b, now) ==
            if AllReplay(docs, db, a, now) then
              ReplayAll(docs, ReplayAll(docs, db, last, a, now).0, ReplayAll(docs, db, last, a, now).1, b, now)
            else ReplayAll(docs, db, last, a, now)
    decreases |a|
  {
    if a == [] {
      assert a + b == b;
    } else {
      assert (a + b)[1..] == a[1..] + b;
      var r := ReplayEntry(docs, db, a[0].key, a[0].data, now);
      if r.Replayed? {
        ReplayAllAppend(docs, r.db, if a[0].sequence > last then a[0].sequence else last, a[1..], b, now);
      }
    }
  }

  /** The switch of replayEntry: one mutator call, on a store that does not log. */
  method Replay(st: Store, key: seq<byte>, data: seq<byte>, now: int64) returns (ok: bool)
    requires st.Valid() && st.Room() && st.replaying
    modifies st, st.Log()
    ensures st.Valid() && st.Room() && st.replaying && st.writer == old(st.writer) && st.ops == old(st.ops)
    ensures var r := ReplayEntry(st.docs, old(st.db), key, data, now);
      ok == r.Replayed? && st.db == if ok then r.db else old(st.db)
    ensures KindOfName(Chars(key)).None? ==> ok && st.db == old(st.db)
    ensures KindOfName(Chars(key)).Some? && st.docs.read(KindOfName(Chars(key)).value, data).None? ==> !ok && st.db == old(st.db)
  {
    var kind := KindOfName(Chars(key));
    if kind.None? {
      return true;
    }
    var op := st.docs.read(kind.value, data);
    if op.None? {
      return false;
    }
    ok := Carry(st, op.value, now);
  }

  method Carry(st: Store, op: Op, now: int64) returns (ok: bool)
    requires st.Valid() && st.Room() && st.replaying
    modifies st, st.Log()
    ensures st.Valid() && st.Room() && st.Did(op, now, ok)
  {
    match op {
      case SaveNode(n) => ok := st.SaveNode(n, now);
      case DeleteNode(id) => ok := st.DeleteNode(id, now);
      case SaveJob(j) => ok := st.SaveJob(j, now);
      case DeleteJob(id) => ok := st.DeleteJob(id, now);
      case UpdateJobStatus(id, status) => ok := st.UpdateJobStatus(id, status, now);
      case SaveUnit(u) => ok := st.SaveUnit(u, now);
      case UpdateStageStatus(id, status) => ok := st.UpdateStageStatus(id, status, now);
      case SaveTrustEdge(e) => ok := st.SaveTrustEdge(e, now);
      case DeleteTrustEdge(from, to) => ok := st.DeleteTrustEdge(from, to, now);
      case SaveIPAllocation(node, ip) => ok := st.SaveIPAllocation(node, ip, now);
      case DeleteIPAllocation(node) => ok := st.DeleteIPAllocation(node, now);
      case SaveInviteCode(code) => ok := st.SaveInviteCode(code, now);
      case DeleteInviteCode(code) => ok := st.DeleteInviteCode(code, now);
    }
  }

  class Standby {
    const store: Store
    const maxFailures: nat
    var active: bool
    var lastSyncSeq: nat
    var failures: nat

    constructor (store: Store, failoverTimeout: int, healthCheckInterval: int)
      requires healthCheckInterval > 0
      ensures this.store == store && !active && lastSyncSeq == 0 && failures == 0
      ensures maxFailures == if failoverTimeout < healthCheckInterval then 3 else failoverTimeout / healthCheckInterval
    {
      this.store := store;
      var max := failoverTimeout / healthCheckInterval;
      if max < 1 {
        max := 3;
      }
      maxFailures := max;
      active, lastSyncSeq, failures := false, 0, 0;
    }

    /** The loop over the entries of one response; false when a replay failed. */
    method ReplayEntries(es: seq<Entry>, now: int64) returns (ok: bool)
      requires store.Valid() && store.Room() && store.replaying
      modifies this`lastSyncSeq, store, store.Log()
      ensures store.Valid() && store.Room() && store.replaying && store.writer == old(store.writer) && store.ops == old(store.ops)
      ensures (store.db, lastSyncSeq) == ReplayAll(store.docs, old(store.db), old(lastSyncSeq), es, now)
      ensures ok == AllReplay(store.docs, old(store.db), es, now)
    {
      for i := 0 to |es|
        invariant store.Valid() && store.Room() && store.replaying
        invariant store.writer == old(store.writer) && store.ops == old(store.ops)
        invariant ReplayAll(store.docs, old(store.db), old(lastSyncSeq), es, now)
               == ReplayAll(store.docs, store.db, lastSyncSeq, es[i..], now)
        invariant AllReplay(store.docs, old(store.db), es, now) == AllReplay(store.docs, store.db, es[i..], now)
      {
        assert es[i..][1..] == es[i + 1..];
        ok := Replay(store, es[i].key, es[i].data, now);
        if !ok {
          return false;
        }
        if es[i].sequence > lastSyncSeq {
          lastSyncSeq := es[i].sequence;
        }
      }
      ok := true;
    }

    /** One round: `primarySeq` is the answer to the health check, None when it fails, and
        `received` the responses that arrive before the stream ends or drops. */
    method SyncOnce(primarySeq: Option<nat>, received: seq<Response>, now: int64)
      requires store.Valid() && store.Room() && !store.replaying
      modifies this`lastSyncSeq, store, store.Log()
      ensures store.Valid() && store.Room() && !store.replaying && store.ops == old(store.ops)
      ensures active || (old(lastSyncSeq) > 0 && (primarySeq.None? || primarySeq.value <= old(lastSyncSeq))) ==>
        store.db == old(store.db) && lastSyncSeq == old(lastSyncSeq)
      ensures !active && (old(lastSyncSeq) == 0 || (primarySeq.Some? && primarySeq.value > old(lastSyncSeq))) ==>
        (store.db, lastSyncSeq) == ReplayAll(store.docs, old(store.db), old(lastSyncSeq), Delivered(received), now)
    {
      if active {
        return;
      }
      var reqSeq := lastSyncSeq;
      if reqSeq > 0 {
        if primarySeq.None? {
          return;
        }
        if reqSeq >= primarySeq.value {
          return;
        }
      }
      store.SetReplaying(true);
      ReceiveAll(received, now);
      store.SetReplaying(false);
    }

    method ReceiveAll(received: seq<Response>, now: int64)
      requires store.Valid() && store.Room() && store.replaying
      modifies this`lastSyncSeq, store, store.Log()
      ensures store.Valid() && store.Room() && store.replaying && store.writer == old(store.writer) && store.ops == old(store.ops)
      ensures (store.db, lastSyncSeq) == ReplayAll(store.docs, old(store.db), old(lastSyncSeq), Delivered(received), now)
    {
      for i := 0 to |received|
        invariant store.Valid() && store.Room() && store.replaying
        invariant store.writer == old(store.writer) && store.ops == old(store.ops)
        invariant ReplayAll(store.docs, old(store.db), old(lastSyncSeq), Delivered(received), now)
               == ReplayAll(store.docs, store.db, lastSyncSeq, Delivered(received[i..]), now)
      {
        assert received[i..][1..] == received[i + 1..];
        var es := received[i].entries;
        ghost var rest := if received[i].more then Delivered(received[i + 1..]) else [];
        ReplayAllAppend(store.docs, store.db, lastSyncSeq, es, rest, now);
        assert Delivered(received[i..]) == es + rest;
        var ok := ReplayEntries(es, now);
        if !ok {
          return;
        }
        if !received[i].more {
          return;
        }
      }
    }

    /** One turn of the health check loop; `healthy` is whether the primary answered. */
    method HealthTick(healthy: bool)
      requires !active
      modifies this`failures, this`active
      ensures failures == (if healthy then 0 else old(failures) + 1) && active == (failures >= maxFailures)
    {
      if !healthy {
        failures := failures + 1;
      } else {
        failures := 0;
      }
      if failures >= maxFailures {
        active := true;
      }
    }
  }

  // ---------- promotion ----------

  /** The last `max` of the first `end` health checks all failed. */
  predicate Window(outcomes: seq<bool>, max: nat, end: nat) {
    max <= end <= |outcomes| && forall j :: end - max <= j < end ==> !outcomes[j]
  }

  /** The health check loop on any outcomes: it promotes after the first run of maxFailures
      failed checks in a row, and never otherwise. */
  method HealthLoop(b: Standby, outcomes: seq<bool>) returns (used: nat)
    requires !b.active && b.failures == 0 && b.maxFailures >= 1
    modifies b
    ensures used <= |outcomes| && (b.active <==> Window(outcomes, b.maxFailures, used))
    ensures forall e :: 0 <= e < used ==> !Window(outcomes, b.maxFailures, e)
    ensures !b.active ==> used == |outcomes|
  {
    used := 0;
    while used < |outcomes|
      invariant used <= |outcomes| && !b.active && b.failures < b.maxFailures && b.failures <= used
      invariant forall j :: used - b.failures <= j < used ==> !outcomes[j]
      invariant b.failures < used ==> outcomes[used - b.failures - 1]
      invariant forall e :: 0 <= e <= used ==> !Window(outcomes, b.maxFailures, e)
    {
      b.HealthTick(outcomes[used]);
      used := used + 1;
      if b.active {
        return;
      }
      assert b.failures < used ==> outcomes[used - b.failures - 1];
    }
  }

  // ---------- a sync round against the protocol ----------

  lemma RoundStep(c: R.Config, ops: seq<Op>, log: seq<Entry>, db: Db, n: nat, end: nat, now: int) returns (db': Db)
    requires Logs(c.docs, log, ops) && AllFaithful(c.docs, ops) && Numbered(log) && Model.Replayed(c.initial, ops).Some?
    requires n < end <= |ops| && R.Consistent(c, db, ops[..n])
    ensures R.Consistent(c, db', ops[..n + 1])
    ensures ReplayAll(c.docs, db, n, log[n..end], now) == ReplayAll(c.docs, db', n + 1, log[n + 1..end], now)
  {
    var es := log[n..end];
    assert es[0] == log[n] && es[0].sequence == n + 1 && es[1..] == log[n + 1..end];
    R.ReplayAdvances(c, ops, log, db, n, now);
    db' := ReplayEntry(c.docs, db, es[0].key, es[0].data, now).db;
  }

  /** However far a round gets before the stream drops, it takes a standby that is n
      operations along exactly as many operations further. */
  lemma {:induction false} RoundAdvances(c: R.Config, ops: seq<Op>, log: seq<Entry>, db: Db, n: nat, end: nat, now: int)
    requires Logs(c.docs, log, ops) && AllFaithful(c.docs, ops) && Numbered(log) && Model.Replayed(c.initial, ops).Some?
    requires n <= end <= |ops| && R.Consistent(c, db, ops[..n])
    ensures var r := ReplayAll(c.docs, db, n, log[n..end], now);
      r.1 == end && R.Consistent(c, r.0, ops[..end])
    decreases end - n
  {
    if n < end {
      var db' := RoundStep(c, ops, log, db, n, end, now);
      RoundAdvances(c, ops, log, db', n + 1, end, now);
    }
  }

  /** A round that is not cut short brings an in-step standby level with the primary. */
  lemma RoundCatchesUp(c: R.Config, p: R.Primary, db: Db, n: nat, now: int)
    requires R.PrimaryOk(c, p) && n <= |p.ops|
    requires R.Consistent(c, db, p.ops[..n]) && R.Retained(p, n)
    ensures var r := ReplayAll(c.docs, db, n, Delivered(Responses(Surviving(p.alive, p.content), n)), now);
      r.1 == |p.ops| && R.Consistent(c, r.0, p.ops)
  {
    var log, end := R.Logged(p), |p.ops|;
    RoundReceives(p, n);
    assert log[n..] == log[n..end] && p.ops[..end] == p.ops;
    RoundAdvances(c, p.ops, log, db, n, end, now);
  }

  lemma RoundReceives(p: R.Primary, n: nat)
    requires Numbered(R.Logged(p)) && n <= |R.Logged(p)| && R.Retained(p, n)
    ensures Delivered(Responses(Surviving(p.alive, p.content), n)) == R.Logged(p)[n..]
  {
    StreamExact(Surviving(p.alive, p.content), n);
    R.ReadIsExact(p, n);
  }

  /** The cleanup pass removes exactly the files the protocol's checkpoint step may remove. */
  lemma CleanupIsCheckpoint(p: R.Primary, min: nat, k: nat)
    requires (exists id :: id in p.acks && p.acks[id] == min) && forall id :: id in p.acks ==> min <= p.acks[id]
    ensures R.Removable(p, k) <==> k in p.alive && Covered(p.content, k, min)
  {
    var id :| id in p.acks && p.acks[id] == min;
    assert p.acks != map[];
    if R.Removable(p, k) {
      assert forall e :: e in p.content[k - 1] ==> e.sequence <= p.acks[id];
    }
  }

  /** What has arrived when a stream is cut is a prefix of what was sent, and it is all
      replayed: only the last response can be without `more`. */
  lemma {:induction false} CutDelivers(es: seq<Entry>, received: seq<Response>, after: seq<Response>)
    requires received <= Batches(es) + after && forall r :: r in after ==> r == Response([], false)
    ensures Delivered(received) == Sent(received) && Sent(received) <= es
    decreases |es|
  {
    if received != [] {
      if |es| <= BATCH_SIZE {
        assert received[0] == Response(es, false);
        assert (Batches(es) + after)[1..] == after && received[1..] <= after;
        assert forall r :: r in received[1..] ==> r in after;
        SentNothing(received[1..]);
        assert es + [] == es;
      } else {
        var rest := es[BATCH_SIZE..];
        assert (Batches(es) + after)[1..] == Batches(rest) + after;
        assert received[1..] <= Batches(rest) + after;
        CutDelivers(rest, received[1..], after);
        assert es == es[..BATCH_SIZE] + rest;
      }
    }
  }

  lemma {:induction false} SentNothing(rs: seq<Response>)
    requires forall r :: r in rs ==> r.entries == []
    ensures Sent(rs) == []
    decreases |rs|
  {
    if rs != [] { SentNothing(rs[1..]); }
  }

  /** What arrives of the stream for a standby at n is the next part of the log. */
  lemma ReceivedIsNext(p: R.Primary, n: nat, received: seq<Response>)
    requires Numbered(R.Logged(p)) && n <= |R.Logged(p)| && R.Retained(p, n)
    requires received <= Responses(Surviving(p.alive, p.content), n)
    ensures n + |Sent(received)| <= |R.Logged(p)|
    ensures Delivered(received) == R.Logged(p)[n..n + |Sent(received)|]
  {
    var log := Surviving(p.alive, p.content);
    var es := AtLeast(log, n + 1);
    R.ReadIsExact(p, n);
    var tail := if |es| < BATCH_SIZE then [] else [Response([], false)];
    assert Responses(log, n) == Batches(es) + tail;
    CutDelivers(es, received, tail);
  }

  /** One round of a standby that is in step with the primary p.  When the standby is
      behind, or knows of nothing yet, it pulls: it goes further by as many operations as
      entries arrive, and is level with the primary when nothing is cut.  When the primary
      does not answer or has nothing new, it stays where it is. */
  method Round(b: Standby, ghost c: R.Config, ghost p: R.Primary, primarySeq: Option<nat>, received: seq<Response>, now: int64)
    requires b.store.Valid() && b.store.Room() && !b.store.replaying && !b.active && c.docs == b.store.docs
    requires InSync(c, p)(b.store.db, b.lastSyncSeq)
    requires received <= Responses(Surviving(p.alive, p.content), b.lastSyncSeq)
    modifies b`lastSyncSeq, b.store, b.store.Log()
    ensures b.lastSyncSeq <= |p.ops| && R.Consistent(c, b.store.db, p.ops[..b.lastSyncSeq])
    ensures old(b.lastSyncSeq) == 0 || (primarySeq.Some? && primarySeq.value > old(b.lastSyncSeq)) ==>
      && b.lastSyncSeq == old(b.lastSyncSeq) + |Sent(received)|
      && (received == Responses(Surviving(p.alive, p.content), old(b.lastSyncSeq)) ==> b.lastSyncSeq == |p.ops|)
    ensures old(b.lastSyncSeq) > 0 && (primarySeq.None? || primarySeq.value <= old(b.lastSyncSeq)) ==>
      b.lastSyncSeq == old(b.lastSyncSeq) && b.store.db == old(b.store.db)
  {
    ghost var db, n := b.store.db, b.lastSyncSeq;
    ghost var pulls := n == 0 || (primarySeq.Some? && primarySeq.value > n);
    b.SyncOnce(primarySeq, received, now);
    RoundEnds(c, p, db, n, received, now, pulls, b.store.db, b.lastSyncSeq);
  }

  lemma RoundEnds(c: R.Config, p: R.Primary, db: Db, n: nat, received: seq<Response>, now: int, pulls: bool, db': Db, n': nat)
    requires InSync(c, p)(db, n) && received <= Responses(Surviving(p.alive, p.content), n)
    requires (db', n') == if pulls then ReplayAll(c.docs, db, n, Delivered(received), now) else (db, n)
    ensures n' <= |p.ops| && R.Consistent(c, db', p.ops[..n'])
    ensures pulls ==> n' == n + |Sent(received)| && (received == Responses(Surviving(p.alive, p.content), n) ==> n' == |p.ops|)
  {
    PartArrives(c, p, db, n, received, now);
    AllArrives(c, p, db, n);
  }

  /** The replay ended after operation `end`, with the primary's data as of then. */
  ghost predicate Reached(c: R.Config, p: R.Primary, r: (Db, nat), end: nat) {
    r.1 == end <= |p.ops| && R.Consistent(c, r.0, p.ops[..end])
  }

  /** The standby's store is the primary's as of operation n, and the rest is on disk. */
  ghost function InSync(c: R.Config, p: R.Primary): (Db, nat) -> bool {
    (db: Db, n: nat) => R.PrimaryOk(c, p) && n <= |p.ops| && R.Retained(p, n) && R.Consistent(c, db, p.ops[..n])
  }

  /** Replaying these entries from there ends after operation `end`. */
  ghost function Leads(c: R.Config, p: R.Primary, now: int): (Db, nat, seq<Entry>, nat) -> bool {
    (db: Db, n: nat, es: seq<Entry>, end: nat) => Reached(c, p, ReplayAll(c.docs, db, n, es, now), end)
  }

  lemma PartArrives(c: R.Config, p: R.Primary, db: Db, n: nat, received: seq<Response>, now: int)
    requires InSync(c, p)(db, n) && received <= Responses(Surviving(p.alive, p.content), n)
    ensures Leads(c, p, now)(db, n, Delivered(received), n + |Sent(received)|)
  {
    NextArrives(c, p, db, n, received);
    ReplayOfNext(c, p, db, n, n + |Sent(received)|, Delivered(received), now);
  }

  ghost predicate IsNext(p: R.Primary, n: nat, es: seq<Entry>, end: nat) {
    n <= end <= |R.Logged(p)| && es == R.Logged(p)[n..end]
  }

  lemma NextArrives(c: R.Config, p: R.Primary, db: Db, n: nat, received: seq<Response>)
    requires InSync(c, p)(db, n) && received <= Responses(Surviving(p.alive, p.content), n)
    ensures IsNext(p, n, Delivered(received), n + |Sent(received)|)
  {
    ReceivedIsNext(p, n, received);
  }

  lemma AllArrives(c: R.Config, p: R.Primary, db: Db, n: nat)
    requires InSync(c, p)(db, n)
    ensures n + |Sent(Responses(Surviving(p.alive, p.content), n))| == |p.ops|
  {
    StreamExact(Surviving(p.alive, p.content), n);
    R.ReadIsExact(p, n);
  }

  lemma ReplayOfNext(c: R.Config, p: R.Primary, db: Db, n: nat, end: nat, es: seq<Entry>, now: int)
    requires InSync(c, p)(db, n) && IsNext(p, n, es, end)
    ensures Leads(c, p, now)(db, n, es, end)
  {
    RoundAdvances(c, p.ops, R.Logged(p), db, n, end, now);
  }
}
