/** Hot standby and log cleanup as one distributed protocol (scheduler/internal/server:
    sync.go and standby.go; pkg/wal/wal.go; scheduler/internal/store/store.go).

    The primary applies and logs operations; a standby pulls the entries after the last
    one it replayed, replays them one by one, and acknowledges by the number it sends with
    its next pull; the checkpointer removes log files that every acknowledgement covers.
    A step is one of these actions, and streams may drop and replays fail between any two.
 */
module Replication {
  import opened Model
  import opened WalCodec
  import opened WalLog
  import opened Store
  import Runs

  datatype Primary = Primary(db: Db, ops: seq<Op>, content: seq<seq<Entry>>, alive: set<nat>, acks: map<string, nat>)

  /** A call of SyncWAL in progress: the last number sent, and what the standby has
      received and not yet replayed. */
  datatype Stream = Stream(cursor: nat, inflight: seq<Entry>)

  datatype Standby = Standby(
    ackId: string, db: Db, lastSync: nat, stream: Option<Stream>, failures: nat, active: bool)

  datatype Sys = Sys(primary: Primary, standbys: map<nat, Standby>)

  datatype Step =
    | Mutate(op: Op, now: int, entry: Entry, rotate: bool)
    | Pull(standby: nat)
    | Send(standby: nat)
    | Replay(standby: nat, now: int)
    | Drop(standby: nat)
    | Checkpoint(removed: set<nat>)
    | Tick(standby: nat, healthy: bool)

  /** What stays fixed in a run: the document format, the store both sides start from
      and the number of failed health checks that promotes a standby. */
  datatype Config = Config(docs: Docs, initial: Db, maxFailures: nat)

  ghost predicate Init(c: Config, s: Sys) {
    && s.primary == Primary(c.initial, [], [[]], {1}, map[])
    && forall i :: i in s.standbys ==>
         s.standbys[i] == Standby(s.standbys[i].ackId, c.initial, 0, None, 0, false)
  }

  /** The checkpointer may remove file k: it is not the active file, and its greatest
      number is at most the least acknowledgement. */
  ghost predicate Removable(p: Primary, k: nat) {
    && k in p.alive && 1 <= k < |p.content|
    && p.acks != map[] && p.content[k - 1] != []
    && forall e, id :: e in p.content[k - 1] && id in p.acks ==> e.sequence <= p.acks[id]
  }

  function Logged(p: Primary): seq<Entry> {
    Flatten(p.content)
  }

  function AfterSend(p: Primary, st: Stream): Stream {
    var es := AtLeast(Surviving(p.alive, p.content), st.cursor + 1);
    if es == [] then st else Stream(es[|es| - 1].sequence, st.inflight + es)
  }

  function AfterReplay(docs: Docs, b: Standby, now: int): Standby
    requires b.stream.Some? && b.stream.value.inflight != []
  {
    var e := b.stream.value.inflight[0];
    match ReplayEntry(docs, b.db, e.key, e.data, now)
    case Aborted => b.(stream := None)
    case Replayed(db') =>
      b.(db := db', lastSync := if e.sequence > b.lastSync then e.sequence else b.lastSync,
         stream := Some(b.stream.value.(inflight := b.stream.value.inflight[1..])))
  }

  function AfterTick(c: Config, b: Standby, healthy: bool): Standby {
    var failures := if healthy then 0 else b.failures + 1;
    b.(failures := failures, active := failures >= c.maxFailures)
  }

  ghost predicate Next(c: Config, s: Sys, step: Step, s': Sys) {
    var p := s.primary;
    match step
    case Mutate(op, now, e, rotate) =>
      && Apply(p.db, op, now).Some? && Faithful(c.docs, op) && Records(c.docs, e, op) && e.sequence == |p.ops| + 1 && p.content != []
      && s' == s.(primary := p.(db := Apply(p.db, op, now).value, ops := p.ops + [op],
                                content := WalLog.Logged(p.content, rotate, e),
                                alive := p.alive + {|WalLog.Logged(p.content, rotate, e)|}))
    case Pull(i) =>
      && i in s.standbys
      && var b := s.standbys[i];
      && !b.active && b.stream.None? && (b.lastSync == 0 || b.lastSync < |p.ops|)
      && s' == Sys(if b.lastSync > 0 then p.(acks := p.acks[b.ackId := b.lastSync]) else p,
                   s.standbys[i := b.(stream := Some(Stream(b.lastSync, [])))])
    case Send(i) =>
      && i in s.standbys
      && var b := s.standbys[i];
      && b.stream.Some?
      && s' == s.(standbys := s.standbys[i := b.(stream := Some(AfterSend(p, b.stream.value)))])
    case Replay(i, now) =>
      && i in s.standbys
      && var b := s.standbys[i];
      && b.stream.Some? && b.stream.value.inflight != []
      && s' == s.(standbys := s.standbys[i := AfterReplay(c.docs, b, now)])
    case Drop(i) =>
      && i in s.standbys
      && s' == s.(standbys := s.standbys[i := s.standbys[i].(stream := None)])
    case Checkpoint(removed) =>
      && (forall k :: k in removed ==> Removable(p, k))
      && s' == s.(primary := p.(alive := p.alive - removed))
    case Tick(i, healthy) =>
      && i in s.standbys && !s.standbys[i].active
      && s' == s.(standbys := s.standbys[i := AfterTick(c, s.standbys[i], healthy)])
  }

  ghost predicate IsRun(c: Config, states: seq<Sys>, steps: seq<Step>) {
    && |states| == |steps| + 1
    && Init(c, states[0])
    && forall t :: 0 <= t < |steps| ==> Next(c, states[t], steps[t], states[t + 1])
  }

  // ---------- the primary ----------

  /** The log is numbered in order, and the active file is there and holds its last entry. */
  ghost predicate OnDisk(p: Primary) {
    && p.content != [] && |p.content| in p.alive && Numbered(Logged(p))
    && (Logged(p) != [] ==> p.content[|p.content| - 1] != [])
  }

  /** The log holds exactly the operations so far, numbered in order, the active file is
      there, and the store is what the operations lead to. */
  ghost predicate PrimaryOk(c: Config, p: Primary) {
    && OnDisk(p) && (forall k :: k in p.alive ==> 1 <= k <= |p.content|)
    && Logs(c.docs, Logged(p), p.ops) && AllFaithful(c.docs, p.ops)
    && Consistent(c, p.db, p.ops)
  }

  /** `db` is, up to the job clocks, the initial store after `ops`. */
  ghost predicate Consistent(c: Config, db: Db, ops: seq<Op>) {
    Model.Replayed(c.initial, ops).Some? && SameData(db, Model.Replayed(c.initial, ops).value)
  }

  lemma ConsistentStep(c: Config, db: Db, ops: seq<Op>, op: Op, now: int)
    requires Consistent(c, db, ops)
    ensures Apply(db, op, now).Some? <==> Model.Replayed(c.initial, ops + [op]).Some?
    ensures Apply(db, op, now).Some? ==> Consistent(c, Apply(db, op, now).value, ops + [op])
  {
    assert (ops + [op])[..|ops|] == ops;
    ApplyIgnoresClocks(db, Model.Replayed(c.initial, ops).value, op, now, 0);
  }

  lemma {:induction false} PrefixReplays(c: Config, ops: seq<Op>, n: nat)
    requires Model.Replayed(c.initial, ops).Some? && n <= |ops|
    ensures Model.Replayed(c.initial, ops[..n]).Some?
    decreases |ops|
  {
    if n == |ops| {
      assert ops[..n] == ops;
    } else {
      PrefixReplays(c, ops[..|ops| - 1], n);
      assert ops[..|ops| - 1][..n] == ops[..n];
    }
  }

  lemma LoggedGrows(content: seq<seq<Entry>>, rotate: bool, e: Entry)
    requires content != []
    ensures Flatten(WalLog.Logged(content, rotate, e)) == Flatten(content) + [e]
  {
    if rotate {
      FlattenAppend(content, [[e]]);
      FlattenOne([e]);
    } else {
      FlattenLast(content, e);
    }
  }

  lemma PrimaryStep(c: Config, s: Sys, step: Step, s': Sys)
    requires PrimaryOk(c, s.primary) && Next(c, s, step, s')
    ensures PrimaryOk(c, s'.primary)
  {
    if step.Mutate? { MutateKeepsPrimary(c, s.primary, s'.primary, step.op, step.now, step.entry, step.rotate); }
  }

  lemma MutateKeepsPrimary(c: Config, p: Primary, p': Primary, op: Op, now: int, e: Entry, rotate: bool)
    requires PrimaryOk(c, p) && Apply(p.db, op, now) == Some(p'.db) && p'.ops == p.ops + [op]
    requires Faithful(c.docs, op) && Records(c.docs, e, op) && e.sequence == |p.ops| + 1
    requires p'.content == WalLog.Logged(p.content, rotate, e) && p'.alive == p.alive + {|p'.content|}
    ensures PrimaryOk(c, p')
  {
    LoggedGrows(p.content, rotate, e);
    assert Logged(p') == Logged(p) + [e];
    LogsGrow(c.docs, Logged(p), p.ops, Logged(p'), op);
    ConsistentStep(c, p.db, p.ops, op, now);
  }

  // ---------- what a pull reads ----------

  /** Every entry numbered above n is in a file that is still there. */
  ghost predicate Retained(p: Primary, n: nat) {
    forall k, e :: 1 <= k <= |p.content| && k !in p.alive && e in p.content[k - 1] ==> e.sequence <= n
  }

  lemma {:induction false} AtLeastAppend(a: seq<Entry>, b: seq<Entry>, from: nat)
    ensures AtLeast(a + b, from) == AtLeast(a, from) + AtLeast(b, from)
    decreases |a|
  {
    if a == [] {
      assert a + b == b;
    } else {
      AtLeastAppend(a[1..], b, from);
      assert (a + b)[1..] == a[1..] + b;
      var h := if a[0].sequence >= from then [a[0]] else [];
      assert h + (AtLeast(a[1..], from) + AtLeast(b, from)) == (h + AtLeast(a[1..], from)) + AtLeast(b, from);
    }
  }

  /** The tail of consecutively numbered entries above n. */
  lemma {:induction false} AtLeastConsecutive(es: seq<Entry>, base: nat, n: nat)
    requires forall i :: 0 <= i < |es| ==> es[i].sequence == base + i + 1
    ensures AtLeast(es, n + 1) == if n <= base then es else if n - base <= |es| then es[n - base..] else []
    decreases |es|
  {
    if es != [] {
      assert forall i :: 0 <= i < |es[1..]| ==> es[1..][i] == es[i + 1];
      AtLeastConsecutive(es[1..], base + 1, n);
    }
  }

  lemma {:induction false} AtLeastNone(es: seq<Entry>, n: nat)
    requires forall e :: e in es ==> e.sequence <= n
    ensures AtLeast(es, n + 1) == []
    decreases |es|
  {
    if es != [] { AtLeastNone(es[1..], n); }
  }

  lemma {:induction false} SurvivingTail(p: Primary, k: nat, n: nat)
    requires k <= |p.content| && Numbered(Logged(p)) && Retained(p, n)
    ensures AtLeast(Surviving(p.alive, p.content[..k]), n + 1) == AtLeast(Flatten(p.content[..k]), n + 1)
    decreases k
  {
    if k > 0 {
      var front, file := p.content[..k - 1], p.content[k - 1];
      SurvivingTail(p, k - 1, n);
      assert p.content[..k][..k - 1] == front;
      assert p.content[..k] == front + [file];
      FlattenAppend(front, [file]);
      FlattenOne(file);
      AtLeastAppend(Flatten(front), file, n + 1);
      AtLeastAppend(Surviving(p.alive, front), if k in p.alive then file else [], n + 1);
      if k !in p.alive { AtLeastNone(file, n); }
    }
  }

  lemma {:induction false} SurvivingSubset(alive: set<nat>, content: seq<seq<Entry>>, e: Entry)
    requires e in Surviving(alive, content)
    ensures exists k :: 1 <= k <= |content| && k in alive && e in content[k - 1]
    decreases |content|
  {
    if content != [] {
      var n := |content|;
      if e in Surviving(alive, content[..n - 1]) {
        SurvivingSubset(alive, content[..n - 1], e);
        var k :| 1 <= k <= n - 1 && k in alive && e in content[..n - 1][k - 1];
        assert e in content[k - 1];
      } else {
        assert n in alive && e in content[n - 1];
      }
    }
  }

  lemma {:induction false} AtLeastMembers(es: seq<Entry>, from: nat, e: Entry)
    ensures e in AtLeast(es, from) <==> e in es && e.sequence >= from
    decreases |es|
  {
    if es != [] {
      AtLeastMembers(es[1..], from, e);
      assert es == [es[0]] + es[1..];
    }
  }

  /** An entry is in one file only, so it is lost with that file. */
  lemma LostWithFile(p: Primary, k: nat, e: Entry)
    requires Numbered(Logged(p)) && 1 <= k <= |p.content| && k !in p.alive && e in p.content[k - 1]
    ensures e !in Surviving(p.alive, p.content)
  {
    if e in Surviving(p.alive, p.content) {
      SurvivingSubset(p.alive, p.content, e);
      var j :| 1 <= j <= |p.content| && j in p.alive && e in p.content[j - 1];
      FilesDisjoint(p.content, if j < k then j - 1 else k - 1, if j < k then k - 1 else j - 1, e, e);
    }
  }

  lemma ReadMisses(p: Primary, n: nat)
    requires Numbered(Logged(p)) && !Retained(p, n)
    ensures AtLeast(Surviving(p.alive, p.content), n + 1) != AtLeast(Logged(p), n + 1)
  {
    var k, e :| 1 <= k <= |p.content| && k !in p.alive && e in p.content[k - 1] && e.sequence > n;
    LostWithFile(p, k, e);
    InFlatten(p.content, k - 1, e);
    AtLeastMembers(Logged(p), n + 1, e);
    AtLeastMembers(Surviving(p.alive, p.content), n + 1, e);
  }

  /** A read from number n on returns exactly the logged entries after the n-th if and
      only if no removed file held one of them. */
  lemma ReadIsExact(p: Primary, n: nat)
    requires Numbered(Logged(p)) && n <= |Logged(p)|
    ensures AtLeast(Surviving(p.alive, p.content), n + 1) == Logged(p)[n..] <==> Retained(p, n)
  {
    AtLeastConsecutive(Logged(p), 0, n);
    assert n == 0 ==> Logged(p)[n..] == Logged(p);
    if Retained(p, n) {
      SurvivingTail(p, |p.content|, n);
      assert p.content[..|p.content|] == p.content;
    } else {
      ReadMisses(p, n);
    }
  }

  /** What a read from number n + 1 on finds. */
  function Found(p: Primary, n: nat): seq<Entry> {
    AtLeast(Surviving(p.alive, p.content), n + 1)
  }

  /** A read finds at most as many entries as there are, and as many only if none is lost. */
  lemma {:induction false} SurvivingCount(alive: set<nat>, content: seq<seq<Entry>>, n: nat)
    ensures |AtLeast(Surviving(alive, content), n + 1)| <= |AtLeast(Flatten(content), n + 1)|
    ensures |AtLeast(Surviving(alive, content), n + 1)| == |AtLeast(Flatten(content), n + 1)| ==> NothingLost(alive, content, n)
    decreases |content|
  {
    if content != [] {
      var k := |content|;
      var front, file := content[..k - 1], content[k - 1];
      SurvivingCount(alive, front, n);
      CountSplit(alive, content, front, file, n);
      if k !in alive { NoneAbove(file, n); }
      if NothingLost(alive, front, n) && (k in alive || forall e :: e in file ==> e.sequence <= n) {
        NothingMoreLost(alive, content, n);
      }
    }
  }

  ghost predicate NothingLost(alive: set<nat>, content: seq<seq<Entry>>, n: nat) {
    forall k, e :: 1 <= k <= |content| && k !in alive && e in content[k - 1] ==> e.sequence <= n
  }

  lemma NothingMoreLost(alive: set<nat>, content: seq<seq<Entry>>, n: nat)
    requires content != [] && NothingLost(alive, content[..|content| - 1], n)
    requires |content| in alive || forall e :: e in content[|content| - 1] ==> e.sequence <= n
    ensures NothingLost(alive, content, n)
  {
    forall k, e | 1 <= k <= |content| && k !in alive && e in content[k - 1]
      ensures e.sequence <= n
    {
      if k < |content| { assert content[..|content| - 1][k - 1] == content[k - 1]; }
    }
  }

  lemma CountSplit(alive: set<nat>, content: seq<seq<Entry>>, front: seq<seq<Entry>>, file: seq<Entry>, n: nat)
    requires content == front + [file]
    ensures |AtLeast(Flatten(content), n + 1)| == |AtLeast(Flatten(front), n + 1)| + |AtLeast(file, n + 1)|
    ensures |AtLeast(Surviving(alive, content), n + 1)|
         == |AtLeast(Surviving(alive, front), n + 1)| + if |content| in alive then |AtLeast(file, n + 1)| else 0
  {
    FlattenAppend(front, [file]);
    FlattenOne(file);
    AtLeastAppend(Flatten(front), file, n + 1);
    assert content[..|content| - 1] == front;
    AtLeastAppend(Surviving(alive, front), if |content| in alive then file else [], n + 1);
  }

  lemma {:induction false} NoneAbove(file: seq<Entry>, n: nat)
    ensures AtLeast(file, n + 1) == [] ==> forall e :: e in file ==> e.sequence <= n
    decreases |file|
  {
    if file != [] {
      NoneAbove(file[1..], n);
      assert file == [file[0]] + file[1..];
    }
  }

  /** Nothing above n is lost exactly when a read finds as many entries as there are. */
  lemma RetainedByCount(p: Primary, n: nat)
    requires Numbered(Logged(p)) && n <= |Logged(p)|
    ensures Retained(p, n) <==> |Found(p, n)| == |Logged(p)| - n
  {
    AtLeastConsecutive(Logged(p), 0, n);
    SurvivingCount(p.alive, p.content, n);
    assert NothingLost(p.alive, p.content, n) ==> Retained(p, n);
    ReadIsExact(p, n);
  }

  /** No file with entries is gone while an earlier one with entries is there. */
  ghost predicate PrefixGone(p: Primary) {
    forall j, k :: 1 <= j < k <= |p.content| && j in p.alive && p.content[j - 1] != [] && p.content[k - 1] != [] ==> k in p.alive
  }

  /** After whole cleanup passes the first number found tells: nothing above n is lost
      exactly when there is nothing above n, or the first entry found is the next one. */
  lemma RetainedByFirst(p: Primary, n: nat)
    requires Numbered(Logged(p)) && n <= |Logged(p)| && PrefixGone(p)
    ensures Retained(p, n) <==> n == |Logged(p)| || (Found(p, n) != [] && Found(p, n)[0].sequence == n + 1)
  {
    ReadIsExact(p, n);
    if n == |Logged(p)| {
      forall k, e | 1 <= k <= |p.content| && k !in p.alive && e in p.content[k - 1]
        ensures e.sequence <= n
      {
        InFlatten(p.content, k - 1, e);
      }
    } else if Found(p, n) != [] && Found(p, n)[0].sequence == n + 1 {
      NextIsFound(p, n, Found(p, n)[0]);
    }
  }

  lemma NextIsFound(p: Primary, n: nat, first: Entry)
    requires Numbered(Logged(p)) && PrefixGone(p) && first in Found(p, n) && first.sequence == n + 1
    ensures Retained(p, n)
  {
    AtLeastMembers(Surviving(p.alive, p.content), n + 1, first);
    SurvivingSubset(p.alive, p.content, first);
    var j :| 1 <= j <= |p.content| && j in p.alive && first in p.content[j - 1];
    forall k, e | 1 <= k <= |p.content| && k !in p.alive && e in p.content[k - 1]
      ensures e.sequence <= n
    {
      assert k < j;
      FilesDisjoint(p.content, k - 1, j - 1, e, first);
    }
  }

  /** A cleanup pass removes all that it may. */
  ghost predicate Thorough(s: Sys, step: Step) {
    step.Checkpoint? ==> forall k :: Removable(s.primary, k) ==> k in step.removed
  }

  lemma StepKeepsPrefix(c: Config, s: Sys, step: Step, s': Sys)
    requires PrimaryOk(c, s.primary) && Next(c, s, step, s') && Thorough(s, step) && PrefixGone(s.primary)
    ensures PrefixGone(s'.primary)
  {
    if step.Checkpoint? {
      WholePassKeepsPrefix(s.primary, step.removed);
    } else if step.Mutate? {
      LoggedKeepsPrefix(s.primary, s'.primary, step.rotate, step.entry);
    }
  }

  lemma LoggedKeepsPrefix(p: Primary, p': Primary, rotate: bool, e: Entry)
    requires PrefixGone(p) && p.content != [] && |p.content| in p.alive
    requires p'.content == WalLog.Logged(p.content, rotate, e) && p'.alive == p.alive + {|p'.content|}
    requires forall k :: k in p.alive ==> 1 <= k <= |p.content|
    ensures PrefixGone(p')
  {
  }

  lemma WholePassKeepsPrefix(p: Primary, removed: set<nat>)
    requires Numbered(Logged(p)) && PrefixGone(p) && forall k :: k in removed <==> Removable(p, k)
    ensures PrefixGone(p.(alive := p.alive - removed))
  {
    forall j, k | 1 <= j < k <= |p.content| && j in p.alive - removed && p.content[j - 1] != [] && p.content[k - 1] != []
      ensures k in p.alive - removed
    {
      if k in removed { EarlierIsRemovable(p, j, k); }
    }
  }

  lemma EarlierIsRemovable(p: Primary, j: nat, k: nat)
    requires Numbered(Logged(p)) && Removable(p, k) && 1 <= j < k && j in p.alive && p.content[j - 1] != []
    ensures Removable(p, j)
  {
    var last := p.content[k - 1][0];
    forall e, id | e in p.content[j - 1] && id in p.acks
      ensures e.sequence <= p.acks[id]
    {
      FilesDisjoint(p.content, j - 1, k - 1, e, last);
    }
  }

  // ---------- a standby ----------

  /** The standby's store is the primary's as it stood just after operation lastSync, and
      what it is being sent continues from there. */
  ghost predicate Follows(c: Config, p: Primary, b: Standby) {
    && b.lastSync <= |p.ops|
    && Consistent(c, b.db, p.ops[..b.lastSync])
    && (b.stream.Some? ==> Continues(p, b.lastSync, b.stream.value))
  }

  /** It follows, and what it still needs is on disk. */
  ghost predicate InStep(c: Config, p: Primary, b: Standby) {
    Follows(c, p, b) && Retained(p, b.lastSync)
  }

  ghost predicate Continues(p: Primary, n: nat, st: Stream) {
    && st.cursor == n + |st.inflight| <= |Logged(p)|
    && n <= st.cursor
    && st.inflight == Logged(p)[n..st.cursor]
  }

  /** Replaying the next logged entry on a store that is n operations along succeeds and
      takes it to n + 1. */
  lemma ReplayAdvances(c: Config, ops: seq<Op>, es: seq<Entry>, db: Db, n: nat, now: int)
    requires Logs(c.docs, es, ops) && AllFaithful(c.docs, ops) && Model.Replayed(c.initial, ops).Some?
    requires n < |ops| && Consistent(c, db, ops[..n])
    ensures ReplayEntry(c.docs, db, es[n].key, es[n].data, now).Replayed?
    ensures Consistent(c, ReplayEntry(c.docs, db, es[n].key, es[n].data, now).db, ops[..n + 1])
  {
    TakeNext(ops, n);
    ReplayNext(c.docs, ops, es, db, n, now);
    PrefixReplays(c, ops, n + 1);
    ConsistentStep(c, db, ops[..n], ops[n], now);
  }

  lemma ReplayNext(docs: Docs, ops: seq<Op>, es: seq<Entry>, db: Db, n: nat, now: int)
    requires Logs(docs, es, ops) && AllFaithful(docs, ops) && n < |ops|
    ensures ReplayEntry(docs, db, es[n].key, es[n].data, now) ==
            match Apply(db, ops[n], now) case None => Aborted case Some(db') => ReplayResult.Replayed(db')
  {
    assert ops[n] in ops && Faithful(docs, ops[n]);
    ReplayRecorded(docs, db, es[n], ops[n], now);
  }

  lemma TakeNext<T>(s: seq<T>, n: nat)
    requires n < |s|
    ensures s[..n + 1] == s[..n] + [s[n]]
  {}

  /** Replay never fails on entries the primary logged. */
  lemma ReplaySucceeds(c: Config, p: Primary, b: Standby, now: int)
    requires PrimaryOk(c, p) && Follows(c, p, b)
    requires b.stream.Some? && b.stream.value.inflight != []
    ensures var e := b.stream.value.inflight[0];
      && e == Logged(p)[b.lastSync] && e.sequence == b.lastSync + 1
      && ReplayEntry(c.docs, b.db, e.key, e.data, now).Replayed?
      && Consistent(c, ReplayEntry(c.docs, b.db, e.key, e.data, now).db, p.ops[..b.lastSync + 1])
  {
    assert b.stream.value.inflight[0] == Logged(p)[b.lastSync];
    ReplayAdvances(c, p.ops, Logged(p), b.db, b.lastSync, now);
  }

  lemma ReplayKeeps(c: Config, p: Primary, b: Standby, now: int)
    requires PrimaryOk(c, p) && Follows(c, p, b)
    requires b.stream.Some? && b.stream.value.inflight != []
    ensures Follows(c, p, AfterReplay(c.docs, b, now))
    ensures AfterReplay(c.docs, b, now).lastSync == b.lastSync + 1
  {
    ReplaySucceeds(c, p, b, now);
  }

  lemma RestSent(all: seq<Entry>, n: nat, st: Stream, es: seq<Entry>)
    requires Numbered(all) && n <= st.cursor == n + |st.inflight| <= |all| && st.inflight == all[n..st.cursor]
    requires es == all[st.cursor..] && es != []
    ensures es[|es| - 1].sequence == |all| && st.inflight + es == all[n..|all|]
  {
    assert es[|es| - 1] == all[|all| - 1];
  }

  lemma OnlyRestFits(all: seq<Entry>, n: nat, st: Stream, es: seq<Entry>, end: nat)
    requires Numbered(all) && n <= st.cursor == n + |st.inflight| < |all| && n <= end <= |all|
    requires st.inflight + es == all[n..end] && all[|all| - 1] in es
    ensures |es| == |all| - st.cursor
  {
    var k :| 0 <= k < |es| && es[k] == all[|all| - 1];
    assert (st.inflight + es)[|st.inflight| + k] == all[n + |st.inflight| + k];
  }

  /** What is sent continues the log exactly when it is as much as the primary has beyond
      the last number sent. */
  lemma SendContinuesExactly(p: Primary, n: nat, st: Stream)
    requires OnDisk(p) && Continues(p, n, st)
    ensures Continues(p, n, AfterSend(p, st)) <==> |Found(p, st.cursor)| == |Logged(p)| - st.cursor
  {
    if |Found(p, st.cursor)| == |Logged(p)| - st.cursor {
      WholeRestContinues(p, n, st);
    } else if st.cursor < |Logged(p)| {
      FoundLast(p, st.cursor);
      PartDoesNot(p, n, st);
    } else {
      NothingFound(p);
    }
  }

  lemma WholeRestContinues(p: Primary, n: nat, st: Stream)
    requires Numbered(Logged(p)) && Continues(p, n, st) && |Found(p, st.cursor)| == |Logged(p)| - st.cursor
    ensures Continues(p, n, AfterSend(p, st))
  {
    RetainedByCount(p, st.cursor);
    ReadIsExact(p, st.cursor);
    if Found(p, st.cursor) != [] { RestSent(Logged(p), n, st, Found(p, st.cursor)); }
  }

  lemma PartDoesNot(p: Primary, n: nat, st: Stream)
    requires Numbered(Logged(p)) && Continues(p, n, st) && |Found(p, st.cursor)| != |Logged(p)| - st.cursor
    requires st.cursor < |Logged(p)| && Logged(p)[|Logged(p)| - 1] in Found(p, st.cursor)
    ensures !Continues(p, n, AfterSend(p, st))
  {
    if Continues(p, n, AfterSend(p, st)) {
      var es := Found(p, st.cursor);
      OnlyRestFits(Logged(p), n, st, es, es[|es| - 1].sequence);
    }
  }

  lemma NothingFound(p: Primary)
    requires Numbered(Logged(p))
    ensures Found(p, |Logged(p)|) == []
  {
    forall e | e in Surviving(p.alive, p.content)
      ensures e.sequence <= |Logged(p)|
    {
      SurvivingSubset(p.alive, p.content, e);
      var k :| 1 <= k <= |p.content| && e in p.content[k - 1];
      InFlatten(p.content, k - 1, e);
    }
    AtLeastNone(Surviving(p.alive, p.content), |Logged(p)|);
  }

  /** A read finds the last entry of the log, which is in the active file. */
  lemma FoundLast(p: Primary, n: nat)
    requires OnDisk(p) && n < |Logged(p)|
    ensures Logged(p)[|Logged(p)| - 1] in Found(p, n)
  {
    var e := Logged(p)[|Logged(p)| - 1];
    assert e.sequence == |Logged(p)|;
    LastIsActive(p.content);
    ActiveSurvives(p.alive, p.content, e);
    AtLeastMembers(Surviving(p.alive, p.content), n + 1, e);
  }

  lemma LastIsActive(content: seq<seq<Entry>>)
    requires content != [] && content[|content| - 1] != []
    ensures Flatten(content) != [] && Flatten(content)[|Flatten(content)| - 1] in content[|content| - 1]
  {
    var k := |content| - 1;
    assert content == content[..k] + [content[k]];
    FlattenAppend(content[..k], [content[k]]);
    FlattenOne(content[k]);
  }

  lemma ActiveSurvives(alive: set<nat>, content: seq<seq<Entry>>, e: Entry)
    requires content != [] && |content| in alive && e in content[|content| - 1]
    ensures e in Surviving(alive, content)
  {
  }

  lemma SendKeeps(c: Config, p: Primary, b: Standby)
    requires PrimaryOk(c, p) && InStep(c, p, b) && b.stream.Some?
    ensures InStep(c, p, b.(stream := Some(AfterSend(p, b.stream.value))))
  {
    var st := b.stream.value;
    assert Retained(p, st.cursor);
    RetainedByCount(p, st.cursor);
    SendContinuesExactly(p, b.lastSync, st);
  }

  lemma MutateKeeps(c: Config, s: Sys, step: Step, s': Sys, b: Standby)
    requires PrimaryOk(c, s.primary) && Next(c, s, step, s') && step.Mutate? && Follows(c, s.primary, b)
    ensures Follows(c, s'.primary, b)
    ensures Retained(s.primary, b.lastSync) ==> Retained(s'.primary, b.lastSync)
  {
    var p, p' := s.primary, s'.primary;
    LoggedGrows(p.content, step.rotate, step.entry);
    assert p'.ops[..b.lastSync] == p.ops[..b.lastSync];
    if Retained(p, b.lastSync) { RetainedGrows(p, p', b.lastSync, step.rotate, step.entry); }
    if b.stream.Some? {
      var st := b.stream.value;
      assert Logged(p')[b.lastSync..st.cursor] == Logged(p)[b.lastSync..st.cursor];
    }
  }

  lemma RetainedGrows(p: Primary, p': Primary, n: nat, rotate: bool, e: Entry)
    requires Retained(p, n) && p.content != []
    requires p'.content == WalLog.Logged(p.content, rotate, e) && p'.alive == p.alive + {|p'.content|}
    ensures Retained(p', n)
  {}

  // ---------- acknowledgements ----------

  ghost predicate DistinctNames(s: Sys) {
    forall i, j :: i in s.standbys && j in s.standbys && i != j ==> s.standbys[i].ackId != s.standbys[j].ackId
  }

  /** Every recorded acknowledgement is positive, belongs to a standby, and is at most what
      that standby has replayed. */
  ghost predicate AcksOk(s: Sys) {
    && (forall id :: id in s.primary.acks ==> s.primary.acks[id] > 0 && exists i :: i in s.standbys && s.standbys[i].ackId == id)
    && (forall i :: i in s.standbys && s.standbys[i].ackId in s.primary.acks ==>
          s.primary.acks[s.standbys[i].ackId] <= s.standbys[i].lastSync)
  }

  ghost predicate Acked(s: Sys, i: nat) {
    i in s.standbys && s.standbys[i].ackId in s.primary.acks
  }

  lemma StepFrames(c: Config, s: Sys, step: Step, s': Sys, i: nat)
    requires Next(c, s, step, s') && i in s.standbys
    ensures s'.standbys.Keys == s.standbys.Keys
    ensures s'.standbys[i].ackId == s.standbys[i].ackId
    ensures s'.standbys[i].lastSync >= s.standbys[i].lastSync
  {}

  lemma AcksStep(c: Config, s: Sys, step: Step, s': Sys)
    requires Next(c, s, step, s') && DistinctNames(s) && AcksOk(s)
    ensures DistinctNames(s') && AcksOk(s')
  {
    forall i | i in s.standbys
      ensures i in s'.standbys && s'.standbys[i].ackId == s.standbys[i].ackId
      ensures s'.standbys[i].lastSync >= s.standbys[i].lastSync
    {
      StepFrames(c, s, step, s', i);
    }
    assert s'.standbys.Keys == s.standbys.Keys;
    forall id | id in s'.primary.acks
      ensures s'.primary.acks[id] > 0 && exists i :: i in s'.standbys && s'.standbys[i].ackId == id
    {
      if id in s.primary.acks && s'.primary.acks[id] == s.primary.acks[id] {
        var i :| i in s.standbys && s.standbys[i].ackId == id;
        assert s'.standbys[i].ackId == id;
      } else {
        assert s'.standbys[step.standby].ackId == id;
      }
    }
  }

  /** A cleanup pass leaves an in-step standby in step exactly when it removes no file
      that holds an entry the standby has not replayed, and a later read shows whether it
      has by what it finds. */
  lemma CheckpointKeepsExactly(c: Config, s: Sys, step: Step, s': Sys, i: nat)
    requires Next(c, s, step, s') && step.Checkpoint? && i in s.standbys && InStep(c, s.primary, s.standbys[i])
    requires PrimaryOk(c, s.primary)
    ensures InStep(c, s'.primary, s'.standbys[i]) <==>
            forall k, e :: k in step.removed && e in s.primary.content[k - 1] ==> e.sequence <= s.standbys[i].lastSync
    ensures InStep(c, s'.primary, s'.standbys[i]) <==>
            |Found(s'.primary, s.standbys[i].lastSync)| == |s.primary.ops| - s.standbys[i].lastSync
  {
    var p, p' := s.primary, s'.primary;
    var n := s.standbys[i].lastSync;
    forall k | k in step.removed
      ensures 1 <= k <= |p.content| && k !in p'.alive
    {
      assert Removable(p, k);
    }
    RetainedByCount(p', n);
  }

  /** An acknowledged standby in step stays in step whatever happens next. */
  lemma StepKeepsAcked(c: Config, s: Sys, step: Step, s': Sys, i: nat)
    requires Next(c, s, step, s') && PrimaryOk(c, s.primary) && DistinctNames(s) && AcksOk(s)
    requires i in s.standbys && InStep(c, s.primary, s.standbys[i])
    requires step.Checkpoint? ==> Acked(s, i) || s.primary.acks == map[]
    ensures i in s'.standbys && InStep(c, s'.primary, s'.standbys[i])
  {
    var b := s.standbys[i];
    match step {
      case Mutate(_, _, _, _) => MutateKeeps(c, s, step, s', b);
      case Send(j) => if i == j { SendKeeps(c, s.primary, b); }
      case Replay(j, now) => if i == j { ReplayKeeps(c, s.primary, b, now); }
      case Checkpoint(removed) =>
        forall k, e | k in removed && e in s.primary.content[k - 1]
          ensures e.sequence <= b.lastSync
        {
          assert Removable(s.primary, k);
          assert e.sequence <= s.primary.acks[b.ackId];
        }
        CheckpointKeepsExactly(c, s, step, s', i);
      case _ =>
    }
  }

  // ---------- whole runs ----------

  ghost predicate Inv(c: Config, s: Sys) {
    PrimaryOk(c, s.primary) && DistinctNames(s) && AcksOk(s)
  }

  lemma InvStep(c: Config, s: Sys, step: Step, s': Sys)
    requires Inv(c, s) && Next(c, s, step, s')
    ensures Inv(c, s')
  {
    PrimaryStep(c, s, step, s');
    AcksStep(c, s, step, s');
  }

  lemma InitOk(c: Config, s: Sys)
    requires Init(c, s)
    ensures PrimaryOk(c, s.primary) && AcksOk(s)
    ensures forall i :: i in s.standbys ==> InStep(c, s.primary, s.standbys[i])
  {
    FlattenOne([]);
  }

  /** There is one standby, i, and it is in step. */
  ghost predicate Sole(c: Config, s: Sys, i: nat) {
    Inv(c, s) && s.standbys.Keys == {i} && InStep(c, s.primary, s.standbys[i])
  }

  lemma SoleStep(c: Config, s: Sys, step: Step, s': Sys, i: nat)
    requires Sole(c, s, i) && Next(c, s, step, s')
    ensures Sole(c, s', i)
  {
    InvStep(c, s, step, s');
    if s.primary.acks != map[] {
      var id :| id in s.primary.acks;
      assert Acked(s, i);
    }
    StepFrames(c, s, step, s', i);
    StepKeepsAcked(c, s, step, s', i);
  }

  /** Failover is prefix-consistent and cleanup never opens a gap.  With one standby, in
      every state of every run, its store is the primary's as it stood just after operation
      lastSync, every later entry is in a surviving file, and no acknowledgement is ahead
      of what was replayed. */
  lemma FailoverConsistent(c: Config, states: seq<Sys>, steps: seq<Step>, t: nat, i: nat)
    requires IsRun(c, states, steps) && t < |states|
    requires states[0].standbys.Keys == {i}
    ensures Sole(c, states[t], i)
    ensures var p, b := states[t].primary, states[t].standbys[i];
      && Consistent(c, b.db, p.ops[..b.lastSync]) && Retained(p, b.lastSync)
      && forall id :: id in p.acks ==> p.acks[id] <= b.lastSync
  {
    InitOk(c, states[0]);
    var next := (s: Sys, step: Step, s': Sys) => Next(c, s, step, s');
    var inv := (s: Sys) => Sole(c, s, i);
    forall s, step, s' | inv(s) && next(s, step, s')
      ensures inv(s')
    {
      SoleStep(c, s, step, s', i);
    }
    Runs.Invariant(states, steps, next, inv, t);
  }

  /** Standby i has been acknowledged and is in step. */
  ghost predicate Kept(c: Config, s: Sys, i: nat) {
    Inv(c, s) && Acked(s, i) && InStep(c, s.primary, s.standbys[i])
  }

  lemma KeptStep(c: Config, s: Sys, step: Step, s': Sys, i: nat)
    requires Kept(c, s, i) && Next(c, s, step, s')
    ensures Kept(c, s', i)
  {
    InvStep(c, s, step, s');
    StepFrames(c, s, step, s', i);
    StepKeepsAcked(c, s, step, s', i);
  }

  /** With any number of standbys under distinct names, one that was in step when it was
      acknowledged stays in step for the rest of the run. */
  lemma AckedStaysInStep(c: Config, states: seq<Sys>, steps: seq<Step>, t0: nat, t: nat, i: nat)
    requires IsSuffixOfRun(c, states, steps) && t0 <= t < |states| && Kept(c, states[t0], i)
    ensures Kept(c, states[t], i)
  {
    var next := (s: Sys, step: Step, s': Sys) => Next(c, s, step, s');
    var inv := (s: Sys) => Kept(c, s, i);
    forall s, step, s' | inv(s) && next(s, step, s')
      ensures inv(s')
    {
      KeptStep(c, s, step, s', i);
    }
    Runs.Onward(states, steps, next, inv, t0, t);
  }

  ghost predicate IsSuffixOfRun(c: Config, states: seq<Sys>, steps: seq<Step>) {
    && |states| == |steps| + 1
    && forall t :: 0 <= t < |steps| ==> Next(c, states[t], steps[t], states[t + 1])
  }

  /** The invariant `Kept` builds on holds in every run. */
  lemma RunInvariant(c: Config, states: seq<Sys>, steps: seq<Step>, t: nat)
    requires IsRun(c, states, steps) && t < |states| && DistinctNames(states[0])
    ensures Inv(c, states[t])
  {
    InitOk(c, states[0]);
    var next := (s: Sys, step: Step, s': Sys) => Next(c, s, step, s');
    var inv := (s: Sys) => Inv(c, s);
    forall s, step, s' | inv(s) && next(s, step, s')
      ensures inv(s')
    {
      InvStep(c, s, step, s');
    }
    Runs.Invariant(states, steps, next, inv, t);
  }

  // ---------- any standby, acknowledged or not ----------

  /** If the step sends to standby i, it sends as many entries as the primary has beyond
      the last number sent. */
  ghost predicate NoGap(s: Sys, step: Step, i: nat) {
    step == Send(i) && i in s.standbys && s.standbys[i].stream.Some? ==>
      var cursor := s.standbys[i].stream.value.cursor;
      |Found(s.primary, cursor)| == |s.primary.ops| - cursor
  }

  ghost predicate Following(c: Config, s: Sys, i: nat) {
    i in s.standbys && Follows(c, s.primary, s.standbys[i])
  }

  lemma StepKeepsFollowing(c: Config, s: Sys, step: Step, s': Sys, i: nat)
    requires PrimaryOk(c, s.primary) && Next(c, s, step, s') && Following(c, s, i)
    ensures Following(c, s', i) <==> NoGap(s, step, i)
  {
    if step == Send(i) {
      SendContinuesExactly(s.primary, s.standbys[i].lastSync, s.standbys[i].stream.value);
    } else {
      OtherStepKeeps(c, s, step, s', i);
    }
  }

  lemma OtherStepKeeps(c: Config, s: Sys, step: Step, s': Sys, i: nat)
    requires PrimaryOk(c, s.primary) && Next(c, s, step, s') && Following(c, s, i) && step != Send(i)
    ensures Following(c, s', i)
  {
    var p, b := s.primary, s.standbys[i];
    if step.Mutate? {
      MutateKeeps(c, s, step, s', b);
    } else if step.Replay? && step.standby == i {
      ReplayKeeps(c, p, b, step.now);
    } else {
      assert s'.primary.ops == p.ops && s'.primary.content == p.content;
    }
  }

  /** With any standbys under any names and any cleanups, a standby follows the primary in
      all states of a run exactly when nothing sent to it has a gap: then, once it has
      replayed all operations, its store is the primary's. */
  lemma FollowsWithoutGaps(c: Config, states: seq<Sys>, steps: seq<Step>, i: nat)
    requires IsRun(c, states, steps) && i in states[0].standbys
    ensures (forall t :: 0 <= t < |states| ==> Following(c, states[t], i)) <==>
            forall t :: 0 <= t < |steps| ==> NoGap(states[t], steps[t], i)
  {
    if forall t :: 0 <= t < |steps| ==> NoGap(states[t], steps[t], i) {
      forall t | 0 <= t < |states|
        ensures Following(c, states[t], i)
      {
        FollowsSoFar(c, states, steps, i, t);
      }
    } else {
      var t :| 0 <= t < |steps| && !NoGap(states[t], steps[t], i);
      PrimaryStaysOk(c, states, steps, t);
      if Following(c, states[t], i) {
        StepKeepsFollowing(c, states[t], steps[t], states[t + 1], i);
      }
    }
  }

  /** A standby that follows and is level has the primary's data. */
  lemma LevelHasData(c: Config, p: Primary, b: Standby)
    requires PrimaryOk(c, p) && Follows(c, p, b) && b.lastSync == |p.ops|
    ensures SameData(p.db, b.db)
  {
    assert p.ops[..|p.ops|] == p.ops;
  }

  lemma PrimaryStaysOk(c: Config, states: seq<Sys>, steps: seq<Step>, t: nat)
    requires IsRun(c, states, steps) && t < |states|
    ensures PrimaryOk(c, states[t].primary)
  {
    InitOk(c, states[0]);
    var next := (s: Sys, step: Step, s': Sys) => Next(c, s, step, s');
    var inv := (s: Sys) => PrimaryOk(c, s.primary);
    forall s, step, s' | inv(s) && next(s, step, s')
      ensures inv(s')
    {
      PrimaryStep(c, s, step, s');
    }
    Runs.Invariant(states, steps, next, inv, t);
  }

  lemma FollowsSoFar(c: Config, states: seq<Sys>, steps: seq<Step>, i: nat, t: nat)
    requires IsRun(c, states, steps) && i in states[0].standbys && t < |states|
    requires forall k :: 0 <= k < |steps| ==> NoGap(states[k], steps[k], i)
    ensures Following(c, states[t], i)
  {
    InitOk(c, states[0]);
    var next := (s: Sys, step: Step, s': Sys) => Next(c, s, step, s') && NoGap(s, step, i);
    var inv := (s: Sys) => PrimaryOk(c, s.primary) && Following(c, s, i);
    forall s, step, s' | inv(s) && next(s, step, s')
      ensures inv(s')
    {
      PrimaryStep(c, s, step, s');
      StepKeepsFollowing(c, s, step, s', i);
    }
    Runs.Invariant(states, steps, next, inv, t);
  }

  /** When every cleanup is a whole pass, the standby sees a gap by the first number. */
  lemma GapShowsFirst(c: Config, states: seq<Sys>, steps: seq<Step>, t: nat, n: nat)
    requires IsRun(c, states, steps) && t < |states| && n <= |states[t].primary.ops|
    requires forall k :: 0 <= k < |steps| ==> Thorough(states[k], steps[k])
    ensures var found := Found(states[t].primary, n);
      |found| == |states[t].primary.ops| - n <==>
      n == |states[t].primary.ops| || (found != [] && found[0].sequence == n + 1)
  {
    InitOk(c, states[0]);
    var next := (s: Sys, step: Step, s': Sys) => Next(c, s, step, s') && Thorough(s, step);
    var inv := (s: Sys) => PrimaryOk(c, s.primary) && PrefixGone(s.primary);
    forall s, step, s' | inv(s) && next(s, step, s')
      ensures inv(s')
    {
      PrimaryStep(c, s, step, s');
      StepKeepsPrefix(c, s, step, s');
    }
    Runs.Invariant(states, steps, next, inv, t);
    RetainedByCount(states[t].primary, n);
    RetainedByFirst(states[t].primary, n);
  }

  // ---------- the primary's store and its log ----------

  /** The part of the state that a store and its log hold. */
  ghost function View(st: Store, acks: map<string, nat>): Primary
    requires st.writer != null
    reads st, st.writer, st.Log()
  {
    Primary(st.db, st.ops, st.writer.content, st.writer.dir.files.Keys, acks)
  }

  /** A store whose log has just been enabled is where runs start. */
  lemma FreshLogIsInit(st: Store)
    requires st.writer != null && st.writer.Valid() && st.writer.content == [[]] && st.ops == []
    ensures View(st, map[]) == Primary(st.db, [], [[]], {1}, map[])
  {
    assert st.writer.dir.files.Keys == {1};
  }

  /** Every successful call of a mutator while the store logs is one Mutate step, and every
      other call leaves the log and, if it fails, the buckets as they are. */
  twostate lemma CallIsMutate(c: Config, st: Store, standbys: map<nat, Standby>, acks: map<string, nat>, op: Op, now: int, ok: bool)
    requires old(st.writer) != null && st.writer == old(st.writer) && c.docs == st.docs && Faithful(c.docs, op)
    requires st.Did(op, now, ok)
    ensures ok && old(st.Logging()) ==> exists e, rotate ::
      Next(c, Sys(old(View(st, acks)), standbys), Mutate(op, now, e, rotate), Sys(View(st, acks), standbys))
    ensures !ok ==> View(st, acks) == old(View(st, acks))
  {
    if ok && old(st.Logging()) {
      AppendedIsMutate(c, old(View(st, acks)), View(st, acks), standbys, op, now);
    }
  }

  lemma AppendedIsMutate(c: Config, p: Primary, p': Primary, standbys: map<nat, Standby>, op: Op, now: int)
    requires Faithful(c.docs, op) && Apply(p.db, op, now) == Some(p'.db) && p'.ops == p.ops + [op] && p'.acks == p.acks
    requires Appended(c.docs, op, |p'.ops|, p.content, p.alive, p'.content, p'.alive)
    ensures exists e, rotate :: Next(c, Sys(p, standbys), Mutate(op, now, e, rotate), Sys(p', standbys))
  {
    var rotate, e :| Records(c.docs, e, op) && e.sequence == |p'.ops| && p'.content == WalLog.Logged(p.content, rotate, e);
    assert Next(c, Sys(p, standbys), Mutate(op, now, e, rotate), Sys(p', standbys));
  }
}
