/** The persistent store and its log (scheduler/internal/store/store.go), and the replay
    of log entries into a store (replayEntry in scheduler/internal/server/standby.go).

    Every mutator applies its operation to the buckets and then appends it to the log,
    unless the store is replaying.  JSON is a pair of functions that are inverse to each
    other; the log file and byte layer below is that of WalLog.
 */
module Store {
  import opened Model
  import opened Crc32
  import opened WalCodec
  import opened WalLog
  import FileNames

  // ---------- operations as log entries ----------

  datatype Kind =
    | KSaveNode | KDeleteNode | KSaveJob | KDeleteJob | KUpdateJobStatus | KSaveUnit | KUpdateStageStatus
    | KSaveTrustEdge | KDeleteTrustEdge | KSaveIPAllocation | KDeleteIPAllocation | KSaveInviteCode | KDeleteInviteCode

  function KindOf(op: Op): Kind {
    match op
    case SaveNode(_) => KSaveNode
    case DeleteNode(_) => KDeleteNode
    case SaveJob(_) => KSaveJob
    case DeleteJob(_) => KDeleteJob
    case UpdateJobStatus(_, _) => KUpdateJobStatus
    case SaveUnit(_) => KSaveUnit
    case UpdateStageStatus(_, _) => KUpdateStageStatus
    case SaveTrustEdge(_) => KSaveTrustEdge
    case DeleteTrustEdge(_, _) => KDeleteTrustEdge
    case SaveIPAllocation(_, _) => KSaveIPAllocation
    case DeleteIPAllocation(_) => KDeleteIPAllocation
    case SaveInviteCode(_) => KSaveInviteCode
    case DeleteInviteCode(_) => KDeleteInviteCode
  }

  function KeyName(k: Kind): (s: string)
    ensures forall i :: 0 <= i < |s| ==> s[i] < 128 as char
  {
    match k
    case KSaveNode => "SaveNode"
    case KDeleteNode => "DeleteNode"
    case KSaveJob => "SaveJob"
    case KDeleteJob => "DeleteJob"
    case KUpdateJobStatus => "UpdateJobStatus"
    case KSaveUnit => "SaveUnit"
    case KUpdateStageStatus => "UpdateStageStatus"
    case KSaveTrustEdge => "SaveTrustEdge"
    case KDeleteTrustEdge => "DeleteTrustEdge"
    case KSaveIPAllocation => "SaveIPAllocation"
    case KDeleteIPAllocation => "DeleteIPAllocation"
    case KSaveInviteCode => "SaveInviteCode"
    case KDeleteInviteCode => "DeleteInviteCode"
  }

  predicate IsDelete(k: Kind) {
    k in {KDeleteNode, KDeleteJob, KDeleteTrustEdge, KDeleteIPAllocation, KDeleteInviteCode}
  }

  const ENTRY_DATA: byte := 1
  const ENTRY_DELETE: byte := 4

  function Bytes(s: string): (b: seq<byte>)
    ensures |b| == |s|
  {
    seq(|s|, i requires 0 <= i < |s| => if s[i] < 256 as char then s[i] as nat else 0)
  }

  function Chars(b: seq<byte>): (s: string)
    ensures |s| == |b|
  {
    seq(|b|, i requires 0 <= i < |b| => b[i] as char)
  }

  /** The switch on the entry key; None is its default case. */
  function KindOfName(name: string): Option<Kind> {
    if name == "SaveNode" then Some(KSaveNode)
    else if name == "DeleteNode" then Some(KDeleteNode)
    else if name == "SaveJob" then Some(KSaveJob)
    else if name == "DeleteJob" then Some(KDeleteJob)
    else if name == "UpdateJobStatus" then Some(KUpdateJobStatus)
    else if name == "SaveUnit" then Some(KSaveUnit)
    else if name == "UpdateStageStatus" then Some(KUpdateStageStatus)
    else if name == "SaveTrustEdge" then Some(KSaveTrustEdge)
    else if name == "DeleteTrustEdge" then Some(KDeleteTrustEdge)
    else if name == "SaveIPAllocation" then Some(KSaveIPAllocation)
    else if name == "DeleteIPAllocation" then Some(KDeleteIPAllocation)
    else if name == "SaveInviteCode" then Some(KSaveInviteCode)
    else if name == "DeleteInviteCode" then Some(KDeleteInviteCode)
    else None
  }

  lemma NameRoundTrip(k: Kind)
    ensures KindOfName(KeyName(k)) == Some(k)
  {
    assert "SaveNode"[4] != "SaveUnit"[4];
    assert "UpdateJobStatus"[0] != "DeleteTrustEdge"[0];
    assert "SaveIPAllocation"[0] != "DeleteInviteCode"[0];
  }

  lemma KeyRoundTrip(k: Kind)
    ensures KindOfName(Chars(Bytes(KeyName(k)))) == Some(k)
  {
    NameRoundTrip(k);
    CharsOfBytes(KeyName(k));
  }

  lemma CharsOfBytes(s: string)
    requires forall i :: 0 <= i < |s| ==> s[i] < 256 as char
    ensures Chars(Bytes(s)) == s
  {}

  // ---------- documents ----------

  /** JSON, and the raw identifiers of the delete operations, as bytes and back. */
  datatype Docs = Docs(write: Op -> seq<byte>, read: (Kind, seq<byte>) -> Option<Op>)

  /** The document of `op` reads back as `op`. */
  predicate ReadsBack(docs: Docs, op: Op) {
    docs.read(KindOf(op), docs.write(op)) == Some(op)
  }

  /** The document of `op` is within the length field of a log entry. */
  predicate Short(docs: Docs, op: Op) {
    |docs.write(op)| < 0x1_0000_0000
  }

  ghost predicate AllShort(docs: Docs, ops: seq<Op>) {
    forall op :: op in ops ==> Short(docs, op)
  }

  ghost predicate Faithful(docs: Docs, op: Op) {
    ReadsBack(docs, op) && Short(docs, op)
  }

  ghost predicate AllFaithful(docs: Docs, ops: seq<Op>) {
    forall op :: op in ops ==> Faithful(docs, op)
  }

  function IndexOf(ops: seq<Op>, op: Op): (n: nat)
    ensures op in ops ==> n < |ops| && ops[n] == op
  {
    if ops == [] || ops[0] == op then 0 else 1 + IndexOf(ops[1..], op)
  }

  /** A format in which the n-th of `ops` is written as n zeros. */
  function DocsFor(ops: seq<Op>): Docs {
    Docs((op: Op) => Zeros(IndexOf(ops, op)),
         (kind: Kind, data: seq<byte>) => if |data| < |ops| then Some(ops[|data|]) else None)
  }

  function Zeros(n: nat): (b: seq<byte>)
    ensures |b| == n
  {
    seq(n, i => 0)
  }

  /** For any 2^32 operations there is a format that is faithful to all of them. */
  lemma FaithfulDocsExist(ops: seq<Op>)
    requires |ops| <= 0x1_0000_0000
    ensures AllFaithful(DocsFor(ops), ops)
  {
    forall op | op in ops
      ensures Faithful(DocsFor(ops), op)
    {
      assert ops[IndexOf(ops, op)] == op;
    }
  }

  /** `e` is the log entry of `op`. */
  ghost predicate Records(docs: Docs, e: Entry, op: Op) {
    && e.typ == (if IsDelete(KindOf(op)) then ENTRY_DELETE else ENTRY_DATA)
    && e.key == Bytes(KeyName(KindOf(op)))
    && e.data == docs.write(op)
  }

  /** The name and the type under which each operation is logged. */
  lemma LoggedAs(docs: Docs, e: Entry, op: Op)
    requires Records(docs, e, op)
    ensures op.SaveNode? ==> Chars(e.key) == "SaveNode" && e.typ == 1
    ensures op.DeleteNode? ==> Chars(e.key) == "DeleteNode" && e.typ == 4
    ensures op.SaveJob? ==> Chars(e.key) == "SaveJob" && e.typ == 1
    ensures op.DeleteJob? ==> Chars(e.key) == "DeleteJob" && e.typ == 4
    ensures op.UpdateJobStatus? ==> Chars(e.key) == "UpdateJobStatus" && e.typ == 1
    ensures op.SaveUnit? ==> Chars(e.key) == "SaveUnit" && e.typ == 1
    ensures op.UpdateStageStatus? ==> Chars(e.key) == "UpdateStageStatus" && e.typ == 1
    ensures op.SaveTrustEdge? ==> Chars(e.key) == "SaveTrustEdge" && e.typ == 1
    ensures op.DeleteTrustEdge? ==> Chars(e.key) == "DeleteTrustEdge" && e.typ == 4
    ensures op.SaveIPAllocation? ==> Chars(e.key) == "SaveIPAllocation" && e.typ == 1
    ensures op.DeleteIPAllocation? ==> Chars(e.key) == "DeleteIPAllocation" && e.typ == 4
    ensures op.SaveInviteCode? ==> Chars(e.key) == "SaveInviteCode" && e.typ == 1
    ensures op.DeleteInviteCode? ==> Chars(e.key) == "DeleteInviteCode" && e.typ == 4
  {
    CharsOfBytes(KeyName(KindOf(op)));
  }

  ghost predicate Logs(docs: Docs, es: seq<Entry>, ops: seq<Op>) {
    |es| == |ops| && forall i :: 0 <= i < |es| ==> Records(docs, es[i], ops[i])
  }

  lemma LogsGrow(docs: Docs, es: seq<Entry>, ops: seq<Op>, es': seq<Entry>, op: Op)
    requires Logs(docs, es, ops) && |es'| == |es| + 1 && es'[..|es|] == es && Records(docs, es'[|es|], op)
    ensures Logs(docs, es', ops + [op])
  {
    forall i | 0 <= i < |es'|
      ensures Records(docs, es'[i], (ops + [op])[i])
    {
      if i < |es| { assert es'[i] == es'[..|es|][i] == es[i]; }
    }
  }

  datatype ReplayResult = Replayed(db: Db) | Aborted

  /** replayEntry: the store after the entry, or the error that aborts the replay. */
  function ReplayEntry(docs: Docs, db: Db, key: seq<byte>, data: seq<byte>, now: int): ReplayResult {
    match KindOfName(Chars(key))
    case None => ReplayResult.Replayed(db)
    case Some(kind) =>
      match docs.read(kind, data)
      case None => Aborted
      case Some(op) =>
        match Apply(db, op, now)
        case None => Aborted
        case Some(db') => ReplayResult.Replayed(db')
  }

  /** Replaying the entry of an operation applies that operation. */
  lemma ReplayRecorded(docs: Docs, db: Db, e: Entry, op: Op, now: int)
    requires ReadsBack(docs, op) && Records(docs, e, op)
    ensures ReplayEntry(docs, db, e.key, e.data, now) ==
            match Apply(db, op, now) case None => Aborted case Some(db') => ReplayResult.Replayed(db')
  {
    KeyRoundTrip(KindOf(op));
  }

  /** The entry of an operation fits the log's format exactly when its document is short. */
  lemma RecordFits(docs: Docs, e: Entry, op: Op)
    requires Records(docs, e, op)
    ensures Fits(e) <==> Short(docs, op)
  {
    assert |KeyName(KindOf(op))| <= 18;
  }

  /** The log goes on from n - 1 entries with the entry of `op`, in a new file or in the
      active one. */
  ghost predicate Appended(docs: Docs, op: Op, n: nat, content: seq<seq<Entry>>, alive: set<nat>,
                           content': seq<seq<Entry>>, alive': set<nat>)
  {
    && content != [] && alive' == alive + {|content'|}
    && exists rotate, e :: Records(docs, e, op) && e.sequence == n && content' == Logged(content, rotate, e)
  }

  /** The first stage of the job with that identifier has the status, and all else is as it
      was; without such a stage the job is. */
  ghost predicate OneStageSet(before: Job, after: Job, id: string, status: StageStatus, now: int) {
    && ((forall i :: 0 <= i < |before.stages| ==> before.stages[i].id != id) ==> after == before)
    && (forall k :: 0 <= k < |before.stages| && before.stages[k].id == id && (forall i :: 0 <= i < k ==> before.stages[i].id != id) ==>
          after == before.(stages := before.stages[k := before.stages[k].(status := status)], updatedAt := now))
  }

  ghost predicate EachStageSet(before: map<string, Job>, after: map<string, Job>, id: string, status: StageStatus, now: int) {
    after.Keys == before.Keys && forall j :: j in before ==> OneStageSet(before[j], after[j], id, status, now)
  }

  lemma StagedAllSets(jobs: map<string, Job>, id: string, status: StageStatus, now: int)
    ensures EachStageSet(jobs, StagedAll(jobs, id, status, now), id, status, now)
  {
    forall j, k | j in jobs && 0 <= k < |jobs[j].stages| && jobs[j].stages[k].id == id
                  && (forall i :: 0 <= i < k ==> jobs[j].stages[i].id != id)
      ensures SetStage(jobs[j].stages, id, status) == jobs[j].stages[k := jobs[j].stages[k].(status := status)]
    {
      SetStageFirst(jobs[j].stages, id, status, k);
    }
  }

  class Store {
    const docs: Docs
    var db: Db
    var writer: Writer?
    var walEnabled: bool
    var replaying: bool
    ghost var ops: seq<Op>

    /** The objects of the log. */
    ghost function Log(): set<object>
      reads `writer, writer
    {
      if writer == null then {} else {writer, writer.dir}
    }

    /** The log holds the entries of `ops`. */
    ghost predicate Valid()
      reads `writer, `ops, writer, Log()
    {
      writer != null ==> writer.Valid() && Logs(docs, Flatten(writer.content), ops)
    }

    predicate Logging()
      reads `walEnabled, `writer, `replaying
    {
      walEnabled && writer != null && !replaying
    }

    ghost predicate Room()
      reads `writer, writer
    {
      writer != null ==> writer.entrySeq < 0xFFFF_FFFF_FFFF_FFFF
    }

    constructor (docs: Docs)
      ensures Valid() && db == EmptyDb && !Logging() && !replaying && this.docs == docs
    {
      this.docs := docs;
      db := EmptyDb;
      writer, walEnabled, replaying := null, false, false;
    }

    method EnableWAL(w: Writer)
      requires Valid() && w.Valid() && Flatten(w.content) == []
      modifies this
      ensures Valid() && writer == w && walEnabled && db == old(db) && replaying == old(replaying) && ops == []
    {
      writer := w;
      walEnabled := true;
      ops := [];
    }

    method SetReplaying(b: bool)
      requires Valid()
      modifies this`replaying
      ensures Valid() && replaying == b
    {
      replaying := b;
    }

    /** `op` was carried out at `now`: it failed and changed nothing, or its effect is in
        the buckets and, when logging, its entry is the one new entry of the log. */
    twostate predicate Did(op: Op, now: int, ok: bool)
      reads this, writer, Log()
    {
      && writer == old(writer) && walEnabled == old(walEnabled) && replaying == old(replaying)
      && ok == Apply(old(db), op, now).Some?
      && db == (if ok then Apply(old(db), op, now).value else old(db))
      && Recorded(op, ok && old(Logging()))
    }

    /** The log has grown by `op`, or is as it was. */
    twostate predicate Recorded(op: Op, written: bool)
      reads this, writer, Log()
    {
      if written then
        && ops == old(ops) + [op] && writer != null && old(writer) == writer
        && Appended(docs, op, |ops|, old(writer.content), old(writer.dir.files.Keys), writer.content, writer.dir.files.Keys)
      else
        && ops == old(ops) && writer == old(writer)
        && (writer != null ==> writer.content == old(writer.content) && writer.dir.files == old(writer.dir.files))
    }

    method WalWrite(op: Op, now: int64)
      requires Valid() && Room()
      modifies this`ops, Log()
      ensures Valid()
      ensures Recorded(op, old(Logging()))
    {
      if !walEnabled || writer == null || replaying {
        return;
      }
      var typ := if IsDelete(KindOf(op)) then ENTRY_DELETE else ENTRY_DATA;
      var key := Bytes(KeyName(KindOf(op)));
      ghost var es := Flatten(writer.content);
      var seqNo := writer.Write(typ, key, docs.write(op), now);
      LogsGrow(docs, es, ops, Flatten(writer.content), op);
      ops := ops + [op];
    }

    method SaveNode(n: Node, now: int64) returns (ok: bool)
      requires Valid() && Room()
      modifies this, Log()
      ensures Valid() && Did(Op.SaveNode(n), now, ok)
      ensures ok && db == old(db).(nodes := old(db).nodes[n.id := n])
    {
      db := db.(nodes := db.nodes[n.id := n]);
      WalWrite(Op.SaveNode(n), now);
      ok := true;
    }

    method DeleteNode(id: string, now: int64) returns (ok: bool)
      requires Valid() && Room()
      modifies this, Log()
      ensures Valid() && Did(Op.DeleteNode(id), now, ok)
      ensures ok && db == old(db).(nodes := old(db).nodes - {id})
    {
      db := db.(nodes := db.nodes - {id});
      WalWrite(Op.DeleteNode(id), now);
      ok := true;
    }

    method SaveJob(j: Job, now: int64) returns (ok: bool)
      requires Valid() && Room()
      modifies this, Log()
      ensures Valid() && Did(Op.SaveJob(j), now, ok)
      ensures ok && db == old(db).(jobs := old(db).jobs[j.id := j])
    {
      db := db.(jobs := db.jobs[j.id := j]);
      WalWrite(Op.SaveJob(j), now);
      ok := true;
    }

    method DeleteJob(id: string, now: int64) returns (ok: bool)
      requires Valid() && Room()
      modifies this, Log()
      ensures Valid() && Did(Op.DeleteJob(id), now, ok)
      ensures ok && db == old(db).(jobs := old(db).jobs - {id}, units := db.units)
      ensures forall u :: u in db.units <==> u in old(db).units && old(db).units[u].jobID != id
      ensures forall u :: u in db.units ==> db.units[u] == old(db).units[u]
    {
      var kept := UnitsOfOthers(db.units, id);
      db := db.(units := kept, jobs := db.jobs - {id});
      WalWrite(Op.DeleteJob(id), now);
      ok := true;
    }

    method UpdateJobStatus(id: string, status: JobStatus, now: int64) returns (ok: bool)
      requires Valid() && Room()
      modifies this, Log()
      ensures Valid() && Did(Op.UpdateJobStatus(id, status), now, ok)
      ensures ok <==> id in old(db).jobs
      ensures !ok ==> db == old(db)
      ensures ok ==> id in db.jobs && db == old(db).(jobs := old(db).jobs[id := db.jobs[id]])
      ensures ok ==> db.jobs[id] == old(db).jobs[id].(status := status, updatedAt := now,
        completedAt := if status in {JobCompleted, JobFailed, JobCancelled} then now else old(db).jobs[id].completedAt)
    {
      if id !in db.jobs {
        return false;
      }
      var j := db.jobs[id].(status := status, updatedAt := now);
      if status == JobCompleted || status == JobFailed || status == JobCancelled {
        j := j.(completedAt := now);
      }
      db := db.(jobs := db.jobs[id := j]);
      WalWrite(Op.UpdateJobStatus(id, status), now);
      ok := true;
    }

    method SaveUnit(u: Unit, now: int64) returns (ok: bool)
      requires Valid() && Room()
      modifies this, Log()
      ensures Valid() && Did(Op.SaveUnit(u), now, ok)
      ensures ok && db == old(db).(units := old(db).units[u.id := u])
    {
      db := db.(units := db.units[u.id := u]);
      WalWrite(Op.SaveUnit(u), now);
      ok := true;
    }

    /** Logged as the saved record, so that a replay takes its times from the primary. */
    method UpdateUnitStatus(id: string, status: UnitStatus, exitCode: int, errorMessage: string, now: int64)
      returns (u: Option<Unit>)
      requires Valid() && Room() && (id in db.units ==> db.units[id].id == id)
      modifies this, Log()
      ensures Valid() && u.Some? == (id in old(db).units)
      ensures u.Some? ==> u.value == UnitWith(old(db).units[id], status, exitCode, errorMessage, now)
      ensures u.Some? ==> Did(Op.SaveUnit(u.value), now, true)
      ensures u.None? ==> unchanged(this)
      ensures u.Some? ==> db == old(db).(units := old(db).units[id := u.value]) && u.value == old(db).units[id].(
        status := status, exitCode := exitCode, errorMessage := errorMessage,
        startedAt := if status == Running && old(db).units[id].startedAt == 0 then now else old(db).units[id].startedAt,
        completedAt := if status in {UnitStatus.Completed, UnitStatus.Failed, Cancelled} then now else old(db).units[id].completedAt)
    {
      if id !in db.units {
        return None;
      }
      var unit := db.units[id].(status := status, exitCode := exitCode, errorMessage := errorMessage);
      if status == Running && unit.startedAt == 0 {
        unit := unit.(startedAt := now);
      }
      if status == UnitStatus.Completed || status == UnitStatus.Failed || status == Cancelled {
        unit := unit.(completedAt := now);
      }
      db := db.(units := db.units[id := unit]);
      WalWrite(Op.SaveUnit(unit), now);
      u := Some(unit);
    }

    method UpdateStageStatus(id: string, status: StageStatus, now: int64) returns (ok: bool)
      requires Valid() && Room()
      modifies this, Log()
      ensures Valid() && Did(Op.UpdateStageStatus(id, status), now, ok)
      ensures ok && db == old(db).(jobs := db.jobs) && EachStageSet(old(db).jobs, db.jobs, id, status, now)
    {
      StagedAllSets(db.jobs, id, status, now);
      var jobs := StageInAll(db.jobs, id, status, now);
      db := db.(jobs := jobs);
      WalWrite(Op.UpdateStageStatus(id, status), now);
      ok := true;
    }

    method SaveTrustEdge(e: TrustEdge, now: int64) returns (ok: bool)
      requires Valid() && Room()
      modifies this, Log()
      ensures Valid() && Did(Op.SaveTrustEdge(e), now, ok)
      ensures ok && db == old(db).(trust := old(db).trust[e.from + ":" + e.to := e])
    {
      db := db.(trust := db.trust[EdgeKey(e.from, e.to) := e]);
      WalWrite(Op.SaveTrustEdge(e), now);
      ok := true;
    }

    method DeleteTrustEdge(from: string, to: string, now: int64) returns (ok: bool)
      requires Valid() && Room()
      modifies this, Log()
      ensures Valid() && Did(Op.DeleteTrustEdge(from, to), now, ok)
      ensures ok && db == old(db).(trust := old(db).trust - {from + ":" + to})
    {
      db := db.(trust := db.trust - {EdgeKey(from, to)});
      WalWrite(Op.DeleteTrustEdge(from, to), now);
      ok := true;
    }

    method SaveIPAllocation(nodeID: string, ip: string, now: int64) returns (ok: bool)
      requires Valid() && Room()
      modifies this, Log()
      ensures Valid() && Did(Op.SaveIPAllocation(nodeID, ip), now, ok)
      ensures ok && db == old(db).(ipam := old(db).ipam[nodeID := ip])
    {
      db := db.(ipam := db.ipam[nodeID := ip]);
      WalWrite(Op.SaveIPAllocation(nodeID, ip), now);
      ok := true;
    }

    method DeleteIPAllocation(nodeID: string, now: int64) returns (ok: bool)
      requires Valid() && Room()
      modifies this, Log()
      ensures Valid() && Did(Op.DeleteIPAllocation(nodeID), now, ok)
      ensures ok && db == old(db).(ipam := old(db).ipam - {nodeID})
    {
      db := db.(ipam := db.ipam - {nodeID});
      WalWrite(Op.DeleteIPAllocation(nodeID), now);
      ok := true;
    }

    method SaveInviteCode(c: InviteCode, now: int64) returns (ok: bool)
      requires Valid() && Room()
      modifies this, Log()
      ensures Valid() && Did(Op.SaveInviteCode(c), now, ok)
      ensures ok && db == old(db).(invites := old(db).invites[c.code := c])
    {
      db := db.(invites := db.invites[c.code := c]);
      WalWrite(Op.SaveInviteCode(c), now);
      ok := true;
    }

    method DeleteInviteCode(code: string, now: int64) returns (ok: bool)
      requires Valid() && Room()
      modifies this, Log()
      ensures Valid() && Did(Op.DeleteInviteCode(code), now, ok)
      ensures ok && db == old(db).(invites := old(db).invites - {code})
    {
      db := db.(invites := db.invites - {code});
      WalWrite(Op.DeleteInviteCode(code), now);
      ok := true;
    }

    method LastSequence() returns (n: nat)
      requires Valid()
      ensures n == if writer == null then 0 else |ops|
    {
      n := if writer == null then 0 else writer.entrySeq;
    }

    /** The log can be read back: it was written by this store, in a format that keeps its
        laws, to fewer files than their names can order. */
    ghost predicate Readable()
      reads this, writer, Log()
    {
      && Valid() && AllShort(docs, ops)
      && writer != null && Lawful(writer.codec) && writer.sequence < FileNames.FIRST_LONG_NAME
    }

    /** The entries in the files that are still there. */
    ghost function LogEntries(): seq<Entry>
      requires writer != null
      reads `writer, writer, Log()
    {
      Surviving(writer.dir.files.Keys, writer.content)
    }

    /** The entries from number `from` on that are in the files still there. */
    method ReadWALFrom(from: nat) returns (es: seq<Entry>)
      requires Readable()
      ensures es == AtLeast(LogEntries(), from)
    {
      var reader := new Reader(writer.dir, writer.codec);
      LogFits(docs, Flatten(writer.content), ops);
      LogReadsBack(writer.codec, writer.dir.files, writer.content, reader.files);
      var r := reader.ReadFrom(from);
      es := r.es;
    }
  }

  lemma LogFits(docs: Docs, es: seq<Entry>, ops: seq<Op>)
    requires Logs(docs, es, ops)
    ensures AllFit(es) <==> AllShort(docs, ops)
  {
    forall i | 0 <= i < |es|
      ensures Fits(es[i]) <==> Short(docs, ops[i])
    {
      RecordFits(docs, es[i], ops[i]);
    }
    if AllFit(es) {
      forall op | op in ops
        ensures Short(docs, op)
      {
        var i :| 0 <= i < |ops| && ops[i] == op;
        assert es[i] in es;
      }
    }
  }

  /** The ForEach of DeleteJob. */
  method UnitsOfOthers(units: map<string, Unit>, jobID: string) returns (kept: map<string, Unit>)
    ensures kept == map u | u in units && units[u].jobID != jobID :: units[u]
  {
    kept := units;
    var rest := units.Keys;
    while rest != {}
      invariant rest <= units.Keys && kept.Keys <= units.Keys
      invariant forall u :: u in units ==> (u in kept <==> u in rest || units[u].jobID != jobID)
      invariant forall u :: u in kept ==> kept[u] == units[u]
      decreases rest
    {
      var u :| u in rest;
      rest := rest - {u};
      if units[u].jobID == jobID {
        kept := kept - {u};
      }
    }
  }

  /** The ForEach of UpdateStageStatus. */
  method StageInAll(jobs: map<string, Job>, id: string, status: StageStatus, now: int) returns (r: map<string, Job>)
    ensures r == map j | j in jobs :: WithStage(jobs[j], id, status, now)
  {
    r := jobs;
    var rest := jobs.Keys;
    while rest != {}
      invariant rest <= jobs.Keys && r.Keys == jobs.Keys
      invariant forall j :: j in jobs ==> r[j] == if j in rest then jobs[j] else WithStage(jobs[j], id, status, now)
      decreases rest
    {
      var j :| j in rest;
      rest := rest - {j};
      var staged := UpdateStage(jobs[j], id, status, now);
      r := r[j := staged];
    }
  }

  method UpdateStage(job: Job, id: string, status: StageStatus, now: int) returns (j: Job)
    ensures j == WithStage(job, id, status, now)
  {
    for i := 0 to |job.stages|
      invariant forall k :: 0 <= k < i ==> job.stages[k].id != id
    {
      if job.stages[i].id == id {
        SetStageFirst(job.stages, id, status, i);
        return job.(stages := job.stages[i := job.stages[i].(status := status)], updatedAt := now);
      }
    }
    j := job;
  }

  lemma {:induction false} SetStageFirst(stages: seq<Stage>, id: string, status: StageStatus, i: nat)
    requires i < |stages| && stages[i].id == id && forall k :: 0 <= k < i ==> stages[k].id != id
    ensures SetStage(stages, id, status) == stages[i := stages[i].(status := status)]
    decreases i
  {
    if i > 0 { SetStageFirst(stages[1..], id, status, i - 1); }
  }
}
