# computing-power: verified models

This project models the parts of the distributed scheduler that are hardest to get right,
and proves what they are for. It has four subjects.

**Replicated store.** Every mutation is applied to the store and appended to a rotating
binary log with a checksum per entry. A standby pulls the entries after its last one,
replays them and reports how far it is; a checkpointer deletes log files that all
acknowledgements cover. `Crc32`, `CrcPolynomial`, `WalCodec`, `FileNames` and `WalLog` are
the log from the shift register up to whole directories; `Model` and `Store` are the records, the 13 logged
operations and the store; `Replication` is the protocol as a state machine (mutate, pull,
send, replay, drop, checkpoint, health tick), and `LateStandby` a run of it; `Sync` and
`StandbyNode` are the code on the two sides, tied to that machine.

**Workflow scheduling.** Jobs hold a graph of stages, stages hold units. `Topo` is the
topological sort, `Cascade` and `Propagation` are what a report means for stages and jobs,
`Server` holds the handlers, `NodeFilter`, `Cycle`, `Dag` and `Engine` the scheduling
cycle and the pull, and `WorkflowRuns` and `SchedulerRuns` put all handlers together into
runs and prove what holds in every one of them. `Placement` and `Outcomes` say again, of
nodes, jobs, stages and units alone, where a pull or a cycle may put a unit and what each
handler leaves behind, and prove that the handlers do just that. A handler is one atomic step. Server and
Engine share one `Buckets` object, which is the store without its log; each of its methods
has the effect of one logged operation.

**Trust.** `TrustGraph` is the doubly indexed, expiring edge relation with its budgeted
search. **Allocators.** `Gpu`, `Ipam` and `RangeSplit` are shares of GPU memory, overlay
addresses and the splitting of int64 ranges.

`Graph`, `Lists`, `Powers` and `Runs` are shared: paths, cycles and searches, lists kept by
a test, powers of two, and induction over runs. `dafny verify dfyconfig.toml` checks everything.

## How to read the claims

Objects whose methods update fields are classes; each loop of the source is a loop proved
against a specification function or predicate, and the main results are lemmas about those.
Iteration over a Go map is a choice of any remaining key, so results hold for every order.
JSON is a pair of functions; the operations of a run are those whose document reads back and
is below 2^32 bytes, and `Store.FaithfulDocsExist` gives such functions for any 2^32
operations. One clock value is read per call. Log files are keyed by their number, which `FileNames` relates to names and their byte order.
The log layer takes the entry format as a parameter with two laws; `WalLog.WalIsLawful`
shows that the real one has them. Job times that a replay sets from its own clock are left
out of the equality of stores.

The scheduler's runs take generated identifiers as new: a submitted job's stage identifiers
differ from each other and from all stored ones. Everything about order additionally needs
well-behaved agents, because a report is not compared with the unit's old status: they
report only on units that are Assigned or Running, never Retrying or no status, and no
stage is submitted as Completed. Claims without these hypotheses do not carry them, and
`SchedulerRuns.StaleReportBreaksOrder` shows what one stale report does to every such state,
and `StaleRun` reaches one. Node scores, trust and fitting may be different in every step
of a run.

## Where the code does less than its comments say

- The decoder's bounds checks stop four bytes short of two reads (`pkg/wal/wal.go:195`,
  `:204`), so a torn tail does not always end the file quietly as the comment at line 266
  intends: for some cuts, such as losing the last byte, the reader panics.
  `WalCodec.TornEntry` and `WalLog.TornFile` say for every cut which it is.
- A standby that first pulls after a cleanup does not notice that entries are gone, and
  standbys share one hard-coded name; `LateStandby.LateStandbyDiverges` is a run.
  `Replication.FollowsWithoutGaps` is the exact condition, and `Replication.GapShowsFirst` how
  the standby could test it: by the first number it receives. The comment on the standby says
  that its own log is not enabled, while `scheduler/cmd/scheduler/main.go` enables it; the
  model allows both, since a replaying store does not log.
- A stage whose units include one reported as Retrying is judged Completed
  (`Propagation.CompletedExactly`).
- The push pipeline and the pull test differ on nodes without reported resources and on block
  lists against unregistered owners (`NodeFilter.PushPullAgree`).
- The depth of the trust search counts expanded nodes, not levels
  (`TrustGraph.TrustGraph.IsReachable`).
- The first overlay address is not checked against the network (`Ipam.StartInside`).
- Releasing GPU shares after negative requests unbalances the books (`Gpu.ReleaseConserves`).
- Splitting a range wraps for widths from 2^63 on, and below the least int64
  (`RangeSplit.SplitExactly`).

## Model

| member | source | states |
|---|---|---|
| Crc32.FeedByte | pkg/wal/wal.go:343-352 | One pass of the shift loop is eight steps of the bitwise register |
| Crc32.Compute | pkg/wal/wal.go:341-354 | The table-free loop over an array computes the checksum of the bytes: generator of IEEE 802.3 clause 3.2.9, unreflected, initial value and result inverted |
| Crc32.BurstDetected | pkg/wal/wal.go:341-354 | Byte strings that differ only within four consecutive bytes have different checksums, because every step is injective on the 32-bit register |
| Crc32.ChecksumBits | pkg/wal/wal.go:341-354 | The checksum is the inverted register, and below 2^32 |
| Crc32.Residue | pkg/wal/wal.go:341-354 | Every string followed by its own checksum drives the register to one constant, so damage that spans the checksum can be judged as well |
| Crc32.RunBurst | pkg/wal/wal.go:341-354 | Two strings that reach the same register and differ only within four consecutive bytes are equal |
| CrcPolynomial.GeneratorValue | pkg/wal/wal.go:347-347 | The generator is 0x04C11DB7 |
| CrcPolynomial.ShiftIs | pkg/wal/wal.go:345-350 | The bitwise register does what the loop body does on a 32-bit integer |
| CrcPolynomial.CheckValue | pkg/wal/wal.go:341-354 | The checksum of the digits 1 to 9 in ASCII is 0xFC891918 |
| CrcPolynomial.TwoBytesDetected | pkg/wal/wal.go:341-354 | Whatever happens to two bytes up to eight apart, exchanging them included, the checksum changes |
| WalCodec.Marshal | pkg/wal/wal.go:138-172 | The buffer filled through a moving offset is the entry's encoding |
| WalCodec.Unmarshal | pkg/wal/wal.go:175-223 | The decoder's branches, including the two places where it reads past the end and panics |
| WalCodec.Layout | pkg/wal/wal.go:138-172 | What stands where in an encoded entry, each number read from its bytes from the left, and that the last four bytes are the checksum of all before them |
| WalCodec.RoundTrip | pkg/wal/wal.go:138-223 | Decoding an encoding followed by any bytes gives the entry back if and only if the key is below 2^16 and the data below 2^32 bytes |
| WalCodec.FitsRoundTrip | pkg/wal/wal.go:138-223 | The same as a usable implication |
| WalCodec.TornEntry | pkg/wal/wal.go:175-223 | No proper prefix of an encoding decodes; which cuts are rejected and which make the decoder panic, for every cut |
| WalCodec.DamageRejected | pkg/wal/wal.go:212-220 | Any change to at most four consecutive bytes outside the two length fields is rejected, the stored checksum included |
| WalCodec.SealedBurst | pkg/wal/wal.go:212-220 | Two strings that both end in their own checksum and differ within four consecutive bytes are equal |
| FileNames.SortsNumerically | pkg/wal/wal.go:116-116 | Byte order on the zero-padded names is writing order for n files if and only if n is below 1,000,000 |
| FileNames.LongNameOvertakes | pkg/wal/wal.go:246-246 | The first seven-digit name sorts before the last six-digit one |
| FileNames.FileSeqOfName | scheduler/internal/server/sync.go:252-256 | The number parsed back from a file name is the one it was made from |
| FileNames.FirstName | pkg/wal/wal.go:116-116 | The first file is wal-000001.log |
| FileNames.Sorted | pkg/wal/wal.go:246-246 | Sorting the distinct names of a directory: the same names, in byte order |
| WalLog.WalIsLawful | pkg/wal/wal.go:138-223 | The entry format has the round trip and the torn-tail behaviour that the log layer relies on |
| WalLog.ReadPast | pkg/wal/wal.go:255-276 | Whole entries are read back in order and reading goes on behind them |
| WalLog.TornFile | pkg/wal/wal.go:255-276 | Cutting a log file anywhere leaves exactly the whole entries before the cut, unless the cut is one at which the decoder panics |
| WalLog.TornEntryCrashes | pkg/wal/wal.go:195-216 | A torn append at such a cut takes the reader down |
| WalLog.LastByteCrashes | pkg/wal/wal.go:204-216 | Losing the last byte of any entry with a key or data is such a cut |
| WalLog.Writer.Write | pkg/wal/wal.go:61-83 | One write appends exactly one entry with the next sequence number, to a new file exactly when the current one has reached the size limit |
| WalLog.Writer.OpenNewFile | pkg/wal/wal.go:106-124 | Rotation adds an empty file and changes no other |
| WalLog.Writer.AppendToFile | pkg/wal/wal.go:69-82 | The entry's bytes go behind those already in the active file |
| WalLog.DecodeFile | pkg/wal/wal.go:262-274 | The offset loop over one file stops at the first entry that does not decode |
| WalLog.Reader.ReadAll | pkg/wal/wal.go:255-276 | Concatenates what the files hold, in listing order |
| WalLog.Reader.ReadFrom | pkg/wal/wal.go:279-294 | Keeps the entries numbered at least `seq`, in order |
| WalLog.ScanFile | pkg/wal/wal.go:310-327 | The least and greatest sequence number of one file |
| WalLog.Reader.FileRanges | pkg/wal/wal.go:305-333 | One range per file that holds an entry, with the true bounds |
| WalLog.LogReadsBack | pkg/wal/wal.go:232-276 | Listing, sorting, concatenating and decoding a writer's directory gives exactly the entries of the files still there, in order |
| WalLog.WholeLogReadsBack | pkg/wal/wal.go:232-276 | With no file removed these are all n entries, numbered 1 to n, for any rotation size and fewer than 1,000,000 files |
| WalLog.FilesDisjoint | pkg/wal/wal.go:305-333 | Later files hold only greater sequence numbers |
| WalLog.FileIsInterval | pkg/wal/wal.go:305-333 | The entries of one file are a contiguous piece of the log |
| Model.ApplyIgnoresClocks | scheduler/internal/store/store.go:258-284 | Stores that agree up to the two replayed clocks still do after the same operation, which succeeds on both or on neither |
| Model.SameDataIs | scheduler/internal/store/store.go:258-284 | Agreeing up to the clocks means equal in all but the update and completion times of jobs |
| Store.KeyRoundTrip | scheduler/internal/server/standby.go:259-352 | The 13 operation names decode to the operation they were written for |
| Store.LoggedAs | scheduler/internal/store/store.go:125-667 | The name and the entry type under which each operation is logged |
| Store.ReplayRecorded | scheduler/internal/server/standby.go:259-352 | Replaying the entry of an operation whose document reads back does to any store what the operation does |
| Store.RecordFits | scheduler/internal/store/store.go:106-115 | The entry the store writes for an operation fits the format if and only if its document is below 2^32 bytes |
| Store.LogFits | scheduler/internal/store/store.go:106-115 | All entries of the log fit the format if and only if all documents are below 2^32 bytes |
| Store.Store.WalWrite | scheduler/internal/store/store.go:108-115 | Appends the operation exactly when a log is enabled and no replay is going on |
| Store.Store.SaveNode | scheduler/internal/store/store.go:125-143 | Stores the node and logs exactly that operation |
| Store.Store.DeleteNode | scheduler/internal/store/store.go:180-196 | Deletes the node and logs it |
| Store.Store.SaveJob | scheduler/internal/store/store.go:201-219 | Stores the job and logs it |
| Store.Store.DeleteJob | scheduler/internal/store/store.go:462-496 | Deletes the job and exactly its units, and logs one entry |
| Store.Store.UpdateJobStatus | scheduler/internal/store/store.go:258-284 | Fails without effect for a missing job; otherwise sets status and times and logs it |
| Store.Store.SaveUnit | scheduler/internal/store/store.go:289-302 | Stores the unit and logs it |
| Store.Store.UpdateStageStatus | scheduler/internal/store/store.go:433-459 | Sets the first stage of that identifier in every job and logs it |
| Store.Store.SaveTrustEdge | scheduler/internal/store/store.go:519-532 | Stores the edge and logs it |
| Store.Store.DeleteTrustEdge | scheduler/internal/store/store.go:535-543 | Deletes the edge and logs it |
| Store.Store.SaveIPAllocation | scheduler/internal/store/store.go:564-572 | Stores the address and logs it |
| Store.Store.DeleteIPAllocation | scheduler/internal/store/store.go:588-596 | Deletes the address and logs it |
| Store.Store.SaveInviteCode | scheduler/internal/store/store.go:625-638 | Stores the code and logs it |
| Store.Store.DeleteInviteCode | scheduler/internal/store/store.go:659-667 | Deletes the code and logs it |
| Store.Store.UpdateUnitStatus | scheduler/internal/store/store.go:395-430 | Sets status, exit code, message and times of the unit, and logs the saved unit so that a replay takes its times from the primary |
| Store.Store.ReadWALFrom | scheduler/internal/store/store.go:97-104 | Returns exactly the entries from that number on that are in files still there |
| Store.Store.LastSequence | scheduler/internal/store/store.go:89-94 | The number of operations logged so far |
| Replication.FailoverConsistent | scheduler/internal/server/standby.go:103-232 | With one standby, in every state of every run (streams dropping and replays failing anywhere, cleanups at any time), the standby's store is the primary's as it stood after mutation lastSyncSeq, every later entry is in a surviving file, and no ack is ahead of what was replayed; promotion included |
| Replication.ReplaySucceeds | scheduler/internal/server/standby.go:259-352 | A replay of a logged entry never fails on an in-step standby, and takes it exactly one operation further |
| Replication.ReplayAdvances | scheduler/internal/server/standby.go:259-352 | Replaying the next entry on a store n operations along succeeds and gives n + 1 |
| Replication.ReadIsExact | scheduler/internal/store/store.go:97-104 | A read from n returns exactly the entries after the n-th if and only if no removed file held one of them |
| Replication.CheckpointKeepsExactly | scheduler/internal/server/sync.go:189-249 | A cleanup leaves a standby in step if and only if it removes no file with an entry the standby has not replayed; a read from the standby's number shows which by how many entries it finds |
| Replication.RetainedByCount | scheduler/internal/store/store.go:97-104 | No entry above n is lost if and only if a read from n + 1 finds as many entries as the primary has above n |
| Replication.RetainedByFirst | scheduler/internal/store/store.go:97-104 | After whole cleanup passes: if and only if nothing is above n or the first entry the read finds is number n + 1 |
| Replication.SendContinuesExactly | scheduler/internal/server/sync.go:74-115 | What is sent continues the log if and only if it is as many entries as the primary has beyond the last number sent |
| Replication.FollowsWithoutGaps | scheduler/internal/server/standby.go:126-174 | With any standbys under any names and any cleanups, a standby's store is the primary's as of lastSyncSeq, and what it is being sent continues from there, in all states of a run if and only if nothing sent to it has a gap |
| Replication.GapShowsFirst | scheduler/internal/server/standby.go:146-168 | In runs whose cleanups are whole passes, a gap shows to the standby by the first number it receives, which the source does not look at |
| Replication.LevelHasData | scheduler/internal/server/standby.go:126-174 | A standby that follows and is level with the primary has the primary's data |
| Replication.StepKeepsPrefix | scheduler/internal/server/sync.go:218-232 | Whole cleanup passes remove the files with entries from the front |
| Replication.CallIsMutate | scheduler/internal/store/store.go:106-115 | Every successful mutator call on a logging store is one mutation step of the protocol, and a failed one changes nothing |
| Replication.FreshLogIsInit | scheduler/internal/store/store.go:83-86 | A store whose log has just been enabled is an initial state of the protocol |
| Replication.StepKeepsAcked | scheduler/internal/server/sync.go:59-123 | An acknowledged standby in step stays in step whatever step follows |
| Replication.AckedStaysInStep | scheduler/internal/server/sync.go:189-249 | With any number of standbys under distinct names, one that was in step when acknowledged stays so for the rest of the run |
| Replication.RunInvariant | scheduler/internal/server/sync.go:43-66 | Acks never run ahead and the log matches the operations, in every run |
| LateStandby.LateStandbyDiverges | scheduler/internal/server/standby.go:137-137 | A concrete run in which a standby whose first pull comes after a cleanup, under its own or a shared name, reaches the primary's last number without the primary's data |
| Sync.StreamExact | scheduler/internal/server/sync.go:59-123 | The responses are exactly the entries after LastSequence, in order and once each, at most 100 in each, all of them delivered by the first response without More |
| Sync.SyncService.SyncWAL | scheduler/internal/server/sync.go:59-123 | Records the ack exactly for a positive sequence, sends those responses, and reads the log at most twice |
| Sync.StreamLog | scheduler/internal/server/sync.go:68-122 | The loop of SyncWAL over a log that is fixed during the call |
| Sync.SendBatches | scheduler/internal/server/sync.go:88-115 | The batching loop and the greatest sequence sent |
| Sync.SyncService.MinStandbyAck | scheduler/internal/server/sync.go:43-56 | The true minimum of the recorded acks, 0 exactly when there are none |
| Sync.Checkpointer.ListRanges | scheduler/internal/server/sync.go:204-222 | The ranges found on disk select exactly the covered files |
| Sync.Checkpointer.Cleanup | scheduler/internal/server/sync.go:189-249 | Removes exactly the files that are not active, hold an entry and hold none above the ack, and leaves the others as they are |
| Sync.SelectedIsCovered | scheduler/internal/server/sync.go:218-232 | A file is selected for removal if and only if all of its entries are at or below the ack |
| StandbyNode.Replay | scheduler/internal/server/standby.go:259-352 | The switch over entry names makes one store call, which is not logged again |
| StandbyNode.Standby.ReplayEntries | scheduler/internal/server/standby.go:143-165 | Replays up to the first failure and moves lastSyncSeq with every success |
| StandbyNode.Standby.SyncOnce | scheduler/internal/server/standby.go:103-174 | One round: nothing changes when active, or with something replayed when the primary does not answer or has nothing newer; otherwise what is delivered is replayed up to the first failure, and replaying is switched off again on every way out |
| StandbyNode.Round | scheduler/internal/server/standby.go:103-174 | A round of an in-step standby that knows of nothing yet or hears of a newer number takes it exactly as many operations further as entries arrive, and level with the primary when the stream is not cut; without an answer or with nothing newer it stays |
| StandbyNode.Standby.constructor | scheduler/internal/server/standby.go:176-184 | The failure limit is the quotient of the two durations, or 3 if that is below 1 |
| StandbyNode.RoundAdvances | scheduler/internal/server/standby.go:103-174 | However far a round gets, it takes an in-step standby exactly as many operations further |
| StandbyNode.RoundCatchesUp | scheduler/internal/server/standby.go:103-174 | A round that is not cut short brings an in-step standby level with the primary |
| StandbyNode.RoundReceives | scheduler/internal/server/sync.go:59-123 | What such a round receives is exactly the rest of the log |
| StandbyNode.CleanupIsCheckpoint | scheduler/internal/server/sync.go:189-249 | The cleanup on disk removes what the protocol's checkpoint step may remove, no more and no less |
| StandbyNode.Standby.HealthTick | scheduler/internal/server/standby.go:185-214 | One health check counts failures or resets them, and promotes at the limit |
| StandbyNode.HealthLoop | scheduler/internal/server/standby.go:177-232 | Promotes after the first run of maxFailures failed checks in a row, and never otherwise |
| Topo.TopologicalSort | pkg/taskmodel/taskmodel.go:382-431 | Succeeds if and only if names are unique, dependencies exist and there is no cycle; the result is then the same stages, each after all it depends on, for any map order and with repeated dependencies |
| Topo.ValidateWorkflow | pkg/taskmodel/taskmodel.go:434-463 | Accepts exactly the jobs that are no workflow, or have stages that can be sorted |
| Topo.StuckMeansCycle | pkg/taskmodel/taskmodel.go:427-429 | Stages left over when the queue is empty contain a cycle |
| Topo.EdgeIsDependency | pkg/taskmodel/taskmodel.go:396-404 | The counted edges are the dependencies, with their multiplicity |
| Topo.Finish | pkg/taskmodel/taskmodel.go:418-424 | The inner loop of Kahn's algorithm: degrees keep counting the open edges, and the queue holds exactly the unfinished stages without one |
| Graph.CycleIn | pkg/taskmodel/taskmodel.go:427-429 | A set in which every node has a successor contains a cycle |
| Graph.OrderIsAcyclic | pkg/taskmodel/taskmodel.go:382-431 | A relation that respects an order has no cycle |
| Graph.SearchEnds | scheduler/internal/server/server.go:733-761 | A breadth-first search that has emptied its queue has visited exactly the reachable nodes |
| Cascade.FindStageByName | scheduler/internal/server/server.go:710-717 | The first stage of that name |
| Cascade.FindStageByID | scheduler/internal/server/server.go:700-707 | The first stage of that identifier |
| Cascade.SkipsExactly | scheduler/internal/server/server.go:721-762 | Exactly the unfinished stages that transitively depend on the failed one become Skipped, and none of their units is left Pending, Assigned or Running; every other stage is unchanged |
| Cascade.SkipStage | scheduler/internal/scheduler/dag.go:88-115 | One stage is marked in memory and in the store and its units cancelled; only its own job changes |
| Cascade.OnlyItsJob | scheduler/internal/store/store.go:433-459 | A stage update reaches only the job that owns the stage |
| Server.Server.BuildDownstream | scheduler/internal/server/server.go:723-731 | The map of direct dependents, by identifier |
| Server.Server.CancelDownstreamStages | scheduler/internal/server/server.go:721-762 | The queue-and-visited loop ends on any DependsOn, also a cyclic one, and does exactly the cascade |
| Server.Server.JudgeStage | scheduler/internal/server/server.go:783-813 | The flag loop gives the stage the verdict of its units |
| Server.Server.SettleStage | scheduler/internal/server/server.go:774-827 | The verdict is stored and, if it is Failed, the cascade runs on the judged stages |
| Server.Server.EndJob | scheduler/internal/server/server.go:830-847 | The job ends as soon as all its stages have, Failed exactly when one of them is and Completed otherwise; before that its status is left alone |
| Server.Server.PropagateUnitStatus | scheduler/internal/server/server.go:765-857 | The whole effect of a propagation on stages, units and job; of the stages it leaves, the job is Failed or Completed as they are once all have ended, and as before until then |
| Outcomes.PropagatedExactly | scheduler/internal/server/server.go:765-857 | The reported stage is Running while a unit of it is Pending, Assigned or Running, else Failed if one is Failed, Cancelled or Timeout, else Completed; other stages and units change only if it failed |
| Outcomes.CascadedExactly | scheduler/internal/server/server.go:721-762 | The cascade skips exactly the stages that need the failed one and are not Completed, Failed or Skipped, cancels exactly their Pending, Assigned and Running units, and does nothing else |
| Propagation.CompletedExactly | scheduler/internal/server/server.go:783-813 | A stage is judged Completed exactly when its units count as done; that differs from all-completed exactly when one is Retrying or has no status |
| Propagation.RetryingCompletes | scheduler/internal/server/server.go:783-813 | One unit reported as Retrying completes its stage |
| Server.Server.ReportUnitStatus | scheduler/internal/server/server.go:652-697 | What one report does: no look at the old status, a retry below the limit, else a propagation when the status changed |
| Outcomes.ReportedUnit | scheduler/internal/server/server.go:659-692 | A unit reported Failed with retries left is Pending on no node with one more retry counted; in any other case it has what was reported, its node, and the same count |
| Outcomes.ReportedOthers | scheduler/internal/server/server.go:659-692 | No report changes another unit's retry count, and it changes another unit only by cancelling it |
| Outcomes.ReportOnNone | scheduler/internal/server/server.go:659-663 | A report on an unknown unit does nothing |
| Server.Server.CancelJob | scheduler/internal/server/server.go:526-578 | Cancels exactly the job's waiting and active units, skips its stages that are neither Completed nor Failed, and ends the job |
| Outcomes.CancelExactly | scheduler/internal/server/server.go:526-578 | After a cancellation no unit of the job is Pending, Assigned or Running, stages neither Completed nor Failed are Skipped, and no other job or unit changes |
| Server.Server.ReclaimNodeUnits | scheduler/internal/server/server.go:331-350 | Fails exactly the units a node holds |
| Server.Server.UnregisterNode | scheduler/internal/server/server.go:303-327 | Reclaims the node's units and removes it from the registry and the store |
| Outcomes.UnregisterExactly | scheduler/internal/server/server.go:303-350 | The Assigned and Running units of the node fail and no other unit changes |
| Server.Server.SubmitJob | scheduler/internal/server/server.go:391-457 | Stores the units of all stages and then the job; on a split error the units of earlier stages stay behind and the job is not stored |
| Outcomes.SubmitExactly | scheduler/internal/server/server.go:391-457 | The new units are as many for each stage as it splits into, Pending, on no node and never tried |
| Handlers.UnitIDsDiffer | scheduler/internal/server/split.go:107-116 | Unit identifiers determine the stage and the index |
| Handlers.UnitIDIs | scheduler/internal/server/split.go:107-116 | The text of a unit identifier |
| StoreView.Buckets.UpdateUnitStatus | scheduler/internal/store/store.go:395-430 | Sets the unit's fields, which is what the logged operation SaveUnit of the result does |
| StoreView.Buckets.UpdateStageStatus | scheduler/internal/store/store.go:433-459 | Has the effect of the logged operation of that name |
| StoreView.Buckets.UpdateJobStatus | scheduler/internal/store/store.go:258-284 | Has the effect of the logged operation of that name |
| StoreView.Buckets.UpdateUnits | scheduler/internal/store/store.go:359-374 | The list-then-update loop rewrites exactly the selected units that pass the test |
| NodeFilter.Filter | scheduler/internal/scheduler/filter.go:15-22 | The five stages keep, in order, exactly the nodes that pass all five tests |
| NodeFilter.FilterOnline | scheduler/internal/scheduler/filter.go:25-36 | Keeps the Online and Busy nodes, in order |
| NodeFilter.FilterResources | scheduler/internal/scheduler/filter.go:39-50 | Keeps the nodes with reported resources that fit |
| NodeFilter.FilterCapabilities | scheduler/internal/scheduler/filter.go:53-64 | Keeps the nodes with all required capabilities |
| NodeFilter.HasAllCapabilities | scheduler/internal/scheduler/filter.go:69-87 | A node that reported no list counts as having every capability |
| NodeFilter.FilterTrust | scheduler/internal/scheduler/filter.go:90-105 | Keeps the nodes the owner reaches, and its own only when allowed |
| NodeFilter.FilterBlocklist | scheduler/internal/scheduler/filter.go:108-128 | Drops nodes that block the owner or that it blocks, if the owner is registered |
| NodeFilter.NodePassesFilter | scheduler/internal/scheduler/assigner.go:255-283 | The single test used by pulls |
| NodeFilter.PushPullAgree | scheduler/internal/scheduler/assigner.go:255-283 | The pipeline and the single test keep the same list if and only if no node that is otherwise fine has either no reported resources or an unregistered owner on its block list, but not both |
| NodeFilter.PushPullAgreeNormally | scheduler/internal/scheduler/filter.go:15-128 | They agree whenever resources are reported and the owner is empty or registered |
| Lists.RankPositive | scheduler/internal/scheduler/scorer.go:11-26 | Candidates with a positive score, best first, ties in any order |
| Engine.Engine.ListOnline | scheduler/internal/registry/registry.go:255-276 | Exactly the registered nodes that are Online or Busy |
| Engine.Engine.BestNode | scheduler/internal/scheduler/assigner.go:67-92 | A suitable node of the highest score, none exactly when no node suits |
| Engine.Engine.AssignUnit | scheduler/internal/scheduler/assigner.go:14-54 | Assigns the copy only if the stored unit is still Pending or Failed |
| Engine.Engine.AssignUnits | scheduler/internal/scheduler/assigner.go:57-95 | Every unit of the batch goes to a best suitable node if there is one, and no other unit changes |
| Engine.Engine.LoadRetryEligibleUnits | scheduler/internal/scheduler/assigner.go:98-124 | Exactly the Failed units below the retry limit whose delay has passed, reset in memory only |
| Engine.Engine.Survey | scheduler/internal/scheduler/dag.go:31-77 | Whatever the topological order: exactly the stages with a failed dependency are skipped, and exactly the units of unfinished stages with completed dependencies are collected |
| Engine.Engine.ScheduleWorkflow | scheduler/internal/scheduler/dag.go:23-84 | One workflow scheduled, and nothing at all when its stages cannot be sorted |
| Engine.Engine.ScheduleJob | scheduler/internal/scheduler/dag.go:12-20 | Workflows by stage, other jobs all at once |
| Engine.Engine.ListActiveUnits | scheduler/internal/scheduler/engine.go:241-251 | All Assigned and Running units, once each |
| Engine.Engine.ReclaimStaleUnits | scheduler/internal/scheduler/engine.go:215-238 | Fails exactly the active units whose node is not registered or Offline |
| Engine.Engine.ScheduleOnce | scheduler/internal/scheduler/engine.go:140-190 | A whole cycle, unit by unit and job by job, independent of the order of jobs and units: which units are reclaimed, cancelled, assigned to a best node or left alone |
| Engine.Engine.IsStageReady | scheduler/internal/scheduler/assigner.go:286-311 | All direct dependencies of the first stage with that identifier are Completed |
| Engine.Engine.AssignToNode | scheduler/internal/scheduler/assigner.go:195-252 | The pulling node gets a waiting unit that passes all tests and has the highest score above -1, and none exactly when there is no such unit |
| Placement.PulledExactly | scheduler/internal/scheduler/assigner.go:195-283 | Said of nodes, jobs and units alone: a pull gives the node a Pending unit of a job that goes on, whose stage has only completed dependencies, whose specification the node answers to and whose owner and node accept each other, with the highest score above -1; it gives nothing exactly when there is none |
| Placement.PulledNodeAnswers | scheduler/internal/scheduler/assigner.go:166-190 | The node's reported resources fit and its reported capabilities contain what the first stage with the unit's identifier asks for, or the job if there is no such stage, and "container" if the job runs an image |
| Placement.CycledExactly | scheduler/internal/scheduler/engine.go:140-190 | Said of nodes, jobs and units alone: what a cycle does to a unit no node holds, to which of the nodes that may get it goes, and when it stays |
| Placement.PushedNodeAnswers | scheduler/internal/scheduler/filter.go:39-87 | A node that a cycle gives a unit reports resources and answers to the specification of the unit's stage, or else of its job |
| Placement.HeldExactly | scheduler/internal/scheduler/engine.go:215-238 | A held unit stays unless its stage is hopeless; one whose node is gone or Offline fails |
| Placement.StagesCycledExactly | scheduler/internal/scheduler/dag.go:38-62 | A cycle changes exactly the unfinished stages of visited workflows with a Failed dependency, and skips them |
| Engine.CycledSame | scheduler/internal/scheduler/engine.go:140-190 | A cycle leaves every unit in its stage and job and its retry count as it was |
| WorkflowRuns.MovesKeepOrder | scheduler/internal/server/server.go:765-829 | Any moves in which stages complete only with all their units and units begin only in unlocked stages keep the order invariant |
| WorkflowRuns.ReportKeeps | scheduler/internal/server/server.go:652-697 | A report by an agent that holds the unit keeps the order invariant |
| WorkflowRuns.CycleKeeps | scheduler/internal/scheduler/engine.go:140-190 | A scheduling cycle keeps the order invariant |
| WorkflowRuns.PullKeeps | scheduler/internal/scheduler/assigner.go:195-252 | A pull keeps the order invariant |
| WorkflowRuns.CancelKeeps | scheduler/internal/server/server.go:526-578 | A cancellation keeps the order invariant |
| WorkflowRuns.UnregisterKeeps | scheduler/internal/server/server.go:303-350 | A node that leaves keeps the order invariant |
| WorkflowRuns.SubmitKeeps | scheduler/internal/server/server.go:391-457 | A submission with new identifiers and no completed stage keeps the order invariant |
| WorkflowRuns.RejectedKeeps | scheduler/internal/server/server.go:421-425 | So does one that fails halfway |
| WorkflowRuns.StepKeepsShape | scheduler/internal/server/server.go:391-697 | Identifiers, and the assignment of stages and units to jobs, survive every step, whatever is reported |
| SchedulerRuns.RequiredStagesComplete | scheduler/internal/scheduler/dag.go:63-77 | In every run with well-behaved agents, once a unit of a workflow is held or finished by a node, every stage that its stage needs, directly or through others, is Completed and all units of that stage are Completed |
| SchedulerRuns.StaleReportBreaksOrder | scheduler/internal/server/server.go:659-675 | The hypothesis is needed: from any ordered state, reporting a completed unit as Running again while a dependent stage has begun breaks the order |
| StaleRun.StaleRunBreaksOrder | scheduler/internal/server/server.go:659-675 | A run of five steps, for any two-stage workflow and any node: well-behaved up to the last step, which is a stale report and breaks the order |
| SchedulerRuns.AssignedInOrder | scheduler/internal/scheduler/assigner.go:195-311 | In every run, a cycle or a pull assigns a unit only while its job goes on and, in a workflow, all direct dependencies of its stage are Completed |
| SchedulerRuns.EndedStaysEnded | scheduler/internal/server/server.go:830-847 | A job that is Completed, Failed or Cancelled never leaves these statuses |
| SchedulerRuns.EndsAsItsStages | scheduler/internal/server/server.go:830-847 | In every run a job that a report ends is Failed exactly when one of its stages is at that step, and Completed otherwise, and all its stages have ended |
| SchedulerRuns.NeverAssignedAgain | scheduler/internal/scheduler/assigner.go:195-252 | Once a job has ended no cycle and no pull assigns a unit of it |
| SchedulerRuns.RetryBound | scheduler/internal/server/server.go:678-689 | No unit's retry count ever exceeds the limit |
| SchedulerRuns.CyclePlaces | scheduler/internal/scheduler/engine.go:140-238 | After a cycle every Assigned or Running unit sits on a registered node that is not Offline |
| TrustGraph.TrustGraph.AddEdge | pkg/trustgraph/graph.go:44-71 | Refuses self-trust, otherwise sets exactly one edge in both indexes |
| TrustGraph.TrustGraph.RemoveEdge | pkg/trustgraph/graph.go:74-91 | Removes exactly one edge from both indexes |
| TrustGraph.TrustGraph.HasTrust | pkg/trustgraph/graph.go:94-111 | Whether there is a live edge |
| TrustGraph.TrustGraph.GetTrustedNodes | pkg/trustgraph/graph.go:114-131 | Exactly the live targets, once each |
| TrustGraph.TrustGraph.GetTrustedBy | pkg/trustgraph/graph.go:134-151 | The reverse index finds exactly what a scan of the forward edges would |
| TrustGraph.TrustGraph.PruneEntry | pkg/trustgraph/graph.go:223-234 | The inner loop over one entry, deleting from both indexes while it runs |
| TrustGraph.TrustGraph.PruneExpired | pkg/trustgraph/graph.go:216-236 | Removes exactly the expired edges from both indexes and returns their number |
| TrustGraph.TrustGraph.Expand | pkg/trustgraph/graph.go:174-191 | The inner loop of the search: finds the goal exactly when it is a live neighbour, else queues the new live neighbours once each |
| TrustGraph.TrustGraph.IsReachable | pkg/trustgraph/graph.go:154-195 | Found means a live path of at most maxDepth edges; not found means no live path or at least maxDepth reachable nodes with entries; with fewer such nodes the answer is exact; a direct live edge is always found; the search ends |
| TrustGraph.HuntEnds | pkg/trustgraph/graph.go:170-194 | An emptied queue means unreachable, and the expanded nodes are reachable ones with entries |
| Gpu.HAMiManager.AllocateGPUs | agent/internal/container/hami.go:79-147 | Succeeds exactly when enough devices have room (memory less the total over containers), on those with the most room, granting each the memory once; otherwise changes no books; balanced books stay balanced for any request, and no device is overcommitted for non-negative ones |
| Gpu.PickedHaveRoom | agent/internal/container/hami.go:105-126 | Each picked device has at least the requested memory left, and at least as much as any other that has |
| Gpu.HAMiManager.Candidates | agent/internal/container/hami.go:105-120 | The devices with room, those with the most first |
| Gpu.HAMiManager.Grant | agent/internal/container/hami.go:126-142 | The loop that enters the grant in both books |
| Gpu.HAMiManager.ReleaseGPUs | agent/internal/container/hami.go:196-217 | Gives back what the container holds and nothing else, and keeps the invariant |
| Gpu.HAMiManager.AvailableGPUs | agent/internal/container/hami.go:241-275 | Reports memory less what is allocated, at least 0 |
| Gpu.ReleaseConserves | agent/internal/container/hami.go:196-217 | Releasing keeps the books balanced if and only if no device's remaining total is negative, so always when no request was |
| Gpu.NegativeRequestBreaks | agent/internal/container/hami.go:207-211 | With negative requests a release can lose memory: a concrete state |
| Gpu.ReleaseUndoes | agent/internal/container/hami.go:196-217 | Allocating for a new container and releasing it leaves every device and container as before |
| Gpu.GrantedConserves | agent/internal/container/hami.go:126-142 | A grant keeps allocated memory equal to the sum over containers on every device, for any request |
| Gpu.GrantedWithin | agent/internal/container/hami.go:106-116 | A non-negative grant on devices with room overcommits none |
| Ipam.NextIP | scheduler/internal/ipam/ipam.go:115-130 | The byte-carry loop is +1 modulo 2^32 |
| Ipam.DottedTells | scheduler/internal/ipam/ipam.go:81-86 | Different addresses have different dotted forms |
| Ipam.DottedReads | scheduler/internal/ipam/ipam.go:81-87 | Reading the dotted form from the left, field by field, gives the address back |
| Ipam.DottedIs | scheduler/internal/ipam/ipam.go:81-87 | The text of one address |
| Ipam.IPAM.NewIPAM | scheduler/internal/ipam/ipam.go:23-48 | Refuses exactly a gateway outside the network, whatever the store holds; the result is valid exactly when the stored addresses are sound |
| Ipam.IPAM.Allocate | scheduler/internal/ipam/ipam.go:52-95 | A node keeps its address; a new one is the least free address above the gateway and never the gateway; none only when all up to the end of the network are in use; addresses stay one-to-one, and in the network unless the gateway is its last address; the text handed out reads as the least number above the gateway that no record reads as |
| Ipam.IPAM.FirstFree | scheduler/internal/ipam/ipam.go:79-94 | The scan for the first free address ends, inside the network or at its start |
| Ipam.IPAM.Release | scheduler/internal/ipam/ipam.go:98-102 | Frees exactly the node's address; the others stay one-to-one and in the network |
| Ipam.AllocationStaysInside | scheduler/internal/ipam/ipam.go:79-94 | Unless the gateway is the last address, every address in use stays in the network |
| Ipam.StartInside | scheduler/internal/ipam/ipam.go:44-45 | The first address tried is in the network if and only if the gateway is not its last |
| Ipam.LastGatewayEscapes | scheduler/internal/ipam/ipam.go:79-87 | With the last address as gateway an address outside the network is handed out |
| RangeSplit.SplitByRange | scheduler/internal/server/split.go:62-81 | The loop with int64 wrap-around and truncating division; panics exactly for a part count that is not positive |
| RangeSplit.SplitExactly | pkg/taskmodel/taskmodel.go:332-355 | For Start <= End the parts are consecutive, cover the range exactly and differ in size by at most one if and only if there is one part or nothing overflows |
| RangeSplit.PartitionCovers | pkg/taskmodel/taskmodel.go:332-355 | Every number of the range lies in exactly one part |
| RangeSplit.NoOverflowSplits | scheduler/internal/server/split.go:62-81 | Without overflow part i has the quotient of the width, and one more if i is below the remainder or it is the last part |

## Left out

- Replication.FailoverConsistent: one standby, as the hard-coded name allows; for more of them AckedStaysInStep speaks of those already acknowledged.
- Sync.SyncService.SyncWAL: the log is fixed during the call; entries written meanwhile reach the standby with its next pull.
- WalLog.Writer.Write: one lifetime of a writer from an empty directory, no disk errors (the source logs and goes on), and no wrap of the 64-bit entry counter.
- Sync.Checkpointer.Cleanup: every removal succeeds; the protocol in Replication allows a checkpoint to remove any part of the removable files.
- WorkflowRuns.StepKeepsShape: submitted identifiers are new and distinct, which the generated ones are meant to be.
- Engine.Engine.ScheduleOnce: needs globally unique stage identifiers; the stop signal, the semaphore and the command queue for pushes are not modelled.
- Engine.Engine.AssignToNode: fitting, which reads the amounts and not the capabilities of a specification, trust and scores are functions without rounding, fixed during the call.
- Server.Server.SubmitJob: how many units a stage is split into is a parameter, and a unit's input text is not kept.
- Server.Server.UnregisterNode: the address is released by Ipam separately.
- TrustGraph.TrustGraph.AddEdge: signatures are not kept.
- Gpu.HAMiManager.AllocateGPUs: device identifiers are unique; cores and vgpu.json are not modelled.
- Ipam.IPAM.Allocate: IPv4 networks of prefix length at least 1; a store that fails is not modelled.
- Restarts of the primary or the standby, and what two active schedulers do after a promotion: the code has no fencing.
- Progress: that jobs finish is not claimed, since reclaimed units are not propagated to their stages.
- ReleaseAllGPUs, which clears the device totals but not the container records.
- Revoked certificates, which are never logged, and the status and owner indexes, which nothing reads.
- Parsing of durations and configuration (an interval of 0 divides by zero when the failure limit is computed).
- The failure detector and the node scores: floating point; the node status and the score are inputs.
- gRPC, TLS, Nebula, containerd, HTTP, command line and user interface: input and output.
- zstd compression, which the synchronisation does not use.
- The other split strategies, GetAllEdges, Size and listing pages are not modelled.
