# Verified model of ostiole

ostiole is a Go library for Arm debug access: SWD and JTAG links, debug ports, access ports, target memory,
CoreSight discovery, and the probes that carry the bits. This project models its protocol cores in Dafny and
proves what they promise, for every input, every behaviour of the target and every point of failure.

`dafny verify dfyconfig.toml` checks the whole project.

## How the model is built

The target is a state machine that may stall a request, reject it, lose the data of an accepted write, return
bad parity, or stop answering, at any frame. What an access port does is an arbitrary function of the accesses it
has seen. A context is a budget that runs out whenever it likes. Methods of the source that change state are
methods of classes here, and loops are loops; errors are datatypes that keep the classification the code
branches on.

| files | what they model |
|---|---|
| `Context`, `Target`, `Link`, `Wire`, `Batch`, `Answers`, `Conn`, `Lifecycle`, `LinkRun` | SWD target and connection: frames, response grammar and bank tracking, batches, Connect and Release, whole runs |
| `Plan`, `PlanShape`, `Meaning`, `Planner` | lowering a transaction to debug-port steps, and what the steps mean |
| `PortState`, `Port`, `Exec`, `Txn`, `Partial`, `ApTxn`, `PortAp`, `Session` | the debug port: recovery from WAIT and FAULT, execution of plans, results of transactions, immediate port access, sessions and power requests |
| `MemTarget`, `MemCodec`, `MemHistory`, `MemSteps`, `MemAp`, `MemRun`, `Misread` | memory access: scalars, blocks, restoration of CSW, TAR and TARHI, and where a write is misreported |
| `Packing`, `Rows`, `Bits`, `Frame` | packed bits, and the fixed SWD frame printed and parsed |
| `Tap`, `Device`, `Trace`, `JtagConn`, `Discover`, `Measure`, `Chain`, `JtagDp` | the TAP controller, scan chains, borrowed TAPs, the JTAG debug port |
| `Cmsis`, `Ftdi` | the SWD and JTAG streams of CMSIS-DAP and FTDI probes |
| `Rom`, `Walk`, `WalkTree` | CoreSight identification, ROM tables and the ROM walk |

## Main results

1. Exactly once, in order (`DapTxn.Txn.Commit`): the requests the target accepts are a prefix of the plan, none
   twice, all of them if Commit returns nil; results are successes, then failures, then operations not executed.
2. Lowering preserves meaning (`DapMeaning.PlanMeans`, `DapTxn.Txn.Commit`): despite SELECT elision, posted reads and
   retries, values and final state are those of running the operations one at a time.
3. The host knows the link (`SwdConn.Conn.Commit`, `SwdRun.RunLink`): in every run the response grammar and the
   believed bank of a ready connection are the target's, and the inherited ORUNDETECT is always given back. For any
   queue every success is the target's own reply, and no frame is taken twice or out of order.
4. Memory (`DapMemAp.MemAp.ReadBlock`, `WriteBlock`, `DapMemRun.RunAll`): blocks refine a byte memory, counts never
   overstate, nothing outside the range is written, and Release restores the registers.
5. JTAG (`JtagChain.RunChain`, `JtagConn.Conn.ClockIn`, `DapJtag.Executor.AccessAp`): scans through a borrowed TAP
   touch only that TAP, chunking is invisible, and every request is accepted as its outcome says. The exception is an
   access whose framing was lost: entering the protocol again may still accept it, but at most once in all.
6. Codecs (`SwdFrame.StreamParses`, `CmsisSwd.PlanStream`, `FtdiMpsse.SwdIo`): printed streams parse back to what was
   asked, and samples return to their own bits.
7. ROM walk (`RomWalkTree.Walk`): the explicit stack is a recursive depth-first search, sound, complete and within
   its limits.
8. Power (`DapSession.RunSessions`): in every run of sessions the power requests found at the start are kept, and
   exactly those acquired are given back.

## A promise the code does not keep

The comments of `WriteBlock` (dap/memap_block.go:216-222) say that an error wraps ErrIndeterminate whenever the current
chunk might have reached memory; those of `WriteScalar` (dap/memap.go:229-232) say that unconfirmed effects report
ErrIndeterminate. Both fail where a write stands alone: if the data of a later ABORT write is lost, the target raises
WDATAERR, and the code takes that for the loss of the memory value itself (`DapMisread.LoneWriteHidden`, for every port
and value and in both response grammars). The promise of `WriteBlock` holds exactly where no chunk has a single value:
`DapMemAp.MemAp.WriteBlock` proves it for every block that satisfies `InPairs`, on a port that increments its address,
and `DapMemCodec.BlockSegments` proves that any other block has a chunk of one value. A scalar is always such a chunk.
In those cases the error still carries the captured WDATAERR.

This is the one place known where code and comments differ; the model follows the code.

The address arithmetic of ROM entries, the wrap of TAR and the widths of the wire formats are modelled as they are;
other integers are unbounded.

## Model

| member | source | states |
|---|---|---|
| `SwdTarget.TakenIsPrefix` | dap/sim/target.go:125-151 | Of a packed sequence of frames in which only the first may be one that sticky state lets through, the target accepts exactly the frames before its first rejection, in order; every behaviour (stalling, losing written data) allowed |
| `SwdTarget.RestFaulted` | dap/sim/target.go:125-151 | Every frame packed after a rejected one is answered FAULT |
| `SwdLink.ValidatedKeepsGrammar` | swd/transfer.go:143-160 | A frame that validation lets through never changes ORUNDETECT, for every behaviour of the target, even when a pending SELECT was lost |
| `SwdLink.RejectionTeachesNothing` | swd/transfer.go:162-201 | WAIT and FAULT leave what the host believes about bank and grammar unchanged |
| `SwdLink.ChunkKeepsGrammar` | swd/batch.go:170-206 | A dry-run-validated chunk keeps the response grammar throughout, and the dry-run belief stays right as long as frames are accepted |
| `SwdLink.ObservedCoherent` | swd/batch.go:333-348 | Observing the replies of a whole chunk keeps host belief and target in agreement: the grammar equals ORUNDETECT, a known bank equals DPBANKSEL, a pending one is the new or the prior bank |
| `SwdWire.Wire.EnterSwd` | swd/sim/wire.go:138-146 | Entering the protocol resets the line state or does nothing |
| `SwdWire.Wire.Exchange` | swd/sim/wire.go:89-116 | A packed exchange serves a prefix of the frames; a completed one returns each frame's own reply; a rejected frame is only framed correctly in the grammar ORUNDETECT selects |
| `SwdConn.Conn.TransferFrame` | swd/transfer.go:122-141 | One frame is served at most once; unless the exchange is uncertain the result is the reply to this frame |
| `SwdConn.Conn.ClearOverrun` | swd/transfer.go:110-120 | Clearing STICKYORUN leaves the ports, SELECT, ORUNDETECT and the power requests alone; a failure requires repair |
| `SwdConn.Conn.Send` | swd/transfer.go:83-108 | One validated operation on a ready link is accepted at most once, its result is the target's own answer or says what is unknown, and belief and target still agree |
| `SwdConn.Conn.Transfer` | swd/transfer.go:56-77 | The same for any operation and any state of the connection; refused ones reach nothing |
| `SwdConn.Conn.ValidateAll` | swd/batch.go:170-206 | No operation is marked exactly when the whole queue passes validation, each operation in the state a dry run reaches before it |
| `SwdConn.Conn.ChunkEnd` | swd/batch.go:283-294 | A chunk ends at the first operation that must end one (ABORT, or one that may reach CTRL/STAT behind a pending SELECT), or at the limit |
| `SwdConn.Conn.ObserveReplies` | swd/batch.go:333-359 | Belief after all replies; which operations sticky state lets through, judged before each; and whether a WAIT met a pending SELECT |
| `SwdConn.Conn.CleanupPackedWait` | swd/batch.go:398-412 | Cleanup after a packed WAIT reaches no port; the link stays ready only if the flag is clear |
| `SwdConn.Conn.FinishChunk` | swd/batch.go:372-396 | Every result is the reply to its frame, an uncertain one, or a WAIT that was not cleaned up; the cleanup reaches no port |
| `SwdConn.Conn.CommitChunk` | swd/batch.go:296-322 | One packed exchange of any frames: each result is the target's own reply to its frame. If only the first frame can be one that sticky state lets through (`PackSafe`), the target accepted exactly the first k operations, once each in order |
| `SwdConn.Conn.SendPart` | swd/batch.go:262-281 | Adding the next chunk to a batch whose earlier operations all succeeded keeps both guarantees for the whole batch, the second for a `PackSafe` queue |
| `SwdConn.Conn.CommitSequential` | swd/batch.go:234-260 | Simple responses: the same two guarantees one operation at a time, stopping at the first error |
| `SwdConn.Conn.CommitOverrun` | swd/batch.go:262-281 | Overrun responses: the same over all chunks, for every wire limit and cancellation |
| `SwdConn.Conn.Commit` | swd/batch.go:147-168 | A queue that is not sendable reaches nothing. For any queue, the target took its frames in order and each at most once, and every success is the target's own reply to its frame (`Accounted`). For a `PackSafe` queue the accepted operations are a prefix. A ready link still agrees with the target |
| `SwdAnswers.AnswersJoin` | swd/batch.go:262-281 | A chunk sent from the state that the chunks before it left continues their account: replies, accepted frames and target are those of one sequence of frames |
| `SwdAnswers.Reaches` | swd/batch.go:262-281 | After one more chunk the queue goes on from its state, or ends there, with every result accounted for |
| `SwdAnswers.OnePower` | dap/sim/target.go:125-151 | A frame changes the power requests only as a CTRL/STAT write with bank zero selected, whatever its result |
| `SwdLifecycle.Raw` | swd/lifecycle.go:431-446 | An unvalidated debug-port transfer is accepted at most once and reaches no access port |
| `SwdLifecycle.ReadState` | swd/lifecycle.go:431-437 | The value read shows the ORUNDETECT and the power requests the target has; an error requires repair |
| `SwdLifecycle.WriteAbort` | swd/lifecycle.go:439-446 | ABORT changes nothing but sticky flags; an error requires repair |
| `SwdLifecycle.SelectZero` | swd/lifecycle.go:228-270 | Success means that SELECT is zero in the target |
| `SwdLifecycle.PrepareWrite` | swd/lifecycle.go:299-324 | Clearing sticky flags before the CTRL/STAT write leaves ORUNDETECT alone |
| `SwdLifecycle.Verify` | swd/lifecycle.go:354-371 | Success means the grammar is the one ORUNDETECT selects, and without fallback ORUNDETECT is as asked |
| `SwdLifecycle.RecoverAbandoned` | swd/lifecycle.go:373-387 | A WAITed barrier changes nothing about ORUNDETECT before the retry |
| `SwdLifecycle.ResolveFault` | swd/lifecycle.go:389-422 | After FAULT to the barrier, what CTRL/STAT holds decides whether the write took effect |
| `SwdLifecycle.Settle` | swd/lifecycle.go:326-352 | The polled barrier settles the write one way or the other, or fails |
| `SwdLifecycle.ChangeOverrun` | swd/lifecycle.go:272-297 | Success without fallback means that the target has ORUNDETECT as asked, whatever WAIT, FAULT or lost write came between; the power requests are written back as they were read |
| `SwdLifecycle.BootstrapAttempt` | swd/lifecycle.go:228-270 | An attempt that succeeds leaves bank zero selected and the identity recorded; a failed one keeps the captured setting |
| `SwdLifecycle.Bootstrap` | swd/lifecycle.go:211-226 | A WAIT gets one fresh entry; success leaves bank zero and the identity |
| `SwdLifecycle.PrepareConnection` | swd/lifecycle.go:77-94 | Returns the inherited CTRL/STAT value without changing ORUNDETECT |
| `SwdLifecycle.PrepareRelease` | swd/lifecycle.go:140-180 | Selects bank zero, re-entering if need be, without touching ORUNDETECT or the captured value |
| `SwdLifecycle.RestoreOverrun` | swd/lifecycle.go:182-199 | Success means the target has the captured setting back |
| `SwdLifecycle.CleanUpFailedConnect` | swd/lifecycle.go:96-112 | A failed Connect owns the setting only if it captured it, and then obeys the release rules |
| `SwdLifecycle.Connect` | swd/lifecycle.go:41-75 | The first captured ORUNDETECT is never overwritten; ownership ends only with the target restored; the power requests never change; success leaves a ready link on bank zero and the target's own identity |
| `SwdLifecycle.Release` | swd/lifecycle.go:122-138 | Ownership goes away only when ORUNDETECT equals the captured value; success means idle; a call rejected before traffic changes nothing |
| `SwdRun.Perform` | swd/lifecycle.go:41-138 | One call, under any context, keeps the run invariant below |
| `SwdRun.RunLink` | swd/lifecycle.go:41-209 | Over every run of Connect, Release, batches and single transfers: a ready link agrees with the target, the setting is owned exactly while not idle, the captured value is the one the run began with, and an idle target has it back |
| `DapPlanner.SwdTxnPlanner.SelectValue` | dap/txn.go:493-505 | A SELECT write is planned exactly when the cache differs |
| `DapPlanner.SwdTxnPlanner.SettleSelect` | dap/txn.go:507-523 | A planned SELECT is settled by a barrier once |
| `DapPlanner.SwdTxnPlanner.Settle` | dap/txn.go:484-513 | Makes a value the settled SELECT, with no step when it already is |
| `DapPlanner.SwdTxnPlanner.LowerOp` | dap/txn.go:343-352 | One operation, by its kind |
| `DapPlanner.SwdTxnPlanner.LowerDp` | dap/txn.go:402-442 | Emits the steps of the reference lowering and reaches its planner state |
| `DapPlanner.SwdTxnPlanner.LowerAp` | dap/txn.go:448-482 | The same for access-port reads and writes |
| `DapPlanner.SwdTxnPlanner.LowerWriteSequence` | dap/txn.go:372-400 | The same for write sequences |
| `DapPlanner.SwdTxnPlanner.LowerSequential` | dap/txn.go:354-370 | A run of sequential reads becomes posted reads, each delivering the one before, and a closing RDBUFF |
| `DapPlanner.SwdTxnPlanner.PlanAll` | dap/txn.go:322-352 | The step-by-step planner builds the reference plan, whose meaning is proved below |
| `DapMeaning.GroupMeans` | dap/txn.go:354-370 | A group of posted reads means the same reads done one at a time |
| `DapMeaning.PlanMeans` | dap/txn.go:322-523 | Lowering preserves meaning: executing the plan gives every operation the value, and leaves target and SELECT in the state, of the naive select/access/RDBUFF run |
| `DapPort.Port.TransferOnce` | dap/wait.go:62-64 | One request, accepted at most once |
| `DapPort.Port.Attempt` | dap/wait.go:74-131 | What one answer says about a provisional SELECT is true of the target |
| `DapPort.Port.TryOnce` | dap/wait.go:74-131 | One try ends in the answer to this request, in a failure, or in a WAIT after which the target is where it was and the request may be sent again |
| `DapPort.Port.AfterFailure` | dap/wait.go:74-102 | A request that was not taken is repeated only if nothing changed since; otherwise it fails and reaches no port |
| `DapPort.Port.TransferRetry` | dap/wait.go:74-102 | Retrying WAIT never lets a request be accepted twice; a success is the answer to this request; the SELECT cache stays right; only a CTRL/STAT write changes the power requests |
| `DapPort.Port.FinishRetry` | dap/wait.go:173-188 | A failure other than bad parity leaves no provisional SELECT behind |
| `DapPort.Port.PrepareRetry` | dap/wait.go:271-295 | A request is only repeated when nothing changed since its WAIT, and only within the limits |
| `DapPort.Port.HandleFault` | dap/wait.go:190-226 | Fault handling reaches no access port and settles a provisional SELECT |
| `DapPort.Port.ClearFaultState` | dap/wait.go:235-254 | Clearing sticky flags reaches no access port and keeps the cache right |
| `DapPort.Port.AbortWait` | dap/wait.go:323-343 | Giving a stalled request up reaches no access port and marks it rejected |
| `DapPort.Port.RestoreAfterAbort` | dap/wait.go:345-364 | After DAPABORT the cached SELECT is again the target's |
| `DapPort.Port.Reenter` | dap/lifecycle.go:248-278 | Re-entry restarts the cache from the SELECT that Connect leaves |
| `DapPort.Port.WriteBarrier` | dap/wait.go:66-72 | A barrier that succeeds settles the write before it |
| `DapPort.Port.SettlePrevious` | dap/txn.go:205-214 | An unsettled write of before is settled without effect on the ports |
| `DapPort.Port.ReadRegister` | dap/swddp.go:150-163 | A physical read returns the value of that register |
| `DapPort.Port.ConfirmPending` | dap/swddp.go:193-201 | Afterwards the cached SELECT is certain |
| `DapPort.Port.WriteRegister` | dap/swddp.go:284-333 | A successful write of SELECT is cached; it stays unsettled until a barrier |
| `DapPort.Port.SelectBank` | dap/swddp.go:179-191 | Success means the bank is selected for certain, keeping the port selection |
| `DapPort.Port.ReadDp` | dap/swddp.go:123-148 | Reads the logical register, whatever bank it is in; RDBUFF returns the posted data |
| `DapPort.Port.WriteDp` | dap/swddp.go:284-317 | A success wrote that register or raised WDATAERR; no outcome changes the power requests except a CTRL/STAT write, to its own value |
| `DapSession.WaitPower` | dap/lifecycle.go:321-334 | Success means that the acknowledgements are as asked and that a write before it was not lost |
| `DapSession.ReleasePower` | dap/lifecycle.go:303-319 | The requests that are not the session's own stay as they are, whatever fails; success leaves none owned |
| `DapSession.ReleaseLink` | dap/lifecycle.go:232-246 | The session ends exactly when the connection has nothing left to restore; a release rejected before traffic changes nothing |
| `DapSession.CompleteRelease` | dap/lifecycle.go:293-297 | An idle session owns nothing and expects no identity |
| `DapSession.Initialize` | dap/lifecycle.go:124-158 | Success means a valid identity and the CTRL/STAT value the target holds, without transaction modes |
| `DapSession.PowerUp` | dap/lifecycle.go:41-50 | Owns exactly the requests that were missing, before writing any; success means that both are set |
| `DapSession.FailConnect` | dap/lifecycle.go:164-183 | However the rollback of a failed Connect goes, the inherited requests stay and nothing is connected |
| `DapSession.ConnectLink` | dap/lifecycle.go:83-122 | Begins a session: entry and checks, or a rollback that keeps the inherited requests |
| `DapSession.Connect` | dap/lifecycle.go:32-57 | Connected exactly on success; then both requests are acknowledged, those that were missing are owned, and the identity is the target's; an active session refuses a second Connect |
| `DapSession.Release` | dap/lifecycle.go:196-230 | Success means idle with exactly the owned requests given back; a failure keeps what is owed, and only a call rejected before traffic stays connected |
| `DapSession.Perform` | dap/lifecycle.go:32-334 | One call, under any context, keeps the invariant below |
| `DapSession.RunSessions` | dap/lifecycle.go:32-334 | Over every run of Connect, Release, register and access-port calls that do not write CTRL/STAT themselves, failing anywhere: the power requests that are not owned are the inherited ones; whenever the port is idle the target has exactly those back; whenever it is connected both are set |
| `DapTxn.Txn.Queue` | dap/txn.go:151-160 | Queues one operation with an unresolved result |
| `DapTxn.Txn.ResolveOne` | dap/txn.go:45-52 | A result is resolved exactly once |
| `DapTxn.Txn.ResolveSuffix` | dap/txn.go:826-830 | The operations from an index on are resolved as not executed |
| `DapTxn.Txn.ResolveSteps` | dap/txn.go:742-746 | The operations of clocked steps are resolved as indeterminate |
| `DapTxn.Txn.AcceptOne` | dap/txn.go:748-773 | One successful step delivers at most its own operation's value, and the port state follows the target |
| `DapTxn.Txn.AcceptPrefix` | dap/txn.go:576-581 | The successful steps of a batch are delivered in order |
| `DapTxn.Txn.FailStep` | dap/txn.go:788-808 | The failed operation gets the error and all later ones are not executed |
| `DapTxn.Txn.FailClocked` | dap/txn.go:713-719 | Clocked steps become indeterminate, later operations not executed |
| `DapTxn.Txn.FailTransport` | dap/txn.go:694-711 | The same when the wire failed |
| `DapTxn.Txn.FailCompletedBarrier` | dap/txn.go:721-740 | Bad parity with requests clocked behind it: its operation and theirs fail, later ones are not executed |
| `DapTxn.Txn.FailWaitCleanup` | dap/txn.go:626-636 | A WAIT that was not cleaned up ends the transaction |
| `DapTxn.Txn.FailFault` | dap/txn.go:583-617 | After FAULT the failed operation is not reported complete, the rest is not executed, and no access port is reached by the cleanup |
| `DapTxn.Txn.FailParity` | dap/txn.go:583-617 | Bad parity fails its operation and leaves the cache right |
| `DapTxn.Txn.FailUnsent` | dap/txn.go:619-624 | A request that was not sent fails its operation; if it had been stalled it is given up first |
| `DapTxn.Txn.FailInvalid` | dap/txn.go:686-692 | A refused request fails its operation, and what went out with it is indeterminate |
| `DapTxn.Txn.DecideRetry` | dap/txn.go:638-660 | A retry keeps link and target as the WAIT left them and counts against the limit |
| `DapTxn.Txn.ResolveInvalid` | dap/txn.go:810-818 | Every result gets its own error, or not executed |
| `DapTxn.Txn.Recover` | dap/txn.go:583-660 | After a stalled batch either the same step is next with nothing of it taken, or everything is resolved |
| `DapTxn.Txn.Round` | dap/txn.go:525-542 | One turn of the loop advances, or waits once more within the limit, or ends with everything resolved |
| `DapTxn.Txn.RetryWait` | dap/txn.go:638-660 | Only a WAIT whose request was not taken is retried, within limit and context |
| `DapTxn.Txn.HandleBatchFailure` | dap/txn.go:583-624 | Every failure either resolves the whole queue or allows the one clean retry |
| `DapTxn.Txn.NextBatchBoundary` | dap/txn.go:544-561 | A batch never mixes steps that sticky state lets through with others behind them |
| `DapTxn.Txn.RunBatch` | dap/swd_executor.go:119-154 | One batch of steps: the accepted ones are a prefix, and completions are recorded for them only |
| `DapTxn.Txn.Execute` | dap/txn.go:525-542 | The target accepts each plan step at most once and in order, all of them on success; the loop ends by remaining steps and remaining waits |
| `DapTxn.Txn.RunPlan` | dap/swd_executor.go:158-170 | The values delivered are those of the plan prefix that ran; on success those of the naive run |
| `DapTxn.Txn.ExecuteTxn` | dap/swd_executor.go:158-170 | The same from any port state, the earlier write being settled first |
| `DapTxn.Txn.Validate` | dap/txn.go:216-244 | Marks exactly the operations that are not acceptable |
| `DapTxn.Txn.Commit` | dap/txn.go:177-203 | Every result is resolved once: operations before k succeeded, k failed, later ones did not run (or all succeeded); the wire saw a prefix of the plan once each; a nil error means the naive run's values and final target state |
| `DapPartial.HistPrefix` | dap/txn.go:322-523 | The accesses of any plan prefix are a prefix of the accesses the operations ask for |
| `DapPartial.PlanPrefix` | dap/txn.go:525-542 | The values of a run that stopped early are those of the naive run of the operations it completed |
| `DapPartial.RunSees` | dap/txn.go:322-523 | The naive run makes exactly the accesses asked for, and each read returns what the port answered to it |
| `DapApTxn.CommitAp` | dap/txn.go:177-203 | A transaction of access-port operations: the ports saw a prefix of them, the first n reads returned the answers to their own accesses, a confirmed write sequence was wholly taken without a fault, and an error owns up to whatever the ports saw beyond the confirmed operations (`Confessed`) |
| `DapTxn.StartedAdmits` | dap/txn.go:260-279 | The error of a started operation says that its outcome is open, except where a barrier reports lost write data or only bad parity |
| `DapTxn.BeyondFails` | dap/txn.go:525-542 | A step that the target took without its success being delivered ended in an uncertain exchange or in bad parity |
| `DapPartial.OpeningHist` | dap/txn.go:322-523 | Before the first step of an operation the ports have seen exactly the operations before it |
| `DapApTxn.Confesses` | dap/txn.go:788-808 | For every plan, stop and error: effects beyond the delivered operations are reported as indeterminate, as a completed write, or with the captured WDATAERR |
| `DapApTxn.WritesOpen` | dap/txn.go:788-808 | If the ports saw more writes than operations succeeded, the error is one of those three |
| `DapPortAp.SelectAp` | dap/ap.go:171-186 | Success means SELECT addresses that port register for certain |
| `DapPortAp.SendAp` | dap/swd_ap.go:11-60 | The access reaches the port at most once |
| `DapPortAp.ReadAp` | dap/swd_ap.go:11-34 | A success is the answer to exactly this access, made once |
| `DapPortAp.WriteAp` | dap/swd_ap.go:36-60 | A success reached the port exactly once |
| `SimMemAp.MemoryWritten` | dap/sim/target.go:602-630 | A data write changes exactly the addressed bytes, lane by lane, unless it faults |
| `SimMemAp.MemoryStays` | dap/sim/target.go:602-630 | No other access changes memory |
| `DapMemCodec.BlockSegments` | dap/memap_block.go:24-58 | The segments tile the range: aligned, in order, none crossing a 0x400 window while incrementing; every chunk has at least two values exactly if the caller's address and length satisfy `InPairs` |
| `DapMemCodec.PackedBytes` | dap/memap_block.go:201-214 | Storing a value in a byte order and packing it again gives the value back |
| `DapMemHistory.RunByte` | dap/sim/target.go:561-600 | Read j of an incrementing run returns the bytes at address + 4j, within a TAR window |
| `DapMemHistory.WroteRun` | dap/sim/target.go:602-643 | A run of word writes changes exactly its bytes, even if the last one faulted |
| `DapMemAp.MemAp.SelectCsw` | dap/memap.go:309-334 | Selected means the port really has that size and increment; refusal of the increment means the port has none; CSW is marked for restoration before it is written |
| `DapMemAp.MemAp.ReadRun` | dap/memap_block.go:165-184 | The words returned are the bytes of memory at their addresses |
| `DapMemAp.MemAp.ReadOne` | dap/memap.go:351-374 | The data word holds the addressed bytes in their lanes |
| `DapMemAp.MemAp.ReadLarge` | dap/memap.go:185-223 | A 64-bit read in two halves returns the eight bytes, and its end is certain |
| `DapMemAp.MemAp.ReadScalar` | dap/memap.go:185-223 | A nil error returns exactly the bytes of memory at the address, for every size and byte order; memory is not changed |
| `DapMemAp.MemAp.WriteLarge` | dap/memap.go:234-266 | Memory has all eight bytes or none; if it has them although an error is returned, the error is open about it |
| `DapMemAp.MemAp.WriteScalar` | dap/memap.go:234-266 | Exactly the addressed bytes change, all or none; a nil error means all; if memory changed although an error is returned, the error is indeterminate, a completed write with bad parity, or carries the captured WDATAERR |
| `DapMemAp.CommitOps` | dap/memap.go:351-374 | A queue of port operations, with the promises of CommitAp |
| `DapMemAp.MemAp.CheckActive` | dap/memap.go:288-299 | Goes on exactly if the handle belongs to this session and generation, the port is connected and the context has not ended |
| `DapMemAp.MemAp.MarkAddress` | dap/memap.go:366-374 | The address registers are marked before they change |
| `DapMemAp.MemAp.CommitAddress` | dap/memap.go:351-374 | Success means that TAR and TARHI hold the address |
| `DapMemAp.MemAp.RequireLargeDataCleanup` | dap/memap.go:268-273 | An unfinished 64-bit transfer is recorded and invalidates the session |
| `DapMemAp.MemAp.WriteSmall` | dap/memap.go:234-266 | Exactly the addressed bytes change, all or none, and an error after a change is open about it |
| `DapMemAp.MemAp.WriteBlockRegister` | dap/memap_block.go:332-336 | One address register gets the value, or an error is reported and it may not have |
| `DapMemAp.MemAp.SetBlockAddress` | dap/memap_block.go:304-330 | Success means that TAR and TARHI hold the address; CSW is untouched |
| `DapMemAp.MemAp.MarkIndeterminate` | dap/memap_block.go:338-346 | The error says indeterminate, and the session is invalid unless an ordinary fault was cleared |
| `DapMemAp.MemAp.ReadWordsWithoutIncrement` | dap/memap_block.go:186-199 | Word by word, the same as an incrementing run |
| `DapMemAp.MemAp.ReadWordChunk` | dap/memap_block.go:165-184 | A chunk returns memory's words, whether or not the port increments |
| `DapMemAp.MemAp.PutBlockValue` | dap/memap_block.go:201-214 | Stores the value's bytes in the port's order and nothing else |
| `DapMemAp.MemAp.CheckBlockSizes` | dap/memap_block.go:117-130 | Success means that the port supports every size the block needs; no memory changes |
| `DapMemAp.MemAp.ReadWordSegment` | dap/memap_block.go:142-163 | The buffer holds memory up to n and is untouched beyond |
| `DapMemAp.MemAp.ReadBlockEdge` | dap/memap_block.go:132-140 | The same for a narrow edge |
| `DapMemAp.MemAp.ReadBlock` | dap/memap_block.go:88-115 | The first n bytes are memory's, the rest of the buffer is unchanged, and a nil error means n is the whole length; for every address, length, byte order and increment support |
| `DapMemAp.MemAp.WriteBlockValues` | dap/memap_block.go:304-330 | At least the confirmed values are in memory, and nothing outside the range is written; if more are, the error is indeterminate, or the chunk has one value and WDATAERR was captured |
| `DapMemAp.MemAp.WriteWordsWithoutIncrement` | dap/memap_block.go:288-302 | The same word by word |
| `DapMemAp.MemAp.WriteBlockChunk` | dap/memap_block.go:278-286 | The same for a chunk |
| `DapMemAp.MemAp.BlockValues` | dap/memap_block.go:348-361 | The data words carry the buffer's bytes in their lanes |
| `DapMemAp.MemAp.WriteBlockSegment` | dap/memap_block.go:253-276 | The same for a segment |
| `DapMemAp.MemAp.WriteBlock` | dap/memap_block.go:228-251 | Memory has a prefix of the buffer at the address, at least n bytes of it, and is otherwise unchanged; a nil error means the whole buffer; bytes beyond n are reported as indeterminate whenever no chunk has a single value (`InPairs`, and a port that increments), and otherwise as indeterminate or with the captured WDATAERR |
| `DapMisread.OverrunMisread` | swd/transfer.go:110-120 | Overrun responses: the write is taken, its barrier waits, the data of the clearing ABORT is lost, and the repeated barrier is refused with WDATAERR |
| `DapMisread.SimpleMisread` | dap/wait.go:323-364 | Simple responses: the write is taken, its barrier is given up, and lost ABORT data makes the recovery fail with WDATAERR |
| `DapMisread.CountsAsLost` | dap/txn.go:260-289 | With WDATAERR captured, a write sequence that was wholly accepted counts as uncertain exactly if it has more than one value |
| `DapMisread.KeepsError` | dap/txn.go:260-279 | A write barrier that fails with WDATAERR captured keeps its error as it is |
| `DapMisread.RepeatsBarrier` | dap/txn.go:638-660 | The barrier of a write sequence may be sent again after WAIT |
| `DapMisread.LoneWriteHidden` | dap/memap_block.go:304-346 | The documented promise fails: for every port and every single value, in either response grammar, there is traffic after which memory has the value while nothing is confirmed and the error is not indeterminate; a scalar write keeps the same error |
| `DapMemAp.MemAp.RestoreRegister` | dap/memap.go:438-447 | The restore flag goes away only when the register has its saved value |
| `DapMemAp.MemAp.PrepareRelease` | dap/memap.go:481-500 | Makes the session usable without touching the port; a handle of an earlier session is refused |
| `DapMemAp.MemAp.RestoreAll` | dap/memap.go:409-436 | Tries CSW, TAR and TARHI; success means all three are restored |
| `DapMemAp.MemAp.Release` | dap/memap.go:409-436 | A nil Release leaves CSW, TAR and TARHI equal to the snapshot, an unfinished 64-bit transfer having been ended through CSW first |
| `DapMemRun.Look` | dap/memap.go:106-161 | Reading a register leaves registers and memory as they are |
| `DapMemRun.OpenMemAp` | dap/memap.go:78-161 | The handle starts with the snapshot equal to the registers and nothing to restore; a port already owned in this session, or a session that is not connected, is refused before traffic; only a success claims the port |
| `DapMemRun.Perform` | dap/memap.go:185-436 | One call writes at most where it is asked to, and keeps: a register that differs from the snapshot has its flag set |
| `DapMemRun.RunAll` | dap/memap.go:409-436 | Through every run of reads, writes and failed releases memory changes only where some call was to write, and a successful final Release restores the snapshot |
| `JtagTap.Path` | jtag/state.go:39-65 | The breadth-first search returns a shortest path between any two states that does not pass through Reset |
| `JtagTap.NoShortcut` | jtag/state.go:39-65 | Whatever path exists, the search has found its end no later |
| `JtagDevice.ClockParts` | jtag/conn.go:116-150 | Clocking a stream in pieces is clocking it whole: same device, same output |
| `JtagDevice.ScanSteps` | jtag/scan.go:30-69 | Enter, shift and exit together capture, shift exactly the data and update once |
| `JtagConn.Wire.Io` | jtag/conn.go:116-150 | A wire clocks a prefix; success is the whole stream and its output |
| `JtagConn.Conn.ClockIn` | jtag/conn.go:116-150 | For every wire limit the output and device equal those of one unchunked transfer, and a known state stays the physical one |
| `JtagConn.Conn.Validate` | jtag/conn.go:52-73 | Goes on exactly if the wire has room and the context has not ended |
| `JtagConn.Conn.Track` | jtag/conn.go:116-150 | A known state follows TMS |
| `JtagConn.Conn.ResetTaps` | jtag/conn.go:77-86 | Success is Reset, from any state; whatever part of it was clocked, a data scan that was left open is updated at most once and nothing else is |
| `JtagTrace.ClosingRun` | jtag/conn.go:77-86 | Any number of clocks with TMS high update the data registers at most once, and only if a data scan was open |
| `JtagTrace.TracedMore` | jtag/chain.go:52-93 | What follows a reset adds only updates under the reset instructions |
| `JtagConn.Conn.Move` | jtag/conn.go:92-111 | Takes a shortest path and arrives |
| `JtagConn.Conn.ScanRow` | jtag/scan.go:30-59 | A completed scan shifted exactly the given bits, returned the captured ones, updated once and ended in Idle; a failed one updated at most once, with those bits |
| `JtagConn.Conn.Complete` | jtag/scan.go:30-69 | The same for the movements of a scan |
| `JtagConn.Conn.FromRest` | jtag/scan.go:30-69 | From Idle the device afterwards is the one the row scan gives, and the captured bits come out |
| `JtagConn.Conn.RunIdle` | jtag/scan.go:73-89 | Idle clocks change nothing |
| `JtagDiscover.WordAt` | jtag/discover.go:71-77 | The accumulated word is the number the 32 bits spell |
| `JtagDiscover.Observations` | jtag/discover.go:47-69 | The loop computes the reference observation without reading out of bounds |
| `JtagDiscover.ObserveInverts` | jtag/discover.go:47-69 | For every chain of valid reset registers followed by ones the result is exactly that list, or its first maxTAPs and the over-limit report |
| `JtagDiscover.ObserveSound` | jtag/discover.go:47-69 | Conversely, what is observed was there |
| `JtagDiscover.Discover` | jtag/discover.go:25-45 | On a device whose TAPs reset to those registers, Discover returns them; however it ends, all updates but that of a scan left open before are under the reset instructions |
| `JtagMeasure.MarkerLength` | jtag/measure.go:44-58 | Finds the length exactly when there is one marker in a possible place |
| `JtagMeasure.MeasureIr` | jtag/measure.go:15-42 | For every chain length within the limit returns it and leaves every instruction bit one; from Idle it updates no data register |
| `JtagMeasure.MarkIr` | jtag/measure.go:15-42 | The flush and the marker, from Idle and back, whatever part of it was clocked |
| `JtagChain.Extract` | jtag/tap.go:95-101 | The bits at the offset |
| `JtagChain.Insert` | jtag/tap.go:35-85 | The row with the bits put in at the offset and nothing else changed |
| `JtagChain.Chain.Offset` | jtag/tap.go:35-60 | Where a TAP's instruction starts in the row |
| `JtagChain.Chain.Borrow` | jtag/tap.go:20-28 | A handle exactly when the chain is ready and the index is in range |
| `JtagChain.Chain.Finish` | jtag/tap.go:103-110 | A failed operation invalidates the chain |
| `JtagChain.Chain.TapScanIr` | jtag/tap.go:35-60 | The TAP holds the instruction and all others BYPASS; its own capture is returned; no data register is updated |
| `JtagChain.Chain.TapScanDr` | jtag/tap.go:64-85 | Whenever the scan reaches the wire all other TAPs hold BYPASS; with the register as long as the data, exactly that register is updated with exactly the data and its captured value is returned |
| `JtagChain.Chain.TapIdle` | jtag/tap.go:88-93 | Idle clocks change nothing |
| `JtagChain.Chain.CheckIr` | jtag/chain.go:95-107 | Accepts exactly the captures with 1,0 at every boundary and ones after the row |
| `JtagChain.Chain.Inspect` | jtag/chain.go:52-93 | Success means the registers and total length are the layout's, and every TAP is in BYPASS |
| `JtagChain.Chain.Connect` | jtag/chain.go:52-93 | The same; every earlier handle is dead afterwards; however it ends, at most one update is that of a scan left open before |
| `JtagChain.Chain.Release` | jtag/chain.go:118-132 | The chain is given back only parked in BYPASS and Idle |
| `JtagChain.RunChain` | jtag/chain.go:52-132 | Over every interleaving of handles, raw scans, Idle, Discover, MeasureIR, Connect and Release, each data scan that reaches the wire finds all other TAPs in BYPASS |
| `DapJtag.RequestRoundTrip` | dap/jtag_executor.go:52-70 | The 35 bits of a request say what the request is |
| `DapJtag.Executor.Scan` | dap/jtag_executor.go:37-50 | One instruction and one data scan: the port sees exactly this update or none |
| `DapJtag.Executor.Exchange` | dap/jtag_executor.go:52-70 | WAIT means not accepted; any other answer means accepted once; OK carries the result of the request before |
| `DapJtag.Executor.Poll` | dap/jtag_executor.go:74-99 | For every WAIT pattern the request is accepted at most once, and the value is that of the request before it |
| `DapJtag.Executor.Transfer` | dap/jtag_executor.go:101-121 | Confirmed: accepted once and its own result; unsent: never accepted; in flight: accepted once; indeterminate: at most once |
| `DapJtag.Executor.ReadDp` | dap/jtag_registers.go:41-47 | A success is the result of this very read |
| `DapJtag.Executor.WriteDp` | dap/jtag_registers.go:49-73 | A success was accepted once and, for SELECT, is the cached value; for ABORT it was sent once and two RDBUFF reads follow |
| `DapJtag.TracedStray` | dap/jtag_lifecycle.go:33-56 | For every way a reset and validation of the chain can go, the port accepts at most one access, and only one that was in its register before |
| `DapJtag.OneAccess` | dap/jtag_ap.go:9-60 | An access and the recovery after it are one acceptance together: what was accepted by the scan cannot be accepted by the reset |
| `DapJtag.Executor.AbortPending` | dap/jtag_executor.go:143-152 | An owed abort is sent once and then no longer owed |
| `DapJtag.Executor.Prime` | dap/jtag_executor.go:135-141 | Two RDBUFF reads follow everything sent before |
| `DapJtag.Executor.ClearFault` | dap/jtag_fault.go:19-32 | Success means that the CTRL/STAT read after the write showed no sticky flag |
| `DapJtag.Executor.RepairFault` | dap/jtag_fault.go:8-17 | Nothing to do without a pending fault; success leaves none |
| `DapJtag.Executor.PrimeEntry` | dap/jtag_lifecycle.go:101-119 | Success leaves an empty pipeline; a failure leaves an abort owed |
| `DapJtag.Executor.Recognize` | dap/jtag_lifecycle.go:33-56 | Success means the layout's identity, and the one of before; on a port that does not reset into APACC, at most one access that was left in its register is accepted |
| `DapJtag.Executor.Enter` | dap/jtag_lifecycle.go:33-68 | Success means the same port, an empty pipeline and SELECT zero, with the same bound on accesses |
| `DapJtag.Executor.EmptyPipeline` | dap/jtag_lifecycle.go:56-68 | Sends no access; success means an empty pipeline, SELECT zero and no abort owed |
| `DapJtag.Executor.AbortAp` | dap/jtag_ap.go:37-60 | Giving an access up sends no access of its own; if the protocol is entered again, at most one left in the register is accepted |
| `DapJtag.Executor.CheckFault` | dap/jtag_ap.go:9-35 | A clean result means CTRL/STAT read clean after it; only a read's result survives a fault |
| `DapJtag.Executor.AccessAp` | dap/jtag_ap.go:9-35 | The port accepts the access never, once or at most once as the outcome says, and a confirmed one returns its own result; unsent means never accepted; even if framing was lost and the protocol entered again, at most one access is accepted in all, on a port that does not reset into APACC |
| `Packing.Sequence.Append` | swd/sequence.go:18-26 | The packed buffers hold the bits appended so far and one more |
| `Packing.Sequence.AppendN` | swd/sequence.go:28-32 | The same for a run of equal bits |
| `Packing.Sequence.AppendBits` | swd/sequence.go:34-38 | The same for given bits |
| `SwdFrame.Parity` | swd/transfer.go:365-372 | The loop computes the parity of the word |
| `SwdFrame.FoldedIsOdd` | swd/sim/wire.go:434-441 | The target's folding parity is the same |
| `SwdFrame.HeaderBits` | swd/transfer.go:346-359 | The request byte has the fields and parity of the request |
| `SwdFrame.PrintFrame` | swd/transfer.go:250-265 | Appends exactly the directions and bits of one 54-bit frame |
| `SwdFrame.ParsePrint` | swd/sim/wire.go:200-268 | The simulator decodes the printed frame to the same request and data, parity valid |
| `SwdFrame.PrintAll` | swd/transfer.go:241-265 | Packs frames at 54-bit offsets |
| `SwdFrame.StreamParses` | swd/sim/wire.go:190-268 | At every offset the simulator finds the frame that was packed there |
| `SwdFrame.DecodeAnswer` | swd/transfer.go:267-303 | Decoding recovers acknowledgement, value and a parity error |
| `SwdFrame.DecodeFixedFrame` | swd/transfer.go:267-280 | The loops over packed bytes compute that decoding at any offset |
| `SwdFrame.ExtractWord` | swd/transfer.go:374-386 | The 32 bits at an offset |
| `SwdFrame.AnswersDecode` | swd/transfer.go:267-303 | At every 54-bit offset the host decodes the answer packed there |
| `SwdFrame.PutBits` | swd/sim/wire.go:408-422 | Sets exactly these bits of a zeroed buffer |
| `SwdFrame.Respond` | swd/sim/wire.go:190-237 | The target packs its answers at the frame offsets |
| `CmsisSwd.SwdRun` | cmsisdap/swd.go:171-178 | The length of the maximal run |
| `CmsisSwd.PackBits` | cmsisdap/swd.go:180-188 | The packed bytes of a slice |
| `CmsisSwd.UnpackOctets` | cmsisdap/swd.go:180-190 | Unpacking undoes packing |
| `CmsisSwd.ParsePayload` | cmsisdap/swd.go:111-146 | A probe reads back exactly the sequences a packet was built of |
| `CmsisSwd.PlanPacket` | cmsisdap/swd.go:111-152 | A packet carries the next bits within request, response, 64-bit and 255-sequence limits, splits no target-driven run, and makes progress whenever that is possible |
| `CmsisSwd.PlanStream` | cmsisdap/swd.go:95-109 | Planning succeeds exactly when packets have four bytes, the last bit is host-driven and every target-driven run fits an empty packet; the packets then concatenate to the stream |
| `CmsisSwd.DecodeResponse` | cmsisdap/swd.go:154-169 | Fails exactly when the response is short; otherwise places each capture |
| `CmsisSwd.PlaceBits` | cmsisdap/swd.go:154-169 | One capture sets exactly its own bits |
| `CmsisSwd.DecodeSampled` | cmsisdap/swd.go:154-169 | Every sample lands at its own bit |
| `CmsisSwd.PacketDecodes` | cmsisdap/swd.go:154-169 | The same for one packet of a plan |
| `CmsisSwd.Execute` | cmsisdap/swd.go:52-81 | Over all packets the input holds the sample of every target-driven bit and nothing else |
| `FtdiMpsse.ParseStream` | ftdi/jtag.go:22-48 | The engine reads back exactly the commands written |
| `FtdiMpsse.RunData` | ftdi/swd.go:108-116 | The data byte spells the run of bits |
| `FtdiMpsse.RunWidth` | ftdi/swd.go:98-106 | The longest run of one direction, up to eight |
| `FtdiMpsse.HeldData` | ftdi/jtag.go:34-43 | The TMS run with the held TDI level in bit 7 |
| `FtdiMpsse.JtagCommands` | ftdi/jtag.go:22-48 | Interpreting the commands clocks exactly the TMS and TDI streams, and the read descriptors partition the clocks |
| `FtdiMpsse.SwdCommands` | ftdi/swd.go:72-96 | Interpreting the commands drives and releases the line exactly as asked, the first level of a driven run being set before its clock; the descriptors partition the released clocks; the line is left released |
| `FtdiMpsse.HighBits` | ftdi/swd.go:118-130 | Shifting a response byte down leaves the last samples shifted in |
| `FtdiMpsse.Decode` | ftdi/swd.go:118-130 | Every sample is returned at the clock it was taken on, all others low |
| `FtdiMpsse.PlaceSpan` | ftdi/swd.go:118-130 | One response byte sets exactly the bits of its span |
| `FtdiMpsse.SwdIo` | ftdi/swd.go:48-70 | The whole exchange, for every length: exact clocks, exact samples, too long refused, empty makes no traffic |
| `FtdiMpsse.JtagIo` | ftdi/jtag.go:18-20 | The same for JTAG: TDO is returned for every clock |
| `CoreSight.ReadId` | coresight/component.go:111-121 | The loop assembles the low bytes, up to the first read that fails |
| `CoreSight.Identify` | coresight/component.go:78-109 | An identified component has an aligned page and a valid CIDR, and device registers only in class 9 |
| `CoreSight.ReadDevice` | coresight/component.go:134-150 | Fills in only the device registers, in three reads |
| `CoreSight.RomTable` | coresight/rom.go:24-45 | A table lies in its component's page and has one of the three layouts |
| `CoreSight.EntryBase` | coresight/rom.go:124-134 | The wrapped 64-bit sum is accepted exactly when the true sum is in range and the offset is not zero, and is then the true sum |
| `CoreSight.DecodeSound` | coresight/rom.go:96-134 | A present entry is the architectural layout of what it decodes to |
| `CoreSight.DecodeComplete` | coresight/rom.go:96-134 | Every such layout decodes to its fields, or to an error exactly when the child is outside the address space |
| `CoreSight.ReadEntry` | coresight/rom.go:69-94 | At most two reads; an entry never both ends the table and is present |
| `RomWalk.Walker.IdentifyVisit` | coresight/walk.go:139-158 | A base already open as a table is refused before any read; a new table is pushed once |
| `RomWalk.Walker.InspectVisit` | coresight/walk.go:120-137 | Does what one step of the recursive search does |
| `RomWalk.Walker.Next` | coresight/walk.go:91-118 | What the walk will finally return does not change, and entries or stack height make progress |
| `RomWalk.Descend` | coresight/walk.go:91-137 | Exploring a child and then resuming is resuming with the child's table on the stack |
| `RomWalkTree.Walk` | coresight/walk.go:57-73 | The explicit stack returns exactly what the recursive preorder search returns; the visits are a tree within the limits with parents first, siblings in entry order and no table twice; over still memory every visit is a stored entry and a nil stop error means every table was followed to its end |
| `RomWalkTree.ExploreGood` | coresight/walk.go:91-158 | The tree shape, by induction over the search |
| `RomWalkTree.ExploreWhole` | coresight/walk.go:91-158 | Genuineness and completeness, by induction over the search |
| `RomWalkTree.ExploreCut` | coresight/walk.go:91-137 | Smaller limits return a prefix of the visits, and the very same result if no limit stopped the walk |

## Left out

- `usb`, `discover`, `probe`, `internal`, `cmd`, `armdebug`: operating-system input and output, registries and command-line code.
- `cmsisdap` and `ftdi` sessions and transports: a wire that may fail stands for them.
- DPv3 and ADIv6 addressing, DebugSpace and the dormant activation codes.
- The register transport of `cmsisdap/register*.go` and `dap/register*.go`, and the serial transaction form in `dap/txn_serial.go`.
- Error text, wrapping and joining: an error is a value with the flags the code branches on.
- Time: a context is a budget of checks that may end anywhere.
- Invalid acknowledgements: the exchange counts as uncertain and the connection requires repair; what the target parsed is not modelled.
- RESEND, and values left in RDBUFF by other masters: they are excluded where a lemma requires `NoResend`.
- Unaligned data accesses inside the memory port, which the code never makes.
- JTAG and probe buffers are bit sequences, not packed bytes; packing is proved separately in `Packing`, `Frame` and `CmsisSwd`.
- JtagChain.Chain.Connect: that the layout's instruction boundaries are the device's is taken from the layout (`Describes`); the code cannot observe it beyond the total length and the captured 1,0 pattern.
- DapSession.Initialize: refuses a DPv3 port, which the code accepts with a valid DPIDR1; version 3 is not modelled.
- DapSession.RunSessions: runs contain no transactions or memory handles, and no CTRL/STAT write, which the code lets a caller use to change the power requests.
- The JTAG form of Connect and Release of a debug port (`configure`, `release`); entry and recovery are modelled.
- DapJtag.Executor.AccessAp: bounds the accesses by one across re-entry only for a port whose reset instruction is not APACC; IEEE 1149.1 makes it IDCODE or BYPASS.
- DapMeaning.PlanMeans: starts from a settled port state, as a transaction does after settling the write before it.
