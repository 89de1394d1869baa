# opcua-edge: a verified model of the runtime

`opcua-edge` connects OPC UA clients to PLCs. It loads a plant template, accepts client
writes, sends them to the PLC on the next tick, polls every node back over Modbus,
evaluates latched threshold events and snapshots the latest values to SQLite. This project
models that loop, its register codec, its template loader and its value store, together
with the simulator that re-reads the template and serves the registers, and proves what
they guarantee.

Each operation is given twice. A function on values says what it does (`Connect`, `Poll`,
`Tick`, `Persist`, `LoadLines`, ...). Where the source updates state in place, a class method with the
source's loops is proved to do exactly that (`EdgeModbus.PollLoop`, `EdgeRuntime.TickOnce`,
`TemplateModel.ReadLines`, ...). The theorems are about the functions, and hold for every
run and for every behaviour of the outside world.

The outside world is a set of oracles: `ModbusWire.Env` (connection attempts, register
exchanges, the clock, and changes the plant makes to its own registers before any
exchange), `LatestValues.StoreEnv` (each SQL statement may fail), `ThresholdEvents.EventEnv`
(row inserts and notifications may fail), `TemplateText.Libraries` (number parsing on
anything but plain decimal notation). Selecting a Modbus unit is a local check, so its
outcome depends on the unit alone, and a failed selection keeps the old one. Doubles are
real numbers plus NaN and the two infinities.

## What is proved

- `Startup.EveryRunIsSafe`: from any template the loader accepts, after any interleaving of
  client writes and ticks and whatever fails, the link invariant and the value types hold,
  the writes handed to the link are the last accepted ones, each counted once, the event
  history is made of genuine rising edges of the conditions the ticks saw, none of it is
  dropped before exit, and the committed table is the last snapshot.
- `ClosedLoop.ClosedLoopTick` and `ClosedLoop.ClosedLoopRun`: after a tick without a
  transport error every node shows its registers, and a written node holds the quantised
  last accepted value.
- `ClosedLoop.HealthyLoop`: when the PLC can be reached and answers, no tick has a transport
  error, and so the last accepted value always comes back.
- `LinkProgress`: exactly when the link attempts a connection, reads and writes, and what a
  failure leaves behind. `EventHistory.ConditionMeaning` and `EventHistory.PassExactly` say the
  same of events, `StoreSafety.LoadExactly` of the restore.
- `TemplateSections.LoaderFollowsSections`: the C loader accepts exactly the templates whose
  every line is good in its place, and then the plant, assets, nodes and events are the model
  of the sections. `TemplateSections.WrittenReadsBack` and `TemplateSections.WrittenLoads` are
  the way back: a template written from sections reads back as those sections and loads.
- `TemplateValidation.LoadTemplate`: loading succeeds exactly on well-formed templates.
- `Startup.RestartAfterAnyRun`: a restarted process starts from the values at exit, or from
  the last ones that were stored.

Six promises do not hold unconditionally. For each there is an input on which it fails and
the exact condition under which it holds.

- Pending writes whose registers overlap overwrite each other. The loader does not rule
  this out. All of them are in the PLC after the drain if and only if they agree on every
  shared word (`ClosedLoop.DrainDeliversIff`, `ClosedLoop.OverlapLosesWrite`).
- Node keys collide when an asset id contains a dot in just the wrong place
  (`StoreSafety.KeyCollision`, `StoreSafety.DottedAssetsCollide`).
- One NaN value makes the whole snapshot fail, because NaN is stored as NULL in a column
  that rejects it (`StoreSafety.PersistSucceeds`, `RunSafety.NanBlocksSnapshots`).
- A COMMIT that fails without ending its transaction is not rolled back, and after it no
  persist ever succeeds again (`StoreSafety.LeavesOpen`, `StoreSafety.OpenTransactionBlocks`,
  `StoreSafety.FailedCommitBlocks`). History rows are inserted on the same connection, so
  a row survives the process if and only if no tick before its own left a transaction open
  (`DurableHistory.RowSurvivesIff`, `DurableHistory.RowIsLost`).
- The simulator's loader yields the nodes of the C loader if and only if every node section
  gives the keys that only the simulator needs and no name ends in a blank
  (`LoaderAgreement.LoadersAgree`, `LoaderAgreement.MissingSourceDisagrees`).
- Decoding and packing again reproduces a register word except for bools above 1 and for a
  scale that is not finite (`RegisterCodec.DecodePack`, `RegisterCodec.BoolWordChanges`).

The repository's README lists parent cycles among the errors the loader detects. Parents
must be declared before their children, so the cycle check that follows never rejects
(`TemplateValidation.CheckParentChains`).

## Files

| file | part of the system |
|---|---|
| EdgeTypes, EdgeValue | shared types, conversions to and from double |
| RegisterCodec | node values as register words |
| ModbusWire, ModbusLink, LinkSafety, LinkProgress | PLC and transport, the link, its invariants, its backoff and when it acts |
| ThresholdEvents, EventHistory | event evaluation, what the history means |
| LatestValues, StoreSafety | the store: latest values, history rows, persist and restore |
| Runtime, WriteTrace, RunSafety, DurableHistory, ClosedLoop, Startup | the tick machine and the theorems over its runs |
| TemplateText, TemplateLoader, TemplateSections, TemplateMeaning, TemplateValidation, TemplateWiring | the C loader and what a template means |
| SimulatorTemplate, SimulatorRegisters, LoaderAgreement | the simulator, and its agreement with the runtime |
| SyntheticPumps | the benchmark's generated model |

## Model

| member | source | states |
|---|---|---|
| EdgeValue.DoubleRoundTrip | include/edge_value.h:11-38 | writing any value of any type out as a double and reading it back gives the value |
| EdgeValue.AsDoubleIsNumber | include/edge_value.h:11-20 | the double of a value is the number it stands for, with true as 1 |
| EdgeValue.FromFinite | include/edge_value.h:31-37 | a finite double becomes the integer next to it on the side of zero, for values in the range of the type; a bool is whether it is not zero; a double is kept |
| EdgeValue.FromNonFinite | include/edge_value.h:23-30 | a double that is not finite becomes zero in every type but double |
| EdgeValue.FromDouble | include/edge_value.h:22-38 | the result has the node's type, and a double that is not finite becomes zero in every type but double |
| RegisterCodec.IntegerRoundTrip | src/edge_modbus.c:34-79 | every bool, int16, int32 and uint32 survives packing and decoding |
| RegisterCodec.WireLayout | src/edge_modbus.c:39-79 | 32-bit values are high word first, negative values two's complement, bools 0 or 1 |
| RegisterCodec.DecodesInteger | src/edge_modbus.c:40-52 | bit 0 for a bool, two's complement, and high word first |
| RegisterCodec.DecodesScaled | src/edge_modbus.c:35-54 | a double register decodes to its signed word times the node's scale, and to the signed word itself when the scale is 0 |
| RegisterCodec.DecodesNonFinite | src/edge_modbus.c:35-54 | under a scale that is not finite a register decodes to NaN or to an infinity of the product's sign |
| RegisterCodec.RoundsHalfAway | src/edge_modbus.c:87 | the rounding is the nearest integer, and of two the one further from zero |
| RegisterCodec.PacksScaled | src/edge_modbus.c:80-93 | a finite double is sent as the rounding of its quotient by the node's scale, or of itself when the scale is 0, modulo 65536 |
| RegisterCodec.DecodePack | src/edge_modbus.c:34-97 | decode then pack reproduces the words if and only if a bool word is below 2 and a double's scale is finite or its word 0 |
| RegisterCodec.BoolWordChanges | src/edge_modbus.c:34-79 | a concrete register word, 2 for a bool, that decoding and packing turns into 0 |
| RegisterCodec.DecodePackDouble | src/edge_modbus.c:53-93 | for every word and every real scale, that many steps of the scale pack to the word |
| RegisterCodec.QuantiseIdempotent | src/edge_modbus.c:34-97 | a second register round trip changes nothing, for every type, scale and value |
| RegisterCodec.PackRounds | src/edge_modbus.c:80-93 | the word is the half-away rounding of the quotient modulo 65536; in range, read as signed, it is the rounding itself |
| RegisterCodec.NonFinitePacksZero | src/edge_modbus.c:83-86 | a value or scale that is not finite is sent as 0 |
| RegisterCodec.QuantiseWithinHalfStep | src/edge_modbus.c:53-93 | in range, a round trip moves a double by at most half its node's scale, or 0.5 when the scale is 0 |
| RegisterCodec.QuantiseMonotone | src/edge_modbus.c:53-93 | in range and with a positive scale, round trips keep the order of values |
| ModbusWire.Stored | src/edge_modbus.c:267-278 | a register write stores its words at its addresses and touches no other address |
| ModbusLink.EdgeModbus.constructor | src/edge_modbus.c:99-121 | a new link is disconnected with zero counters and no backoff |
| ModbusLink.EdgeModbus.NowUs | src/edge_modbus.c:17-21 | returns the next reading of the clock |
| ModbusLink.EdgeModbus.NoteFailure | src/edge_modbus.c:123-132 | doubles the backoff up to its cap and schedules the next attempt from the time of failure |
| ModbusLink.EdgeModbus.ConnectLink | src/edge_modbus.c:134-166 | the new state and status are those of Connect, whose exact law is ConnectExactly |
| ModbusLink.EdgeModbus.DisconnectLink | src/edge_modbus.c:168-176 | drops the context and the connected flag, or nothing when there is no context |
| ModbusLink.EdgeModbus.PollModel | src/edge_modbus.c:178-233 | always OK; link and nodes are those of the plain poll |
| ModbusLink.EdgeModbus.PollLoop | src/edge_modbus.c:199-230 | with the unit cached, the loop leaves the same nodes, counters, exchanges and PLC as a poll that selects the unit before every read |
| ModbusLink.EdgeModbus.PollCached | src/edge_modbus.c:206-229 | one turn of the loop equals the plain poll of the node, and a cached unit is the selected one |
| ModbusLink.EdgeModbus.WriteBack | src/edge_modbus.c:235-258 | the new state and status are those of WriteNode, whose exact law is WriteExactly |
| ModbusLink.EdgeModbus.Send | src/edge_modbus.c:260-281 | the new state and status are those of Transmit, whose exact law is TransmitExactly |
| LinkSafety.DelayGrows | src/edge_modbus.c:123-132 | after k failures the delay is 500000 times 2 to the k-1 microseconds for k up to 6 and 30000000 beyond |
| LinkSafety.ConnectKeeps | src/edge_modbus.c:134-166 | keeps the link invariant; a link that is down attempts exactly when none has failed or the delay after the last failure has passed |
| LinkSafety.PollKeeps | src/edge_modbus.c:178-233 | a poll keeps the link invariant and changes node values only, of their own type |
| LinkSafety.WriteNodeKeeps | src/edge_modbus.c:235-282 | keeps the link invariant and counts each enabled, mapped, writable call once, as good exactly when it returns OK |
| LinkSafety.ReachableLink | src/edge_modbus.c:123-282 | in every reachable state: connected exactly when a context exists, only when enabled, with zero backoff; otherwise backoff and next attempt match the failing streak |
| LinkSafety.BackoffBound | src/edge_modbus.c:13-15 | in any run, attempt n of a failing streak starts at least 500000*(2^(n-1)-1) microseconds after the first for n up to 7, and 31500000+30000000*(n-7) beyond |
| LinkSafety.PollPrefix | src/edge_modbus.c:199-232 | a connected poll reads a prefix of the nodes in order, each on its own unit, touches no other, counts each read, and stops short exactly when one read fails, which drops the link |
| LinkSafety.PollRefreshes | src/edge_modbus.c:221-229 | every readable node before the stop holds the decode of its registers as the PLC held them at that node's own read, even when the poll stops short |
| LinkSafety.LoadedPoll | src/edge_modbus.c:199-232 | with selectable units the error counter grows by one exactly when the link is dropped, and not at all otherwise |
| LinkProgress.ConnectExactly | src/edge_modbus.c:134-166 | an enabled link that is down is connected, with the backoff cleared, if and only if the delay has passed and the PLC answers; a failed attempt joins the streak and doubles the delay up to its cap; without an attempt only the clock is read |
| LinkProgress.NothingToConnect | src/edge_modbus.c:140-145 | a link that is disabled or already connected is left alone |
| LinkProgress.RetriesExactly | src/edge_modbus.c:146-166 | in any run, a connect on an enabled link that is down attempts if and only if no attempt has failed since the last success or the delay since the last failure has passed, and then connects exactly when the PLC answers |
| LinkProgress.PollsAreCounted | src/edge_modbus.c:187 | in any run the poll counter is the number of polls asked for |
| LinkProgress.RegisterPlace | src/edge_modbus.c:26-31 | register 40001 is offset 0, lower ones are not mapped, and 32-bit types take two registers |
| LinkProgress.PollNodeExactly | src/edge_modbus.c:199-229 | a mapped node with a selectable unit is refreshed if and only if its read succeeds, with the decode of its registers at that moment; a failed read drops the link; any other node is skipped without an exchange |
| LinkProgress.StopsAtFirstFailure | src/edge_modbus.c:199-230 | a poll stops at the first node whose read fails, as the exchanges and the PLC decide, and nowhere else |
| LinkProgress.PollExactly | src/edge_modbus.c:178-232 | a poll counts itself; disabled or without a connection it reads nothing and leaves every node; otherwise it connects if need be and polls |
| LinkProgress.TransmitExactly | src/edge_modbus.c:260-281 | over an open link a write succeeds if and only if the unit can be selected and the exchange succeeds, and then the PLC holds its words; a refused unit keeps the link, a failed exchange drops it; each is counted |
| LinkProgress.WriteExactly | src/edge_modbus.c:235-282 | a write returns OK if and only if the link is disabled, or the node can be written, the link is up or comes up, and sending it succeeds; Invalid for a node that cannot be written |
| ThresholdEvents.EdgeEvents.constructor | src/edge_events.c:112-122 | the table starts with its events as given, no history and zero statistics |
| ThresholdEvents.EdgeEvents.EvaluateAll | src/edge_events.c:112-154 | a pass resets the statistics and evaluates the events in order until one fails, as Evaluate says, and hands the store exactly the rows it adds |
| ThresholdEvents.EdgeEvents.EvaluateOne | src/edge_events.c:125-151 | one event: latch, row, notification and statistics, as EvaluateEvent says, and the row goes to the store |
| EventHistory.BeyondIsStrict | src/edge_events.c:18-33 | the comparison is strict and never holds when either side is NaN |
| EventHistory.ConditionMeaning | src/edge_events.c:18-33 | a condition is met if and only if the source exists and its value, as the number of its type, is above a greater_than threshold or below a less_than one, the infinities included |
| EventHistory.EvaluationRecorded | src/edge_events.c:125-151 | one evaluation records the condition on the node values of the pass, sets the latch to it, fires exactly on false to true, and adds at most one row, of that event, beyond its threshold, with its source node's value and the time of the pass |
| EventHistory.PassKeeps | src/edge_events.c:112-154 | a pass keeps the history invariant and changes nothing of an event but its latch |
| EventHistory.PassCounts | src/edge_events.c:112-154 | on OK, rows added equal fired_count, checked_count equals the number of events and every latch equals its condition; on error, rows added are fired_count, or one more when the last insert succeeded; emitted_count is fired_count with a server and 0 without |
| EventHistory.PassExactly | src/edge_events.c:112-154 | a pass evaluates the events in order up to the first whose insert or notification fails, and returns an error if and only if there is one; each evaluation latches its condition and fires exactly on false to true; later events are untouched |
| EventHistory.LatchInvariant | src/edge_events.c:125-153 | over any passes and any failures, in terms of the recorded evaluations: rows plus failed inserts of an event number its rising edges, two firings have a false evaluation between them, and every row is genuine |
| EventHistory.RunIsGrounded | src/edge_events.c:112-154 | over any passes and any failures, every record belongs to a pass, no event twice to one pass and in the order of passes; its flag is the condition on the node values of that pass, and its row has the source node's value in that pass and the time of that pass |
| EventHistory.LatchSafety | src/edge_events.c:112-154 | both together, whatever fails: the rising edges and false evaluations are those of the conditions on the node values the passes saw, and every row has the value and time of its pass |
| EventHistory.RowsAreRisingEdges | src/edge_events.c:112-154 | when nothing fails, an event has exactly one row per false-to-true transition, starting inactive |
| EventHistory.RowsById | src/edge_store.c:457-482 | with unique event ids, the rows stored under an id are the rows of that event |
| LatestValues.EdgeStore.constructor | src/edge_store.c:56-60 | the store starts with the given table and no open transaction |
| LatestValues.EdgeStore.InsertEventHistory | src/edge_store.c:457-482 | a row that is inserted is committed at once, or belongs to the transaction that is open; a failed insert changes nothing |
| LatestValues.EdgeStore.PersistLatestValues | src/edge_store.c:408-455 | the new database and status are those of Persist, whose laws are PersistAllOrNothing and PersistSucceeds |
| LatestValues.EdgeStore.LoadLatestValues | src/edge_store.c:380-406 | the new nodes and status are those of Load, whose exact law is LoadExactly |
| StoreSafety.KeyCollision | src/edge_store.c:26-32 | two nodes share a key if and only if they are the same or one asset id extends the other past a dot that the node id makes up for |
| StoreSafety.KeyFormat | src/edge_store.c:26-32 | a key is node: followed by the asset id, a dot and the node id |
| StoreSafety.DottedAssetsCollide | src/edge_store.c:26-32 | a concrete collision |
| StoreSafety.KeyInjective | src/edge_store.c:26-32 | asset ids without a dot give injective keys |
| StoreSafety.KeyFits | src/edge_store.c:26-32 | ids within the loader's limits give keys that fit 160 bytes |
| StoreSafety.LoadedKeysDistinct | src/edge_store.c:26-32 | a loaded model with dot-free asset ids has distinct keys |
| StoreSafety.PersistAllOrNothing | src/edge_store.c:408-455 | a successful persist commits every node and closes the transaction; a failed one commits nothing |
| StoreSafety.PersistSucceeds | src/edge_store.c:408-455 | a persist succeeds if and only if no transaction is open, no value is NaN, every key fits and none of its own statements fails |
| StoreSafety.FailureStatus | src/edge_store.c:408-455 | a failed persist returns Limit if and only if it stored every node before the first key that is too long, and Error otherwise |
| StoreSafety.OpenTransactionBlocks | src/edge_store.c:423-426 | once a transaction is left open, no persist succeeds and nothing more is committed |
| StoreSafety.LeavesOpen | src/edge_store.c:408-455 | a transaction is open after a persist if and only if one was before, or the persist began one and the first node that could not be stored was followed by a failed ROLLBACK or, with every node stored, the COMMIT failed without ending it |
| StoreSafety.FailedCommitBlocks | src/edge_store.c:450-452 | a concrete failed COMMIT: its transaction stays open, and although no later statement fails no later persist succeeds |
| StoreSafety.PersistThenLoad | src/edge_store.c:380-455 | a successful persist and a load into any copy of the model restore every value of every type |
| StoreSafety.LoadExactly | src/edge_store.c:380-406 | a node takes its stored value if and only if its row is there, its own statement succeeds and no key up to it is too long; every other node is left as it is, and a failed prepare leaves all |
| Runtime.EdgeRuntime.constructor | src/edge_runtime.c:27-43 | the runtime starts at tick 0 over the given parts |
| Runtime.EdgeRuntime.WriteNodeValue | src/edge_address_space.c:94-146 | the new nodes and answer are those of ClientWrite, whose law is RejectedWriteChangesNothing |
| Runtime.EdgeRuntime.DrainPendingWrites | src/edge_runtime.c:9-20 | the loop hands each pending writable node to the link once, in order, and clears its flag |
| Runtime.EdgeRuntime.EvaluatePass | src/edge_runtime.c:53-54 | one event pass over the polled nodes |
| Runtime.EdgeRuntime.PersistNow | src/main.c:177 | one persist of the current nodes, due or not, as at shutdown |
| Runtime.EdgeRuntime.SnapshotIfDue | src/edge_runtime.c:56-59 | persists on every n-th tick, and never when n is 0 |
| Runtime.EdgeRuntime.TickOnce | src/edge_runtime.c:45-60 | a tick counts, drains, polls, evaluates and snapshots, in that order |
| WriteTrace.RejectedWriteChangesNothing | src/edge_address_space.c:106-145 | a write is accepted exactly when the node exists, is writable and the scalar has its type, and answered as not writable exactly when node, permission or value is missing; a rejected write changes nothing, an accepted one sets value and flag |
| WriteTrace.DrainClears | src/edge_runtime.c:9-20 | a drain clears the flags of writable nodes and changes nothing else of a node |
| WriteTrace.TickSendsDue | src/edge_runtime.c:45-60 | a tick hands over exactly the last value accepted for each node since the last tick, in node order, and leaves nothing pending |
| WriteTrace.WritesAreLastAccepted | src/edge_runtime.c:9-20 | over every interleaving the write calls are exactly those; a node is pending exactly when a write was accepted since the last tick, and then holds it |
| RunSafety.RunKeepsSystem | src/edge_runtime.c:45-60 | every run keeps the link invariant, the value types and the node definitions |
| RunSafety.RunCountsWrites | src/edge_modbus.c:235-282 | over any run write_ok plus write_error is the number of enabled, mapped, writable write calls |
| RunSafety.RunEvents | src/edge_runtime.c:53-54 | the event table of a run is that of its passes over the polled nodes |
| RunSafety.RunLatchSafety | src/edge_events.c:125-153 | latch safety over whole runs of the system, whatever fails, each record tied to the condition on the nodes as its tick polled them |
| RunSafety.RunHistory | src/edge_events.c:112-154 | when nothing fails, the rows stored under an event's id number the rising edges of its condition, tick by tick |
| RunSafety.TickSnapshots | src/edge_runtime.c:56-59 | a tick commits its closing node values exactly when it is an n-th tick and the persist succeeds, and otherwise commits nothing |
| RunSafety.RunSnapshots | src/edge_store.c:408-455 | after any run the committed table is the values of the last successful persist over the initial table |
| RunSafety.ShutdownSnapshots | src/main.c:177 | the same after the persist at shutdown, which commits the final values exactly when it succeeds |
| RunSafety.RestartRestores | src/edge_store.c:380-455 | loading the committed table after a process cut off in any run restores the values of the last successful persist |
| RunSafety.ShutdownRestores | src/main.c:177 | loading it after a process that left its server loop restores the values at exit, or, if that persist failed, those of the last successful one |
| RunSafety.NanBlocksSnapshots | src/edge_store.c:408-455 | a concrete run: a client writes NaN while the PLC cannot be reached; however many due ticks follow, no statement of the store fails and nothing is ever stored |
| DurableHistory.PersistKeepsRows | src/edge_store.c:408-482 | a persist neither makes a held history row durable nor takes a row away |
| DurableHistory.TickRows | src/edge_runtime.c:45-60 | a tick adds its rows to the table, or to the transaction it finds open; a transaction is open afterwards exactly when one was before or the tick's own persist left it open |
| DurableHistory.RunKeepsRows | src/edge_store.c:457-482 | over any run every inserted row is in the table or held by the open transaction, in order of insertion |
| DurableHistory.RowsOnlyGrow | src/edge_store.c:408-482 | the table of rows only grows, and never changes again once a transaction is open |
| DurableHistory.OpenAfterRun | src/edge_store.c:408-455 | a transaction is open after some steps if and only if a tick among them left one open |
| DurableHistory.RowSurvivesIff | src/main.c:177-182 | the rows left after shutdown are a prefix of those inserted, and a row is among them if and only if no tick before its own left a transaction open |
| DurableHistory.RowIsLost | src/edge_store.c:450-482 | a concrete run: the COMMIT of the first tick fails, the second tick inserts a row without an error, and no row survives |
| ClosedLoop.WriteDelivers | src/edge_modbus.c:260-281 | a write not counted as an error is one exchange that stores exactly its packed words |
| ClosedLoop.DrainDelivers | src/edge_runtime.c:9-20 | a drain without errors leaves every pending node's words in the PLC and every other address alone, when pending writes agree where they meet |
| ClosedLoop.DrainDeliversIff | src/edge_runtime.c:9-20 | and only then |
| ClosedLoop.OverlapLosesWrite | src/edge_runtime.c:9-20 | a concrete drain: two commands of one pump on one register, with unique ids, over a transport that never fails; both writes succeed and the first is lost |
| ClosedLoop.PollReads | src/edge_modbus.c:199-232 | a poll without errors leaves the PLC alone and every node equal to the decode of its registers |
| ClosedLoop.ClosedLoopTick | src/edge_runtime.c:45-60 | after a tick without a transport error every node equals the decode of its PLC words, every pending node equals its quantised written value, and no address outside the pending footprints changed |
| ClosedLoop.ClosedLoopRun | src/edge_runtime.c:45-60 | over any run, with writable footprints disjoint, the last accepted value comes back quantised after a tick without a transport error |
| ClosedLoop.HealthyTick | src/edge_runtime.c:45-60 | a tick on a healthy transport, judged by the environment alone, has no transport error and leaves the transport healthy |
| ClosedLoop.HealthyRun | src/edge_runtime.c:45-60 | every run on a healthy transport keeps it healthy |
| ClosedLoop.HealthyLoop | src/edge_runtime.c:45-60 | over any run on a healthy transport, with writable footprints disjoint, the last accepted value comes back quantised after the next tick |
| Startup.LoadedRecordsFit | src/edge_config.c:217-298 | every loaded node's ids fit their fields, its unit is at most 247, and every event starts inactive |
| Startup.BootIsReady | src/main.c:97-158 | an accepted template, over whatever database the last process left, gives a system that meets the hypotheses of every run theorem |
| Startup.BootValues | src/main.c:124-128 | at startup a node whose row is stored and read holds the stored value and every other the zero of its type; on an empty database all are zero |
| Startup.EveryRunIsSafe | src/edge_runtime.c:45-60 | all safety properties together, for every accepted template and every run |
| Startup.RestartAfterAnyRun | src/main.c:124-182 | with dot-free asset ids a restarted process starts from the values at exit if the persist at shutdown succeeded, and otherwise from those of the last successful persist |
| TemplateText.FirstEquals | src/edge_config.c:35-44 | the first equals sign, or the end of the line |
| TemplateText.TrimNewline | src/edge_config.c:18-24 | every removed character is a line end, all are at the end, and none is left there |
| TemplateText.StripExactly | tools/modbus_sim/edge_template.py:79 | stripping takes all blanks off both ends and nothing else |
| TemplateLoader.RecordsAreHeaders | src/edge_config.c:464-492 | the loaded assets, nodes and events number exactly the headers of their kind |
| TemplateLoader.TemplateModel.constructor | src/main.c:54 | a new model is empty |
| TemplateLoader.TemplateModel.ReadLines | src/edge_config.c:436-515 | the line loop builds the draft of LoadLines, or stops with the status of the first bad line |
| TemplateLoader.TemplateModel.ReadLine | src/edge_config.c:442-509 | one line does what LoadLine says, and the record pointers stay on the record of the latest header |
| TemplateLoader.TemplateModel.EditRecord | src/edge_config.c:499-509 | a key edits only the record of the latest header |
| TemplateSections.LoaderFollowsSections | src/edge_config.c:422-515 | every line is accepted if and only if each is good below the sections before it; then plant, assets, nodes and events are read off the sections, each field the last value given for its key in its own section |
| TemplateSections.LoaderStopsAtBadLine | src/edge_config.c:436-515 | a template that is not accepted is left at its first bad line, with Limit for a line, a text or a table that is too long and Invalid for anything else |
| TemplateSections.TypeWords | src/edge_config.c:118-140 | each data type is meant by its own word only |
| TemplateSections.ConditionWords | src/edge_config.c:154-164 | greater_than means greater than and less_than means less than |
| TemplateSections.AssetPair | src/edge_config.c:217-235 | which pairs an asset takes, with what status it refuses others, and that a pair it takes updates the asset of a dictionary to that of the extended dictionary |
| TemplateSections.NodePair | src/edge_config.c:237-276 | the same for nodes |
| TemplateSections.EventPair | src/edge_config.c:278-298 | the same for events |
| TemplateSections.AcceptedPairs | src/edge_config.c:494-513 | every pair of an accepted template is one that its section takes |
| TemplateSections.WrittenReadsBack | src/edge_config.c:436-497 | a template written from sections has those sections |
| TemplateSections.WrittenLoads | src/edge_config.c:436-515 | a template written from sections loads if and only if each section takes each of its pairs, every line fits the buffer and no kind has too many records; it gives the model of the sections |
| TemplateMeaning.LoadedPlant | src/edge_config.c:207-215 | the plant's id and name are the values last given, and each section is one record |
| TemplateMeaning.LoadedAsset | src/edge_config.c:217-235 | each field of a loaded asset is the value last given for its key in its own section |
| TemplateMeaning.LoadedNode | src/edge_config.c:237-276 | the same for a node, with the data type and access by their words, a unit of 1 to 247, a register below 2 to the 32 and a scale of 1 when none is given |
| TemplateMeaning.LoadedEvent | src/edge_config.c:278-298 | the same for an event, with the condition by its word, a threshold, and a severity of at most 65535 |
| TemplateMeaning.RequiredKeys | src/edge_config.c:300-331 | the required fields are all there if and only if plant and every section give the required keys of their kind, with a register and a severity that are not 0 |
| TemplateValidation.FindAsset | src/edge_config.c:88-96 | the first asset with the id, or none |
| TemplateValidation.FindEvent | src/edge_config.c:98-106 | the first event with the id, or none |
| TemplateValidation.FindNodeForAsset | src/edge_config.c:108-116 | the first node of the asset with the id, or none |
| TemplateValidation.ValidateRequiredFields | src/edge_config.c:300-331 | OK if and only if every required field of every record is present |
| TemplateValidation.ValidateDuplicates | src/edge_config.c:333-361 | OK if and only if asset ids, node names within an asset and event ids are unique; comparing an event's index with its first match decides the last |
| TemplateValidation.ResolveParents | src/edge_config.c:366-383 | OK if and only if every parent is the plant or an asset declared earlier; then each parent index is its first match and smaller than the child's |
| TemplateValidation.Hops | src/edge_config.c:385-396 | a parent chain reaches the plant after at most i hops |
| TemplateValidation.CheckParentChains | src/edge_config.c:385-396 | the cycle check ends and never rejects |
| TemplateValidation.ResolveNodes | src/edge_config.c:398-404 | OK if and only if every node names an asset, and then its index is the match |
| TemplateValidation.ResolveEvents | src/edge_config.c:406-417 | OK if and only if every event names an asset and a node of that asset, and then its indexes are the matches |
| TemplateValidation.ResolveEvent | src/edge_config.c:406-417 | the same for one event |
| TemplateValidation.ValidateAndResolveReferences | src/edge_config.c:363-420 | OK if and only if all references are declared; nothing but indexes changes |
| TemplateValidation.LoadTemplate | src/edge_config.c:422-526 | OK if and only if every line parses and the result is well formed, else the status of the first bad line, else Invalid; on OK every index is resolved |
| TemplateValidation.IndexesAreUniqueMatches | src/edge_config.c:363-420 | on a loaded model each stored index of a node, parent or event is the only match of its name |
| TemplateWiring.WireRuntime | src/edge_config.c:528-564 | OK if and only if no index is missing; then each asset's count and first node are those of the nodes naming it |
| TemplateWiring.LoadedModelWires | src/edge_config.c:528-564 | a loaded model wires, and each event's source node belongs to the event's asset |
| TemplateWiring.WiringPartitions | src/edge_config.c:541-552 | the counts add up to the number of nodes, and an asset has no first node exactly when its count is 0 |
| SimulatorTemplate.LoadModbusNodes | tools/modbus_sim/edge_template.py:72-100 | the loop returns the nodes of SimNodes, or stops on the same exceptions |
| SimulatorTemplate.BadLineRaises | tools/modbus_sim/edge_template.py:90-91 | a line without an equals sign that is not blank, a comment or a header is an exception, wherever it stands |
| SimulatorTemplate.SectionRaises | tools/modbus_sim/edge_template.py:31-56 | a Modbus section that lacks a required key is an exception, one of another source is skipped, and a node has a positive unit and a register of at least 40001 |
| LoaderAgreement.SimulatorFinishesSections | tools/modbus_sim/edge_template.py:72-100 | on a template the C loader accepts, with carriage returns only at line ends, the simulator finishes exactly the node sections, in order, without the blanks at the end of values |
| LoaderAgreement.SectionAgrees | tools/modbus_sim/edge_template.py:31-69 | the simulator makes a node of a section if and only if it gives source, access, scale and a register of at least 40001, and it is the C loader's node if and only if also no asset, id or name ends in a blank |
| LoaderAgreement.MissingSourceDisagrees | tools/modbus_sim/edge_template.py:31-35 | a concrete template that the C loader accepts with one node, and from which the simulator loads none |
| LoaderAgreement.LoadersAgree | tools/modbus_sim/edge_template.py:31-100 | on accepted templates with plain numbers and carriage returns only at line ends, the two loaders give the same nodes if and only if every section gives those keys and no name ends in a blank |
| SimulatorRegisters.EncodersAgree | tools/modbus_sim/plant_values.py:160-163 | in range, the two double encoders give the same word except at half quotients the runtime rounds to odd, where they differ by one; both decode to within half a step |
| SimulatorRegisters.EncoderClamps | tools/modbus_sim/plant_values.py:160-163 | out of range the simulator's encoder stays at the end of the range |
| SimulatorRegisters.PlantRegisters.constructor | tools/modbus_sim/plant_values.py:200-204 | nodes grouped by unit in template order, nothing written |
| SimulatorRegisters.PlantRegisters.NoteWrite | tools/modbus_sim/plant_values.py:244-245 | records the low 16 bits of one word |
| SimulatorRegisters.PlantRegisters.Values | tools/modbus_sim/plant_values.py:231-242 | for every unit, the registers of its nodes in order |
| SimulatorRegisters.PlantRegisters.ValuesOfUnit | tools/modbus_sim/plant_values.py:234-241 | the same for one unit |
| SimulatorRegisters.PlantRegisters.MaxOffsetByUnit | tools/modbus_sim/plant_values.py:206-210 | for every unit, the greatest offset any of its nodes occupies |
| SimulatorRegisters.PlantRegisters.MaxOffset | tools/modbus_sim/plant_values.py:209 | the same for one unit |
| SimulatorRegisters.ServedInBlock | tools/modbus_sim/plant_values.py:206-242 | every served word is in 0..65535 at an offset not above the unit's maximum |
| SimulatorRegisters.WrittenWordsServed | tools/modbus_sim/plant_values.py:212-245 | words recorded for a writable node and not written over are served back, at any tick and profile |
| SimulatorRegisters.WholePath | tools/modbus_sim/plant_values.py:199-245 | packed, recorded, served and decoded, an integer value is the original and a double its quantised value |
| SimulatorRegisters.NodeIsServed | tools/modbus_sim/plant_values.py:231-242 | a node's registers appear among its unit's values |
| SimulatorRegisters.OnlyNodesServed | tools/modbus_sim/plant_values.py:231-242 | every entry of a unit's values is one of its nodes' own registers |
| SimulatorRegisters.ServedExactly | tools/modbus_sim/plant_values.py:212-241 | a node serves the written words if and only if it is writable and its first register was written, and otherwise the generated raw value; 32-bit values high word first |
| SimulatorRegisters.GeneratedDecodes | tools/modbus_sim/plant_values.py:222-229 | a generated 32-bit raw value decodes to itself: both sides put the high word first |
| SyntheticPumps.AddPump | benchmarks/benchmark_pump.c:66-158 | adds one asset, eleven nodes and four events, or hits the limit exactly from pump 1024 on |
| SyntheticPumps.AddTags | benchmarks/benchmark_pump.c:102-119 | the eleven nodes follow the pump's first node index |
| SyntheticPumps.AddEvents | benchmarks/benchmark_pump.c:127-155 | the four events never exceed the event limit |
| SyntheticPumps.SliceIsNodes | benchmarks/benchmark_pump.c:99-119 | a node belongs to a pump exactly when it lies in the pump's slice |
| SyntheticPumps.WireEventSources | benchmarks/benchmark_pump.c:160-174 | the slice search gives every event its source |
| SyntheticPumps.WireOne | benchmarks/benchmark_pump.c:164-172 | the same for one event |
| SyntheticPumps.SourceIsFullScan | src/edge_config.c:108-116 | the source found in the slice is the one a scan of all nodes finds |
| SyntheticPumps.GeneratedIsUnique | benchmarks/benchmark_pump.c:79-145 | no two generated assets, nodes or events share an id |
| SyntheticPumps.DecimalReadsBack | benchmarks/benchmark_pump.c:80-84 | a printed pump number reads back as itself |
| SyntheticPumps.GeneratePumps | benchmarks/benchmark_pump.c:176-198 | OK exactly for 1 to 1024 pumps with or without events; then the slices are the loader's wiring and no event lacks a source |

## Left out

- IEEE rounding and overflow of doubles: values are real numbers, so results that depend on rounding are not covered.
- Conversion of a double outside the range of a C long, undefined in C: the model truncates and wraps, and no theorem about values relies on it.
- RegisterCodec.PackRounds: does not cover quotients outside the range of a C long, because the conversion is undefined there.
- Counter wrap-around at 64 bits and clock overflow: counters and times are unbounded.
- libmodbus internals, including the truncation of register offsets above 65535: the PLC is a map, and an exchange succeeds or fails.
- SQLite internals, schema creation and migration and the model metadata tables: statements succeed or fail, and a committed row is durable.
- open62541 objects, node ids, event fields and the server lifecycle: client writes arrive as payloads, and a notification succeeds or fails. Reads of a node only return its value.
- Template files that cannot be opened, NUL bytes, and text that is not ASCII: a template is a sequence of lines of characters.
- strtoul, strtod and the Python number parsers beyond plain decimal notation: oracles.
- LoaderAgreement.LoadersAgree: assumes plain numbers and no carriage return inside a line, because number parsing is an oracle otherwise and Python splits a line at a carriage return where C does not.
- LoaderAgreement.SimulatorFinishesSections: assumes no carriage return inside a line, for the same reason.
- Pointers set by wiring: the model keeps the indexes they are made from.
- The value union's byte layout: a node's value always has the node's type, and a freshly loaded node holds the zero of its type.
- Simulator waveforms, fault profiles and the pymodbus server: a generated raw value is an oracle.
- Host and port handling of the Modbus initialiser, process startup, signals, the benchmark scenarios and reports: easy members or I/O.
- Event latches across restarts: they are not persisted, so the event theorems are per process run.
