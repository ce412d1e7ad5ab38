# pgcdc: verification model

pgcdc streams committed PostgreSQL transactions into a JSONL file and acknowledges them to a
replication slot. Its promise is that a failure may produce duplicates and never a silent loss.
This project models the parts that promise rests on and proves what they do.

| file | what it models |
|---|---|
| `prelude.dfy`, `schema.dfy`, `lsn.dfy`, `guard.dfy` | machine integers and errors; the relation cache; the four positions; the reconnect check and the printed form of a position |
| `wire.dfy`, `layout.dfy`, `utf8.dfy`, `pgoutput.dfy` | the pgoutput messages of section 55.9 of the PostgreSQL 16 documentation, as they are written and as their bytes lie; what well-formed text is; the decoder with its cursor |
| `rows.dfy`, `transaction.dfy`, `assembly.dfy` | rows built from tuples; the assembler; what a whole message sequence assembles to, told without an assembler |
| `sink.dfy` | the file sink (writer's buffer, kernel, device) and the stdout sink |
| `patience.dfy`, `backoff.dfy` | the busy-slot budget, the reconnect pause and its slices |
| `protocol.dfy`, `invariant.dfy`, `output.dfy`, `theorems.dfy` | the acknowledgement protocol as a step system, its invariant, the output, and the theorems over all runs |
| `gate.dfy`, `chain.dfy`, `replay.dfy`, `duplicates.dfy` | runs that show why the keepalive gate needs both its conditions and what a foreign advance can do; when the four positions keep their order; a run in which a replay lowers what the sink reports; when the output repeats an event |
| `process.dfy` | the protocol as one process sees it, and why a process that takes such steps stays inside it |
| `ledger.dfy`, `session.dfy`, `replication.dfy`, `run.dfy` | the books of the sink, what a session is, the session loop and the outer loop as imperative code |

The last files close the circle. `Replicator` and `Run` are written as the source is: they read a
flag, read a frame, write, flush, acknowledge. Each method says which protocol steps it went
through (`Went`), and `SessionIs` says exactly which steps and which outcome an attempt leads to,
given what every read, write, barrier and send came to. `ProcessRefinesProtocol` says that however
those steps are woven into the steps of a server and a kernel that keep their promises, the whole
is a run of the protocol, so every theorem about runs holds of the process. `RunNeverLoses` says it
of the very file a run leaves behind, and `NextLifeStartsFromFile` hands that file to the next life.

## What is assumed of the environment

All of it is in `Protocol.Enabled` and `Process.Promised`.

- Transactions end at strictly increasing positions, and a later one ends beyond every position
  announced before it. No two transactions have a change at the same LSN (docs/spike-findings.md:187-212).
- A session replays, in commit order, exactly the transactions that end above the slot's position
  at its start; its messages up to a COMMIT denote that transaction; the COMMIT is read at a
  position not below the transaction's end.
- A position announced in a session is not beyond the end of a transaction whose BEGIN was not sent
  yet, and a keepalive is not below the session's start (docs/spike-findings.md:521-528).
- The server applies at most a value that was sent. What it has not applied by the time a new
  session takes the slot is gone. The slot may move back, but not below where it was at first launch.
- Someone else can move the slot only while no session holds it, and feedback that was not applied
  by then is gone.
- A crash keeps what was synchronised and cuts the rest at an event boundary.
- A process that opens a file knows what is on the device (its own knowledge of it is never used).
- A payload is shorter than 2^63 bytes.
- Apart from the lemmas about a foreign advance, about the order of the positions and about feedback,
  nobody else moves the slot.

## Where the code and its documentation differ

- README.md:277-280 says that within a running process a slot moved by someone else is caught and
  fatal. Every attempt reads the slot first and starts the stream afterwards, wherever the slot is by
  then (src/postgres/replication.rs:887-970), and compares it with nothing while durable is zero.
  `ForeignAdvanceIsCaughtIff` proves that an advance is caught, whatever happens next, exactly when
  it goes beyond a durable position above zero and does not fall between the read of an attempt and
  its start; an attempt that fails in between starts over (`AheadSlotStopsAttempt`).
  `ForeignAdvanceGoesUnseen` reaches a state of one life in which a transaction is lost and the next
  check passes.
- docs/how-it-works.md:389 says of the four positions that none can overtake the previous one.
  `acked <= durable` always holds. `LifeKeepsLinkIff` proves of every life in every run that durable
  stays at or below processed exactly when no keepalive advance of that life went beyond processed,
  and processed at or below received exactly when every COMMIT came with or after a position that
  reaches its transaction's end. `PositionsAreNoChain` reaches a life that breaks the order.
- src/sink/file.rs:33 calls `pending` the highest position accepted since the last barrier;
  src/sink/file.rs:61 keeps the last one. `ReportsHighestIff` and `AlwaysHighestIff` say when the two
  are the same, and `ReplayLowersPending` reaches a state, before any barrier, in which they are not.
  Safety does not depend on it.
- The position parser accepts text that is never printed; `ShowOfParse` says exactly which text
  survives parsing and printing.
- A row partitions the columns only when their names are distinct; `PartitionIffDistinct`.
- A BEGIN inside an open transaction replaces it without a word, so everything said about the
  assembler refers to the latest BEGIN.

## Model

| member | source | states |
|---|---|---|
| Theorems.NoSilentLoss | src/postgres/replication.rs:997-1090 | in every state of every run, through crashes, lost feedback, replays and restarts, every event of a transaction at or below the slot's position is on the device |
| Theorems.OutputIsPrefixWithDuplicates | src/postgres/replication.rs:1037-1062 | in every run the output holds only events of the source, and dropping the lines whose key was seen before leaves a gap-free prefix of the event stream in commit order |
| Theorems.PrefixReachesSlot | src/postgres/replication.rs:563-604 | that prefix on the device reaches at least as far as the slot |
| Theorems.OpenGateInRun | src/postgres/replication.rs:1076-1089 | whenever the gate is open in a run, all transactions up to the announced position are on the device |
| Theorems.GateIsNeverWedged | src/postgres/replication.rs:39-41 | while processed is above durable, the next barrier reports exactly that position or its transaction is still to come in this session or the next |
| Theorems.AdvanceIsOpenIff | src/postgres/replication.rs:1076-1089 | the advance is open exactly when no transaction is open, processed is at or below durable, and the announced position is above acked |
| Theorems.BarrierPaysWhatIsOwed | src/postgres/replication.rs:611-623 | after the barrier that reports it, with no transaction open, every position beyond what was acknowledged can be acknowledged |
| Theorems.SlotAheadUnreachable | src/postgres/guard.rs:88-108 | with no foreign advance the reconnect check never fails |
| Theorems.ForeignAdvanceIsCaughtIff | src/postgres/replication.rs:887-970 | for every state with a life: after a foreign advance no continuation of the life ever streams, exactly when the advance goes beyond a durable position above zero and no attempt is between its read of the slot and its start |
| Theorems.ForeignAdvanceOvertakes | src/postgres/replication.rs:171-173 | which states such an advance leads to |
| Sessions.AheadSlotStopsAttempt | src/postgres/replication.rs:887-927 | every attempt that finds the slot ahead of durable takes no step and fails with the error that names both, or with the slot's own |
| Theorems.OvertakenNeverStreams | src/postgres/replication.rs:918-927 | an overtaken process never streams again in that life, whatever the server does and however the slot moves above durable |
| Theorems.OvertakenFailsAtPreflight | src/postgres/guard.rs:88-101 | its next look at the slot is the error that names both positions |
| Theorems.FeedbackIsMonotoneAndSafe | src/postgres/replication.rs:563-604 | within one life of any run the positions sent never decrease, never exceed durable, and the last is what is acknowledged |
| Invariant.RunKeeps | src/postgres/replication.rs:854-1091 | the inductive invariant of the protocol holds in every state of every run |
| Invariant.OpenGateIsSound | src/postgres/replication.rs:31-41 | the invariant makes an open gate safe |
| Invariant.DeliverKeeps | src/postgres/replication.rs:1037-1062 | a delivered frame keeps the invariant |
| Invariant.BarrierKeeps | src/postgres/replication.rs:611-623 | so does a barrier |
| Invariant.AdvanceKeeps | src/postgres/replication.rs:1076-1089 | so does a keepalive advance |
| Invariant.DisconnectKeeps | src/postgres/replication.rs:89-93 | so does a reset for a reconnect |
| Invariant.EmitsDenoted | src/transaction.rs:219-274 | at a COMMIT the assembler emits the very transaction the session's messages denote |
| Output.RunKeepsOutput | src/sink/file.rs:59-63 | in every run the file refines the event stream and event keys stay distinct |
| Duplicates.DuplicateStep | src/sink/file.rs:59-63 | a step keeps the file free of repeated keys exactly when it delivers no transaction with an event in the file |
| Duplicates.RepeatsIffRedelivered | README.md:311-316 | in every run the file never held a repeated key exactly when no session delivered a transaction that still had an event in it |
| GateCounterexamples.EmptyBufferIsNotEnough | src/postgres/replication.rs:31-38 | a reachable state where an empty assembler alone lets the advance lose a transaction |
| GateCounterexamples.LengthZeroIsNotEmpty | src/transaction.rs:67-80 | a reachable state where length zero in place of emptiness loses one |
| GateCounterexamples.GateOpensAgain | src/postgres/replication.rs:1076-1089 | a reached state in which, after a transaction and its barrier, the position of an idle server was acknowledged |
| GateCounterexamples.ForeignAdvanceGoesUnseen | README.md:277-283 | a state reached in one life, with a foreign advance between the check and the start: a transaction is lost and the check passes again |
| PositionChain.LinkStep | src/postgres/replication.rs:1037-1089 | every step of a life keeps acked below durable, and keeps each other link exactly when a condition known before the step holds |
| PositionChain.LifeKeepsLinkIff | docs/how-it-works.md:389 | in every life of every run a link holds throughout exactly when every step met that condition |
| ReplayCounterexample.ReplayLowersPending | src/sink/file.rs:59-63 | a reached state where two transactions and a replay of the first were accepted before any barrier, and the barrier reports the lower position |
| Books.ReportsHighestIff | src/sink/file.rs:33-34 | accepting a transaction leaves the highest position since the last barrier pending exactly when it is not below the highest before |
| Books.AlwaysHighestIff | src/sink/file.rs:33-34 | so it is the highest at every moment exactly when the positions accepted since the barrier never went down |
| GateCounterexamples.PositionsAreNoChain | docs/how-it-works.md:389 | a reachable state with durable and acked above received and processed |
| Process.ProcessRefinesProtocol | src/postgres/replication.rs:854-1091 | steps the process's own state allows, woven into any lawful steps of server and kernel, are a run of the protocol that leads to the same state |
| Process.ProcessNeverLoses | src/postgres/replication.rs:997-1090 | so such a process never loses anything, whatever happened before its life began |
| Process.ProcessNeverSeesSlotAhead | src/postgres/replication.rs:918-927 | and never finds an honestly reported slot ahead of itself |
| Process.WriteBackIsUnseen | src/sink/file.rs:77-97 | what the kernel writes back by itself can be left out of a run: same server, slot and process, and the file is the one the process made |
| Process.ProcessFileHoldsAll | src/sink/file.rs:77-97 | so everything the slot gives up was synchronised by the process or was there before |
| Runs.Run | src/postgres/replication.rs:661-799 | every session on record is the one its attempt makes from where the steps before it lead; success only after the flag was read as set, failure only with a fatal error, never retried; escalation exactly when the time waited reaches the budget; every pause in closed form; no steps but those of the sessions on record; no result only while the script lasts |
| Runs.RunPass | src/postgres/replication.rs:703-798 | one turn of the outer loop: the flag first, then the session, then the pause, what each is recorded as, and that nothing else was done |
| Runs.OneSession | src/postgres/replication.rs:728-749 | the session with its steps, outcome and observation, and what the outcome decides |
| Runs.PauseAndReset | src/postgres/replication.rs:751-798 | productivity by the acknowledged position, the pause by the retry number, and the journal up to date again |
| Runs.Between | src/postgres/replication.rs:751-798 | the pause and the reset: the first slice that sees the flag ends the process, otherwise the whole delay was slept |
| Runs.RunNeverLoses | src/postgres/replication.rs:661-799 | every event the slot gives up is on the device of the file that the run left, also when it failed in the middle of a transaction |
| Runs.NextLifeStartsFromFile | src/sink/file.rs:38-49 | whatever part of the rest a crash keeps, a process that opens that file is where the theorem above starts, at the same server and slot |
| Replication.Replicator.constructor | src/postgres/replication.rs:80-87 | a process starts at zero positions with empty assembler and cache |
| Replication.Replicator.AcknowledgeDurable | src/postgres/replication.rs:563-604 | durable and acked move up to the position, the other two stay; what was acknowledged is sent; the guard never refuses here |
| Replication.Replicator.FlushAndAcknowledge | src/postgres/replication.rs:611-623 | nothing is acknowledged unless the barrier succeeded; afterwards nothing is pending |
| Replication.Replicator.Accept | src/postgres/replication.rs:1053-1060 | processed moves up to the end of the transaction; the ledger of accepted and waiting ones, when the pending position is the highest waiting, and what a failed write leaves |
| Replication.Replicator.ReceiveFrame | src/postgres/replication.rs:1037-1062 | received moves up to the frame's end; a frame is one Deliver step of the message its payload encodes, or the end of the process for the reason stated: no message, one the assembler refuses, or a line not written |
| Replication.Replicator.TakeRead | src/postgres/replication.rs:1033-1069 | a read is a delivery, a keepalive, a tick or a broken connection |
| Replication.Replicator.FlushIfDue | src/postgres/replication.rs:1071-1074 | the barrier comes exactly when the clock has reached the last one plus the interval, and fails exactly on a failed flush, sync or send |
| Sessions.FlushedLastAtStart | src/postgres/replication.rs:995-995 | until a barrier was due, its clock runs from the entry of the loop |
| Sessions.FlushedLastAt | src/postgres/replication.rs:1071-1074 | afterwards from the clock read just before the latest barrier that was due |
| Replication.Replicator.AdvanceFromKeepalive | src/postgres/replication.rs:1076-1089 | advances exactly when no transaction is open, processed is at or below durable and the position is above acked; then that position is acked and durable, and otherwise nothing changes |
| Replication.Replicator.TakeTurn | src/postgres/replication.rs:1033-1089 | a turn is its read, then a barrier if due, then an advance if the gate is open by then, and nothing else; an error is the failure of one of the three |
| Replication.Replicator.Drain | src/postgres/replication.rs:998-1004 | an orderly shutdown succeeds only with nothing pending; an error is a failed flush, sync or send |
| Replication.Replicator.Loop | src/postgres/replication.rs:997-1090 | the turns one after another, and which event of the last turn ended the loop |
| Replication.Replicator.Connect | src/postgres/replication.rs:863-970 | the checks in order; which error, which steps, exactly one observation for the patience, and that the time waited for a busy slot never falls unless the stream starts |
| Replication.Replicator.CheckSlot | src/postgres/replication.rs:863-927 | a slot out of reach, missing, lost or ahead is the error of that name, in this order, and breaks the chain of busy answers; a good slot leaves the patience alone |
| Replication.Replicator.OpenStream | src/postgres/replication.rs:942-970 | with a good slot: which answer opens the stream, which error each other one is, and what the patience learns of it |
| Sessions.StartErrorIs | src/postgres/replication.rs:863-970 | which attempts start and the error of every other, by its first cause, in terms of what the server answered |
| Sessions.ObservedIs | src/postgres/replication.rs:391-451 | an attempt counts as a success exactly when the stream starts, and as busy exactly when the server was asked and said so |
| Replication.Replicator.StreamOnce | src/postgres/replication.rs:854-1091 | a session is steps of the protocol, never AckBeyondDurable; a failed one leaves a file a crash could have left |
| Replication.Replicator.ResetForReconnect | src/postgres/replication.rs:89-93 | cache and assembler are reset, positions and sink kept |
| Sessions.HandleSessionOutcome | src/postgres/replication.rs:492-509 | only a lost connection is retried, only a requested shutdown stops, everything else aborts with its error |
| Replication.HandleErrorsAreFatal | src/error.rs:118-136 | an assembler error always ends the process |
| Sessions.TimesOutWhenEscalating | src/postgres/replication.rs:391-426 | an attempt fails for lack of patience exactly when its history escalates |
| Assembly.EmissionsAreRight | src/transaction.rs:86-311 | for every sequence: each COMMIT emits exactly the changes since the latest BEGIN, named by the latest RELATION, numbered by position within the limit; nothing else emits |
| Assembly.EventIs | src/transaction.rs:86-311 | every event by itself: for each row message and each table of a TRUNCATE between a BEGIN and its COMMIT, the event at the position that counts the changes before it, with each of its fields |
| Assembly.RunSucceedsIffAllFit | src/transaction.rs:86-311 | a sequence is processed without error exactly when every frame is in place, within the limit and about announced tables it fits |
| Assembly.BufferLengthIsEventCount | src/transaction.rs:67-80 | the buffer's length counts the rows and truncated tables since the latest BEGIN, and is zero in an open transaction as long as none came |
| Assembly.RunReads | src/schema.rs:36-49 | the cache answers with the most recent RELATION and the buffer holds the changes since the open BEGIN |
| Assembly.RedeliveryIsIdentical | src/transaction.rs:82-311 | for a self-contained sequence neither the old cache nor a half-open transaction can be seen in what is emitted |
| Assembly.NumberingIsExact | src/transaction.rs:243-261 | below the 32-bit bound the event index is the position |
| Transactions.Assembler.constructor | src/transaction.rs:50-55 | a new assembler is empty |
| Transactions.Assembler.Reset | src/transaction.rs:82-84 | leaves nothing open |
| Transactions.RowChangeIsChangeOf | src/transaction.rs:104-218 | a row message makes a change exactly when its tuples fit the table; the change names table and position, holds the old row by its kind, and parts the new row into values and unchanged names, of which an INSERT has none |
| Transactions.RowErrorsAreRanked | src/transaction.rs:104-125 | a missing transaction is named before the limit, the limit before an unknown relation, that before a bad tuple |
| Transactions.Assembler.PushTruncates | src/transaction.rs:284-311 | one change per table, each with the schema, name and position it must have and no rows; on an error, which table stopped it and that exactly the changes before it were pushed |
| Transactions.TruncatesEach | src/transaction.rs:284-311 | the same of the changes on values: the k-th new one is named by the description of the k-th table |
| Transactions.Assembler.HandleMessage | src/transaction.rs:86-311 | the object agrees with the assembler on values; outside a transaction everything but RELATION and BEGIN is an error; what BEGIN opens and COMMIT hands over; an error leaves everything as it was, but for the changes a TRUNCATE had pushed before it |
| Rows.BuildFullRow | src/transaction.rs:319-335 | the loop builds the row that the lemmas below describe |
| Rows.BuildKeyRow | src/transaction.rs:340-349 | likewise for a key row |
| Rows.FullRowPartitions | src/transaction.rs:319-361 | a wrong arity is the only error; with distinct names, row and unchanged list are disjoint, cover all columns, keep table order, text as strings and NULL as null |
| Rows.PartitionIffDistinct | src/transaction.rs:323-332 | and the names must be distinct for that to hold of every tuple |
| Rows.KeyRowIsSentText | src/transaction.rs:340-361 | a wrong arity is the only error; with distinct names, a column is in a key row exactly when its value is text, every pair is such a column with its text, and they are in table order |
| Rows.PutSets | src/event.rs:7-8 | an insertion sets one name, in place if it is there and at the end if not, and touches no other pair |
| PgOutput.Reader.constructor | src/postgres/pgoutput.rs:12-16 | the cursor starts at the payload's first byte |
| PgOutput.Reader.Take | src/postgres/pgoutput.rs:17-32 | takes exactly the next bytes or fails and stays inside the buffer; the overflow check never decides differently |
| PgOutput.Reader.U8 | src/postgres/pgoutput.rs:34-36 | reads the next byte or fails |
| PgOutput.Reader.U32 | src/postgres/pgoutput.rs:42-44 | the number is that of the next four bytes, the first the most significant; fails when there are fewer |
| PgOutput.Reader.U64 | src/postgres/pgoutput.rs:50-52 | likewise of eight bytes |
| PgOutput.Reader.I16 | src/postgres/pgoutput.rs:38-40 | likewise of two bytes, in two's complement |
| PgOutput.Reader.I32 | src/postgres/pgoutput.rs:46-48 | likewise of four |
| PgOutput.Reader.I64 | src/postgres/pgoutput.rs:54-56 | likewise of eight |
| PgOutput.Reader.CStr | src/postgres/pgoutput.rs:59-69 | reads the only terminated string there is, if it is valid text |
| PgOutput.Reader.Finish | src/postgres/pgoutput.rs:71-79 | succeeds exactly at the end |
| PgOutput.ReadValue | src/postgres/pgoutput.rs:286-316 | reads a column value exactly when one is encoded there; the binary tag and unknown tags are refused |
| PgOutput.ReadValues | src/postgres/pgoutput.rs:285-319 | reads as many values as announced |
| PgOutput.ReadTuple | src/postgres/pgoutput.rs:278-320 | reads a tuple exactly when one is encoded there |
| PgOutput.ReadBegin | src/postgres/pgoutput.rs:149-153 | reads a BEGIN exactly when one is encoded there |
| PgOutput.ReadCommit | src/postgres/pgoutput.rs:154-159 | likewise for a COMMIT |
| PgOutput.ReadInsert | src/postgres/pgoutput.rs:186-199 | likewise for an INSERT |
| PgOutput.ReadColumn | src/postgres/pgoutput.rs:171-176 | reads a column; of its flag byte only whether it is 1 |
| PgOutput.ReadColumns | src/postgres/pgoutput.rs:169-177 | reads as many columns as announced |
| PgOutput.ReadIds | src/postgres/pgoutput.rs:264-267 | reads as many relation ids as announced |
| PgOutput.ReadRelation | src/postgres/pgoutput.rs:160-185 | likewise for a RELATION |
| PgOutput.ReadUpdate | src/postgres/pgoutput.rs:200-227 | likewise for an UPDATE with its optional old row |
| PgOutput.ReadDelete | src/postgres/pgoutput.rs:228-246 | likewise for a DELETE |
| PgOutput.ReadTruncate | src/postgres/pgoutput.rs:247-269 | likewise for a TRUNCATE, negative counts refused |
| PgOutput.Decode | src/postgres/pgoutput.rs:145-274 | succeeds exactly on encodings of messages, which is exactly on payloads with every field at its offset, and returns the message encoded; which error otherwise |
| Layout.LaidOutIff | src/postgres/pgoutput.rs:34-320 | a payload encodes a message exactly when each field has its value at its byte offset, written out byte by byte for all seven kinds: numbers most significant byte first, strings, values with their tags, columns and relation ids |
| Utf8.ValidIffEncoded | src/postgres/pgoutput.rs:64-66 | the text check accepts exactly the encodings of sequences of characters |
| PgOutput.EncodesOne | src/postgres/pgoutput.rs:145-274 | a payload encodes at most one message |
| PgOutput.DecodablePrefixFree | src/postgres/pgoutput.rs:71-79 | no proper prefix or extension of a decodable payload decodes |
| PgOutput.DecodeOfEncode | src/postgres/pgoutput.rs:145-320 | the round trip for every message that fits the format |
| Wire.PrefixFree | src/postgres/pgoutput.rs:145-320 | encodings are prefix-free, and message and flags can be read off them |
| Wire.NearlyCanonical | src/postgres/pgoutput.rs:172 | re-encoding gives the payload back except at column flags and the TRUNCATE flags byte, and fully exactly when those are the sender's |
| Sinks.FileSink.constructor | src/sink/file.rs:40-49 | opening appends to what is there |
| Sinks.FileSink.WriteChanges | src/sink/stdout.rs:43-53 | one line per change in order; a failure leaves a prefix |
| Sinks.FileSink.WriteTransaction | src/sink/file.rs:59-63 | accepted in full or not at all reported; the last position is remembered |
| Sinks.FileSink.Flush | src/sink/file.rs:77-97 | flush, then sync, then give the position up; a failure keeps it |
| Sinks.SinkState.BarrierCoversAccepted | src/sink/file.rs:77-97 | a barrier after an accepted transaction leaves every line on the device |
| Sinks.SinkState.BarrierTwice | src/sink/file.rs:80-88 | a second barrier has nothing to report |
| Sinks.StdoutSink.WriteTransaction | src/sink/stdout.rs:26-32 | lines appended in order; a failure leaves a prefix and the old position |
| Sinks.StdoutSink.Flush | src/sink/stdout.rs:60-67 | flushes even with nothing pending |
| Tracker.LsnTracker.constructor | src/lsn.rs:34-37 | all positions at zero |
| Tracker.LsnTracker.NoteReceived | src/lsn.rs:39-43 | moves this position up if the new one is higher, and no other |
| Tracker.LsnTracker.NoteDurable | src/lsn.rs:56-60 | likewise |
| Tracker.LsnTracker.NoteProcessed | src/lsn.rs:94-98 | likewise |
| Tracker.LsnTracker.TryAck | src/lsn.rs:65-76 | refuses exactly what is beyond durable and then changes nothing |
| Schema.RelationCache.Put | src/schema.rs:36-39 | replaces one entry and touches no other |
| Schema.RelationCache.Get | src/schema.rs:41-43 | finds exactly what is there |
| Schema.RelationCache.Clear | src/schema.rs:45-49 | forgets everything |
| Guard.CheckReconnect | src/postgres/guard.rs:88-108 | fails exactly when the slot is ahead; warns exactly when it is behind |
| Guard.ParseOfShow | src/postgres/guard.rs:111-116 | parsing the printed form gives the position back, for all 64-bit values |
| Guard.DigitsInOrder | src/lsn.rs:10-14 | the sixteen digits in their order, printed in upper case, read in either, and nothing else is one |
| Guard.ShowIsInjective | src/lsn.rs:10-14 | two positions never print alike |
| Guard.HalvesAgreeWithOrder | src/lsn.rs:10-14 | comparing the two halves agrees with numeric order |
| Guard.ShowOfParse | src/postgres/guard.rs:111-116 | text survives parsing and printing exactly when it is canonical |
| Guard.LeadingZeroIsRead | src/postgres/guard.rs:111-116 | a leading zero in either half is accepted and ignored, whatever the letter case |
| Guard.OverwideHighHalfIsTruncated | src/postgres/guard.rs:113-115 | a high half of more than 32 bits loses its upper bits |
| Patience.SlotBusyPatience.ObserveBusy | src/postgres/replication.rs:351-361 | adds the time since the last busy answer, if there was one and the clock went on, up to the largest duration; reports the sum once it reaches the budget |
| Patience.SlotBusyPatience.Interrupt | src/postgres/replication.rs:369-371 | breaks the chain and keeps the sum |
| Patience.SlotBusyPatience.Reset | src/postgres/replication.rs:378-381 | closes the episode |
| Patience.ClassifyStartOutcome | src/postgres/replication.rs:391-426 | a started stream forgets the time waited, a busy answer adds its gap, any other failure keeps the time and breaks the chain; which error each becomes |
| Patience.ClassifyStartError | src/postgres/replication.rs:250-260 | only a refusal is fatal |
| Patience.InterruptOnEarlyFailure | src/postgres/replication.rs:443-451 | a failure before the server was asked breaks the chain and keeps the time waited; a success leaves both alone |
| Patience.AccumulatedIsWaited | src/postgres/replication.rs:317-382 | for every history and clock: the sum of non-negative gaps between adjacent busy answers since the last success, saturated |
| Patience.EscalatesWhenWaited | src/postgres/replication.rs:351-361 | escalation exactly at a busy answer where that sum has reached the budget |
| Patience.ChainTelescopes | src/postgres/replication.rs:340-361 | on an unbroken chain only the first and last answer matter, not how many there are |
| Patience.InterruptOnlyPostpones | src/postgres/replication.rs:363-371 | an interrupt never adds to the time waited |
| Patience.RemovingInterruptNeverDelays | src/postgres/replication.rs:363-371 | so removing one never delays escalation |
| Patience.SeparatedNeverEscalates | src/postgres/replication.rs:412-425 | failures between every two busy answers keep a positive budget unreached |
| Backoff.ReconnectBackoff.NextDelay | src/postgres/replication.rs:540-547 | a productive session starts anew; the pause doubles up to the ceiling |
| Backoff.DelayIsClosedForm | src/postgres/replication.rs:159-166 | after any sessions the pause is min(max, initial * 2^(retry - 1)) |
| Backoff.SlicedPause | src/postgres/replication.rs:776-793 | slept exactly in slices of at most 200 ms with the flag read before each; ends early exactly when some read sees it |

## Left out

- The slot query, opening the connection, the answer to START_REPLICATION, reads, clocks, the shutdown flag and every I/O outcome are inputs of the methods that use them; finite scripts of them stand for the endless loops, and a result of `None` means the loop is still going.
- LogicalReplicationStream and tokio timeouts: a read is a frame, a failure or a tick, and what the transport learned from keepalives shows as the position it has reached.
- Arguments, redaction, `main`, log lines and metrics, the streaming gauge and its guard: no decision depends on them. Only the URL scheme check and the order of the two reconnect bounds are kept.
- Error texts: an error is its variant and the values a decision depends on.
- JSON serialization: one event is one line that is never torn. A torn last line would be glued to the first line of the next run, so the theorems are not about bytes.
- `extract_sqlstate` and the search for the busy message: an answer is started, busy, transient or refused.
- Timestamps stay the server's microseconds; the conversion to calendar time is not modelled.
- The durability of the stdout sink: it promises none, so the theorems over runs are about the file sink.
- The file system: `open`, its failure and the path are not modelled; a failed write leaves a prefix of the transaction's lines.
- Runs.RunPass: the retry counter is unbounded, where the code has 32 bits.
- Sessions.StartError: the time waited in the error is kept as a duration, where the code narrows its milliseconds to 64 bits.
- Runs.Run: a metrics report is not taken between the slices of a pause.
