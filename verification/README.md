# Verified models of melon

melon is a C++ RPC framework with a raft library, example services built on it, and a set
of built-in HTTP pages. This project models its self-contained algorithms and protocols in
Dafny and proves what their callers rely on. `dafny verify dfyconfig.toml` checks all of it;
no proof relies on automatic induction, which `--manual-lemma-induction` turns off.

## What is modelled

- `AtomicServer.dfy`, `CounterServer.dfy`, `BlockServer.dfy`: the three replicated state
  machines under `example/`. Raft is an ordered committed log, delivered in batches, whose
  entries may still carry the closure of the node that proposed them. Serialisation is a
  codec parameter whose parser inverts its serialiser, and `Protobuf.dfy` gives the wire
  format of protobuf as such a codec for each server. Text snapshots of the atomic server
  are printed and parsed down to the characters (`Decimal.dfy`).
- `BlockFile.dfy`: the file behind the block server, the loop of `file_pwrite`, which writes
  at the position of the descriptor when the offset is negative, and images of the file
  taken while it changes.
- `BlockGroup.dfy`: the block server's replica group as a state machine: commits, writes that
  the system cuts into pieces or tears, crashes, restarts that reopen the file, snapshots
  that are hard links to the live file, and snapshots copied chunk by chunk from a peer that
  keeps writing to the file being copied. The main results: replicas that have applied the
  whole log agree in every run, whatever the data, if and only if offsets and lengths make
  the log harmless, and then they hold exactly the disk of the log; and a replica can get
  there if and only if every write is acceptable under the limit of its file system.
- `CasClient.dfy`: the compare-and-exchange client of `example/atomic/client.cc` together
  with the register map, over a channel that loses, delays and repeats. The clients of the
  system are the sender loop, and the branch that asserts and exits is reachable if and only
  if some client's register starts negative.
- `Profiling.dfy`: the merging of concurrent profiling requests as a state machine over any
  number of handlers. Every `done` closure is in exactly one place in every reachable state,
  runs once, and no controller is used after its closure ran. Every page a client receives is
  traced to the step that decided on it, waiters of a failed run receive its error page, and
  waiters are completed in order. No handler gets stuck, and without new arrivals every run
  ends with all closures run.
- `Descriptors.dfy`: the worklist that collects protobuf message texts, with its
  termination argument, which needs the last-in first-out order of the stack.
- `Wildcard.dfy`, `FilePath.dfy`, `Flags.dfy`: the glob matcher with single-star
  backtracking, `AppendFileName`, and the flag listing built on the matcher.
- `Symbols.dfy`: building the pprof symbol table from several binaries, compacting and
  searching it.
- `Prometheus.dfy`: turning a stream of variables sorted by name into gauges and latency
  summaries.

Integers are unbounded where no width matters. `int64` and `uintptr` are subset types, the
counter wraps explicitly, and signed overflow, which C++ leaves undefined, is a step that is
not enabled (`CasClient.Enabled`, `Profiling.CanEnter`) or a precondition (`CasClient.Sender`).

## Where the code does not do what it promises

Each of these has its exact condition proved:

- `AppendFileName` on relative paths: `"a" + ".."` gives `".."` and `".." + ".."` gives `""`,
  against the rules in `melon/builtin/common.h:93-101`. The loop gives up on the first
  component without looking at it. `FilePath.AppendFileName` states that the result denotes
  the right place if and only if `Resolvable` holds, which every absolute path satisfies.
- Symbol compaction sets `last_is_empty` and never clears it. Lookups are unchanged if and
  only if the blank entries form one run (`Symbols.CompactionKeepsAnswersIff`). Because the
  program is loaded last and ends in a blank entry at the highest address, for the whole of
  `LoadSymbols` this means: if and only if every function lies below every blank entry
  (`Symbols.LoadedAnswersKeptIff`; `Symbols.LoadedAnswersKept` also covers a program that
  `nm` could not be run on). One library below one function of the program is enough
  to change answers (`Symbols.LibraryBelowProgram`).
- The compare-and-exchange client exits on a legal history if and only if a register starts
  negative (`CasClient.ExitReachableIff`).
- The cached profiling result is taken before the profile is displayed. In every run, what a
  later request is given from the cache is what the owner of that run ended with if and only
  if the run failed or that page is blank (`Profiling.HitAgreesIff`); `Profiling.HitIsBlank`
  gives a run for each page that is lost.
- A latency recorder whose prefix ends in `_max` loses its average to the shorter prefix,
  for which a summary of its own is then written. `Prometheus.SummariesByName` gives the
  summaries of every sorted stream by the names of its variables, `Prometheus.AverageKeptIff`
  the condition for the average, and `Prometheus.AverageIsLost` a stream that fails for
  every such name, `Prometheus.AverageIsLostInService` with the prefix the service passes.
- The block server proposes every write unchecked, although it refuses reads at negative
  offsets. A write at a negative offset goes to the position of the descriptor, which is lost
  when the file is reopened, and its pieces go elsewhere once the offset has become
  non-negative. Replicas agree on a log, whatever its data, if and only if it has at most one
  non-empty write at a negative offset, no longer than that offset is negative
  (`BlockGroup.AlwaysAgreeIff`); `BlockGroup.HarmfulDiverges` gives a run for every other
  log, `BlockGroup.TwoBytesDiverge` the shortest.
- Writes past the largest file of a replica are proposed unchecked, too. A replica can catch
  up if and only if every write of the log is acceptable under its limit
  (`BlockGroup.CatchesUpIff`); one that is not, committed at any point, stops it for good
  (`BlockGroup.RefusedWriteStops`).

## Model

| member | source | states |
|---|---|---|
| `CasClient.Sender` | example/atomic/client.cc:40-123 | the loop sends, for every turn with a leader, a request to raise what the last answer told by one; it exits at the first answer that reports a mismatch which is neither the first answer nor one above what was known, and otherwise ends with what the last answer told |
| `CasClient.StepKeepsSender` | example/atomic/client.cc:40-123 | every step of the system keeps: a client is where the sender loop leads with the outcomes given to it, and the network holds exactly its requests |
| `CasClient.ClientsAreSenders` | example/atomic/client.cc:40-123 | in every run each client's value or exit is that of the sender loop on the outcomes given to it, and the requests sent for its id are those of that loop, in order, plus the outstanding one |
| `CasClient.ChannelAllows` | example/atomic/client.cc:73-112 | in every run a request once sent can be applied at any later time, a reply once given can be delivered whenever its call is the outstanding one, and a call can fail or be redirected |
| `CasClient.InitialOk` | example/atomic/client.cc:40-43 | fresh clients on non-negative registers satisfy the invariant |
| `CasClient.StepKeepsOk` | example/atomic/client.cc:73-112 | sending, late or repeated application, delivery, failure, redirect and foreign requests all keep: register at the client's value or one above once caught up, every request ever sent expects at most the client's value, replies to the outstanding call report a register past the client |
| `CasClient.StaysInStep` | example/atomic/client.cc:99-112 | a client that has caught up with its register stays caught up |
| `CasClient.ClientsNeverExit` | example/atomic/client.cc:88-112 | in every run from non-negative registers no client reaches the assert-and-exit branch |
| `CasClient.StaleRequestBreaksClient` | example/atomic/client.cc:99-109 | a concrete continuation from -1 in which a stale first request makes the client exit |
| `CasClient.ExitReachableIff` | example/atomic/client.cc:88-112 | the assert-and-exit branch is reachable if and only if some client's register starts negative |
| `AtomicServer.RunIsRegister` | example/atomic/server.cc:317-398 | the map holds for each id the value of a zero-initialised register that ran the log |
| `AtomicServer.RepliesAreSequential` | example/atomic/server.cc:317-398 | every reply is the answer of the sequential register of its id at that position of the log |
| `AtomicServer.ReplyIs` | example/atomic/server.cc:317-398 | the response of each kind of request, field by field, given the value of its register: success, id, old value, new value |
| `AtomicServer.RegisterNext` | example/atomic/server.cc:317-398 | what each kind of request does to the register of its id, and that it leaves all others |
| `AtomicServer.KeysAreWritten` | example/atomic/server.cc:336-398 | an id is in the map, and so in a snapshot, if and only if an exchange or a comparison, failed ones included, was requested for it |
| `AtomicServer.RegisterIsLocal` | example/atomic/server.cc:317-398 | a register depends only on the requests for its own id |
| `AtomicServer.ReplyAcrossBatches` | example/atomic/server.cc:202-255 | a reply given inside a later batch is the answer of the sequential register after everything before it in the undivided log |
| `AtomicServer.FrameDecodes` | example/atomic/server.cc:168-181 | the bytes put into the log decode to the request, with and without the closure |
| `AtomicServer.LogBytes` | example/atomic/server.cc:168-181 | the bytes of the log for the three requests: opcode 1, 2 or 3, then tags 8, 16 and 24 each followed by the varint of its field |
| `AtomicServer.DecodedIff` | example/atomic/server.cc:205-255 | an entry is executed if and only if its first byte is 1, 2 or 3 and it has its closure or its body parses |
| `AtomicServer.ExecutedIs` | example/atomic/server.cc:205-255 | the executed requests are those of the entries in front of the first that is not |
| `AtomicServer.CarriedIsExecuted` | example/atomic/server.cc:205-242 | any choice of entries carrying closures executes the same requests |
| `AtomicServer.ReplicasAgree` | example/atomic/server.cc:202-255 | for every log, every cut into batches and every choice of closures, the map is that of the log |
| `AtomicServer.Atomic.Apply` | example/atomic/server.cc:155-189 | a node with a negative term redirects, any other proposes an entry that both paths decode to the request |
| `AtomicServer.Atomic.OnApply` | example/atomic/server.cc:202-255 | a batch runs its requests up to the first failing CHECK; entries with closures, and only those, get their replies |
| `AtomicServer.Atomic.OnSnapshotSave` | example/atomic/server.cc:257-273 | the copied pairs list the map, each key once, in any order |
| `AtomicServer.Atomic.SaveSnapshot` | example/atomic/server.cc:400-412 | the file is one "id value" line per pair |
| `AtomicServer.SavedLine` | example/atomic/server.cc:407-409 | one more pair adds its two numbers in decimal, with a blank between and a line end behind |
| `AtomicServer.Atomic.OnSnapshotLoad` | example/atomic/server.cc:275-287 | the map becomes what the read loop makes of the text, stopping at the first pair that does not parse |
| `AtomicServer.LoadStops` | example/atomic/server.cc:282-285 | of any file the lines in front of the first text that is no pair are loaded, and of several for one id the last |
| `AtomicServer.Atomic.SnapshotWhileApplying` | example/atomic/server.cc:257-273 | a snapshot written after later batches were applied still loads as the state at which it was taken |
| `AtomicServer.SnapshotRoundTrip` | example/atomic/server.cc:275-287 | loading the text of any listing of a map gives the map back |
| `AtomicServer.SnapshotThenReplay` | example/atomic/server.cc:257-287 | snapshot at index i, load, replay the rest: the state of the whole log, for every i and every iteration order |
| `Decimal.PrintExtract` | example/atomic/server.cc:283-284 | for every 64-bit integer, stream extraction undoes stream insertion before any text that does not continue the number |
| `Decimal.NumberIsRead` | example/atomic/server.cc:283-284 | of blanks, a sign or none, digits and a rest, extraction takes the decimal number unless it is out of range, and strtoll the nearest number in range |
| `Decimal.NoNumberIsRead` | melon/builtin/prometheus_metrics_service.cc:134-147 | where no digits follow blanks and sign, extraction fails and strtoll gives 0 |
| `Decimal.DigitsAreNumber` | example/atomic/server.cc:407-409 | the digits printed stand for the number, without leading zeros |
| `Protobuf.VarintRoundTrip` | example/atomic/atomic.proto:1-30 | reading a base-128 varint undoes writing it, whatever follows |
| `Protobuf.VarintGroups` | example/atomic/atomic.proto:1-30 | byte k of a varint holds group k of seven bits, and all but the last byte the continuation bit |
| `Protobuf.FieldsRoundTrip` | example/atomic/atomic.proto:1-30 | parsing the fields of a message undoes serialising them, for any fields |
| `Protobuf.LookupIsLast` | example/atomic/atomic.proto:1-30 | the last occurrence of a field counts |
| `Protobuf.CutShort` | melon/raft/protobuf_file.cc:115-118 | a message that ends inside a tag or a value does not parse, and the fields in front of it are what was read |
| `AtomicServer.ProtobufIsValid` | example/atomic/atomic.proto:5-18 | the wire format of the three request messages is a codec as the server needs it |
| `AtomicServer.RequestParsesIff` | example/atomic/atomic.proto:5-18 | a body parses as the message of its opcode if and only if it has every field of that message |
| `CounterServer.ProtobufIsValid` | example/counter/counter.proto:9-11 | the wire format of FetchAddRequest is a codec as the server needs it |
| `CounterServer.ValueParsesIff` | example/counter/counter.proto:9-11 | a request parses if and only if it has the value |
| `BlockServer.ProtobufIsValid` | example/block/block.proto:5-8 | the wire format of BlockRequest, with or without a size, is a codec as the server needs it, and fits the length prefix |
| `BlockServer.HeaderParsesIff` | example/block/block.proto:5-8 | a header parses if and only if it has an offset; a size is optional |
| `CounterServer.CarriedIsExecuted` | example/counter/server.cc:192-204 | closure path and parsing path add the same amounts |
| `CounterServer.ValueIsWrappedSum` | example/counter/server.cc:208-209 | wrapping at each addition equals wrapping the sum |
| `CounterServer.RepliesArePrefixSums` | example/counter/server.cc:206-213 | a reply within any batch is the wrapped sum of everything before it in the whole log |
| `CounterServer.SnapshotThenReplay` | example/counter/server.cc:254-282 | a snapshot at any index, written to its file, loaded from it and with the rest replayed, gives the wrapped sum of the whole log |
| `CounterServer.SnapshotFileRoundTrip` | melon/raft/protobuf_file.cc:40-118 | loading the length-prefixed message of a snapshot file undoes saving it, for every value |
| `CounterServer.LogAndSnapshotBytes` | melon/raft/protobuf_file.cc:40-86 | the bytes of a log entry and of a snapshot file: the length in network order, then tag 8 and the varint of the value |
| `CounterServer.LoadedIff` | melon/raft/protobuf_file.cc:100-113 | which files are long enough, by their first four bytes; lengths of 2^31 and more are refused |
| `CounterServer.MissingIsZero` | melon/raft/protobuf_file.cc:115-118 | a message without the value, or cut short in front of it, loads as 0 |
| `CounterServer.Counter.OnApply` | example/counter/server.cc:183-222 | a batch adds its amounts up to the first failing CHECK; each closure is answered with the value before its own amount |
| `CounterServer.Counter.SnapshotWhileApplying` | example/counter/server.cc:230-264 | the file holds the value at the time the snapshot started, whatever was applied before it was written |
| `CounterServer.Counter.OnSnapshotLoad` | example/counter/server.cc:265-282 | a file that is long enough sets the value it holds; one that is too short changes nothing |
| `Bytes.BigEndianRoundTrip` | example/block/server.cc:136-137 | the length prefix is read back from network order |
| `BlockServer.SplitUndoesFrame` | example/block/server.cc:271-283 | cutting the length, the header and the rest undoes the framing of every header and data |
| `BlockServer.LogBytes` | example/block/server.cc:131-142 | the bytes of the log: length in network order, tag 8 and the varint of the offset, with a size also tag 16 and its varint, then the data |
| `BlockServer.PathsAgree` | example/block/server.cc:263-285 | closure path and parsing path execute the same write |
| `BlockFile.PwriteByte` | melon/raft/util.cc:307-326 | a write in one place changes exactly the bytes it covers; gaps read as zero |
| `BlockFile.PwriteLength` | melon/raft/util.cc:307-326 | a write in one place extends the file to its end and never shortens it |
| `BlockFile.PlainAttempt` | melon/raft/util.cc:307-326 | however the system cuts a write, if its offset is non-negative, or stays negative to the end with the descriptor at the start, the loop leaves the first part of its data in one place, all of it if it completes |
| `BlockFile.AttemptLength` | melon/utility/iobuf.cc:926-953 | the loop never shortens the file and keeps it within the limit; a write that completes shows in the length of the file that it was acceptable |
| `BlockFile.AcceptableCompletes` | melon/utility/iobuf.cc:926-953 | from the start position every acceptable write can complete |
| `BlockFile.FileIsDisk` | example/block/server.cc:256-303 | each byte of the file is what the last patch covering it put there, or zero |
| `BlockFile.DiskIsLast` | example/block/server.cc:256-303 | the byte at a position is that of the last write whose range contains it |
| `BlockFile.DiskIsZero` | example/block/server.cc:256-303 | a position in no write holds zero |
| `BlockFile.FileLength` | example/block/server.cc:256-303 | the file ends where the furthest patch ends |
| `BlockFile.SeriesIsFileAfter` | example/block/server.cc:256-303 | completed writes at non-negative offsets, however cut, leave the file of their patches and the descriptor where it was |
| `BlockFile.WholeIsDisk` | melon/utility/iobuf.cc:944-950 | in one process, with each write in one piece, each byte is what the last write covering it put there, those at negative offsets going one behind the other |
| `BlockServer.Block.WriteBlock` | example/block/server.cc:120-158 | a node with a negative term redirects, any other proposes an entry that decodes to the write on every node |
| `BlockServer.Block.FilePwrite` | melon/raft/util.cc:307-326 | for any sizes the system writes, the loop leaves file and descriptor as specified and reports success exactly when no data is left |
| `BlockServer.Block.OnApply` | example/block/server.cc:253-313 | a batch is applied up to the first failing CHECK or write, each write driven by the sizes the system writes; file and descriptor are those after these writes, part of the failed one included; the response of each applied entry with a closure says true, that of the failed one false, and entries without closure get none |
| `BlockServer.Block.Read` | example/block/server.cc:160-193 | a node that does not lead redirects; negative offsets and disk failures fail; the bytes are those of the file, zero-padded to the requested size; a negative size makes the buffer grow without end |
| `BlockServer.ReadIsDisk` | example/block/server.cc:160-193 | such a read returns the bytes of the reference disk |
| `BlockFile.ReplayStep` | example/block/server.cc:287 | replaying the next entry over an image fuzzy from i on gives one fuzzy from i + 1 on |
| `BlockFile.TornStaysFuzzy` | example/block/server.cc:287-299 | an interrupted write leaves an image fuzzy from the same index on |
| `BlockFile.FuzzyExact` | example/block/server.cc:329-357 | an image with nothing in between is the file, and conversely |
| `BlockFile.FuzzyReplay` | example/block/server.cc:329-394 | an image whose bytes are each as of some index from i to n becomes the file after n, contents and length, once entries i + 1 to n are replayed |
| `BlockGroup.FinishedIsFuzzy` | melon/raft/remote_file_copier.cc:294-322 | a snapshot file copied front to back, from a peer that goes on writing, until a read came up against its end, is fuzzy from its label on |
| `BlockGroup.FetchKeepsCopied` | melon/raft/file_reader.cc:93-113 | one more read keeps every copied byte as of some index from the label on, and at its end of file the copy is at least as long as the labelled file |
| `BlockGroup.StepKeepsSound` | example/block/server.cc:253-394 | on harmless logs applying, failing, saving, linking, downloading, crashing and restarting keep every replica's files fuzzy from the index they are labelled with, and a descriptor moves only with the one write at a negative offset |
| `BlockGroup.CaughtUpReplicaIsExact` | example/block/server.cc:253-394 | in every run with a harmless log a replica that has applied the whole log holds exactly that log's disk |
| `BlockGroup.ReplayCatchesUp` | example/block/server.cc:371-394 | in every run with a harmless log, replaying what a replica has not applied leads to that disk |
| `BlockGroup.HarmfulDiverges` | example/block/server.cc:253-394 | for every log that is not harmless there is data of its offsets and lengths and a run in which two replicas that have applied all of it, or of a beginning of it, differ |
| `BlockGroup.AlwaysAgreeIff` | example/block/server.cc:253-394 | offsets and lengths decide: replicas that have applied the whole log agree in every run, whatever the data, if and only if the log is harmless |
| `BlockGroup.TwoBytesDiverge` | example/block/server.cc:371-394 | two bytes written at offset -1: one replica ends with both, one restarted in between with the second only |
| `BlockGroup.StepKeepsKept` | example/block/server.cc:253-394 | on every log every step keeps each file within its limit and long enough for the entries its label promises |
| `BlockGroup.RestartLoads` | example/block/server.cc:371-394 | at any point of any run a replica can restart, and then has its descriptor at the start of the file of its snapshot, at the index of that, or of its old file, with the whole log to apply |
| `BlockGroup.SnapshotInstalls` | example/block/server.cc:371-394 | at any point of any run a replica can copy a snapshot of another that is not older and fits, and then starts from exactly that file at exactly that index |
| `BlockGroup.StopsAtRefused` | example/block/server.cc:120-158 | in every run a replica neither applies nor saves nor installs nor completes a download past an entry that is not acceptable under its limit |
| `BlockGroup.CatchesUpIff` | example/block/server.cc:253-313 | at any point of any run a replica can still apply the whole log if and only if every write in it is acceptable under its limit |
| `BlockGroup.RefusedWriteStops` | example/block/server.cc:287-299 | a write that is not acceptable under a replica's limit, committed at any point of any run, keeps it from ever catching up |
| `Profiling.ProfilingEnvironment.constructor` | melon/builtin/hotspots_service.cc:169-174 | no client, no waiters, no cached result, id 0 |
| `Profiling.ProfilingEnvironment.DoProfilingLocked` | melon/builtin/hotspots_service.cc:689-726 | queue behind a client, else answer from the cache on a matching id, else claim with the next non-zero id |
| `Profiling.ProfilingEnvironment.ConsumeWaiters` | melon/builtin/hotspots_service.cc:342-369 | cache the owner's page under the client's id, release the client, hand out the queue |
| `Profiling.StepKeepsInv` | melon/builtin/hotspots_service.cc:342-388 | every step of every handler keeps closures placed once, one owner, matching waiters, growing ids and blank pages of unfinished owners |
| `Profiling.DoneIsInOnePlace` | melon/builtin/hotspots_service.cc:689-726 | in every reachable state each closure is held by its handler, queued once, on one owner's list once, or has run once, exactly one of these |
| `Profiling.AllDoneRan` | melon/builtin/hotspots_service.cc:839-847 | when no handler has work left, every closure has run exactly once and nothing is queued or owned |
| `Profiling.NobodyIsStuck` | melon/builtin/hotspots_service.cc:689-847 | in every reachable state a handler with code left can take a step, unless it is arriving and ids are exhausted |
| `Profiling.WorkShrinks` | melon/builtin/hotspots_service.cc:689-847 | every step other than an arrival uses up a measure of the work left |
| `Profiling.QuietRunEnds` | melon/builtin/hotspots_service.cc:689-847 | without arrivals a run has at most as many steps as there was work |
| `Profiling.AllDoneRunAtRest` | melon/builtin/hotspots_service.cc:689-847 | where no handler can go on and ids are not exhausted, every closure has run exactly once and nothing is queued or owned |
| `Profiling.EveryDoneRuns` | melon/builtin/hotspots_service.cc:689-847 | from every reachable state with ids left for the work at hand, every run without arrivals has at most as many steps as there was work, and where it can go no further every closure has run exactly once |
| `Profiling.OnlyTouchedWritten` | melon/builtin/hotspots_service.cc:377-387 | a step changes no response but those of the controllers it touches |
| `Profiling.OnlyTouchedRead` | melon/builtin/hotspots_service.cc:377-387 | changing the response of any other controller beforehand changes nothing else about the step |
| `Profiling.NoUseAfterDone` | melon/builtin/hotspots_service.cc:377-387 | no step touches a controller whose closure has run |
| `Profiling.PageAfterDone` | melon/builtin/hotspots_service.cc:377-387 | in every run the response of a closure that has run never changes again |
| `Profiling.OwnerFindsClient` | melon/builtin/hotspots_service.cc:350-354 | there is at most one owner and its checks of the client, locked or not, always find it |
| `Profiling.EnterOutcome` | melon/builtin/hotspots_service.cc:689-726 | in every reachable state: who enters during a run joins the end of the queue; otherwise who asks for the cached result leaves, and anybody else starts the run with the next id |
| `Profiling.CompletedByOwnRun` | melon/builtin/hotspots_service.cc:691-698 | a waiter is completed by the run it queued behind |
| `Profiling.ReceivedPage` | melon/builtin/hotspots_service.cc:372-388 | in every run the page a completed client has received was given by the one step that ran its closure: a profile shown by itself or by the owner it waited for, the error page of a failed owner, or its own page |
| `Profiling.PageIsDecided` | melon/builtin/hotspots_service.cc:372-388 | in every run every page received goes back to one step of the client itself or of the owner of the run it waited for, which showed a profile if the run succeeded and an error if it failed, or to a hit in the cache |
| `Profiling.WaiterReceivesError` | melon/builtin/hotspots_service.cc:380-387 | in every reachable state a completed waiter waited for a run on record and, if that run failed, holds the same status and body as the owner of the run |
| `Profiling.WaitingIsBlank` | melon/builtin/hotspots_service.cc:383-385 | in every run the response of a waiter is blank until its closure runs, so appending to it gives the page that is appended |
| `Profiling.OwnerFirstIff` | melon/builtin/hotspots_service.cc:839-847 | in every reachable state the closure of an owner ran before that of one who waited for it if and only if the run succeeded |
| `Profiling.WaitersInOrder` | melon/builtin/hotspots_service.cc:380-387 | in every run those who waited for one run are completed in the order they joined the queue |
| `Profiling.IdsGrow` | melon/builtin/hotspots_service.cc:700-724 | ids of new runs exceed all earlier ones and 0, so a request without an id never hits the cache |
| `Profiling.CacheAfterRun` | melon/builtin/hotspots_service.cc:355-361 | releasing the client hands the whole queue to the owner; a failed run caches its error page, a successful one a page nothing has been written to yet |
| `Profiling.HitFindsRun` | melon/builtin/hotspots_service.cc:700-708 | a cache hit belongs to the finished run whose id the request carries: its owner's page if it failed, a blank page if not |
| `Profiling.HitReceives` | melon/builtin/hotspots_service.cc:700-708 | in every run, from a hit on, the response of the request holds exactly that page: the owner's error page or a blank one |
| `Profiling.HitAgreesIff` | melon/builtin/hotspots_service.cc:839-847 | in every run, a hit returns the page the owner of that run ended with if and only if the run failed or that page is blank |
| `Profiling.HitIsBlank` | melon/builtin/hotspots_service.cc:839-847 | for every page a run in which the owner showed it and a later request for that result is given a blank page |
| `Descriptors.PushChildren` | melon/builtin/protobufs_service.cc:60-69 | pushes exactly the message and group field types that are not recorded |
| `Descriptors.ChildrenAre` | melon/builtin/protobufs_service.cc:62-64 | the types that count are those of message fields and group fields |
| `Descriptors.VisitKeepsChildrenAbove` | melon/builtin/protobufs_service.cc:56-70 | above every stack occurrence of a recorded message lies each of its unrecorded children |
| `Descriptors.VisitMakesProgress` | melon/builtin/protobufs_service.cc:56-70 | popping a recorded message pushes nothing, popping another records it |
| `Descriptors.VisitKeepsComplete` | melon/builtin/protobufs_service.cc:56-70 | children of recorded messages are recorded or on the stack |
| `Descriptors.VisitKeepsSound` | melon/builtin/protobufs_service.cc:56-70 | everything recorded or on the stack is reachable, and recorded messages carry their own text |
| `Descriptors.CollectMessages` | melon/builtin/protobufs_service.cc:56-70 | terminates on every graph; records exactly the reachable messages, each with its own text, and keeps all other entries |
| `Descriptors.RecordServices` | melon/builtin/protobufs_service.cc:41-55 | records exactly the user services and stacks their method types |
| `Descriptors.RootsAre` | melon/builtin/protobufs_service.cc:43-54 | the stacked types are exactly the input and output types of user services |
| `Descriptors.ProtobufsService.constructor` | melon/builtin/protobufs_service.cc:33-35 | a constructed service is initialised |
| `Descriptors.ProtobufsService.Init` | melon/builtin/protobufs_service.cc:37-72 | the map holds the user services and the messages reachable from them, each with its own text, and nothing else |
| `Wildcard.LaterStarSubsumes` | melon/builtin/common.cc:67-81 | a match an earlier star could still find is also found by the later star |
| `Wildcard.StarStep` | melon/builtin/common.cc:68-73 | passing a star loses no match and uses up step budget |
| `Wildcard.AdvanceStep` | melon/builtin/common.cc:74-76 | matching one character loses no match and uses up step budget |
| `Wildcard.BacktrackStep` | melon/builtin/common.cc:77-80 | on a mismatch a star was passed before, and retrying it one further loses no match |
| `Wildcard.EndOfInput` | melon/builtin/common.cc:83-86 | at the end of the input there is a match exactly when only stars are left |
| `Wildcard.OnlyStars` | melon/builtin/common.cc:83-86 | the last loop tells whether only stars are left |
| `Wildcard.ScanStars` | melon/builtin/common.cc:67-86 | exact answer from the first star on, within the step budget |
| `Wildcard.UrlWildcmp` | melon/builtin/common.cc:55-87 | true exactly when the pattern matches; the scanning loops make at most (pattern length + 1) * (input length + 1) iterations |
| `Wildcard.MatchesIff` | melon/builtin/common.cc:55-87 | a pattern matches exactly the inputs that are cut into one piece for each of its characters: any piece for a star, one character for a dollar, the character itself for any other |
| `Wildcard.MatchAnyWildcard` | melon/builtin/common.cc:89-97 | true exactly when some pattern matches |
| `Wildcard.LiteralMatchesItself` | melon/builtin/common.cc:55-87 | a pattern without wildcard characters matches itself only |
| `FilePath.ScanStep` | melon/builtin/common.cc:192-201 | cutting off a component and counting it keeps: the cut-off part leads up by the pending pops less one, or down to one name when none is pending |
| `FilePath.TargetFromPrefix` | melon/builtin/common.cc:176-205 | the parent of the directory is the remaining prefix moved up by the pending pops, clamped at the root |
| `FilePath.FirstComponentOutcome` | melon/builtin/common.cc:180-191 | where the loop discards the first component of a relative path, the result is right exactly under Resolvable |
| `FilePath.StoppedVerdict` | melon/builtin/common.cc:176-217 | wherever the loop stops, the rebuilt string denotes the parent exactly under Resolvable |
| `FilePath.ScanBack` | melon/builtin/common.cc:176-205 | the loop ends in one of its three stopping cases, with a prefix of the directory |
| `FilePath.Rebuild` | melon/builtin/common.cc:206-217 | an emptied directory becomes the root, or as many ".." as pops are left |
| `FilePath.AppendDotDot` | melon/builtin/common.cc:175-217 | the result denotes the parent if and only if Resolvable holds; absolute stays absolute |
| `FilePath.AppendFileName` | melon/builtin/common.cc:150-220 | for every directory and every name, slashes included: the result denotes where the two lead together if and only if Resolvable holds, which every absolute directory satisfies; the string itself is the name for an empty directory, the directory for an empty name or ".", and directory, one slash and name for any other than ".." |
| `FilePath.AppendName` | melon/builtin/common.cc:156-173 | a name is appended behind a slash, which is added only if there is none, and the result denotes where the two lead |
| `FilePath.AppendedDenotes` | melon/builtin/common.cc:156-174 | a name or path appended behind a slash, present or added, walks on along its components |
| `FilePath.NameThenParent` | melon/builtin/common.h:93-101 | going down to a name and up again is always resolvable and leads back |
| `FilePath.UpFromOne` | melon/builtin/common.cc:180-191 | from a relative path of one component ".." leads to ".." if the component has one character and to the empty string otherwise, which is right if and only if the component is "." or has two or more characters and is not ".." |
| `FilePath.DocumentedRuleFails` | melon/builtin/common.h:93-101 | the strings produced on two inputs where the documented rules fail, beside one where they hold |
| `Flags.ParseConstraint` | melon/builtin/flags_service.cc:199-211 | fields between separators are split into patterns, which contain '$' or '*', and exact names, which do not |
| `Flags.FieldsAre` | melon/builtin/flags_service.cc:203-211 | the fields are exactly the non-empty stretches without ',' and ';' that have one of them, or an end of the constraint, on either side |
| `Flags.TwoFields` | melon/builtin/flags_service.cc:203-211 | two names with either separator between are two fields, in order |
| `Flags.WantedIff` | melon/builtin/flags_service.cc:199-254 | a flag is wanted if and only if there is no constraint or such a stretch of it, as a pattern, matches the name |
| `Flags.SplitSelectsSame` | melon/builtin/flags_service.cc:246-248 | the split selects what matching every field as a pattern selects |
| `Flags.ListExact` | melon/builtin/flags_service.cc:228-237 | lists each flag with an exact name once |
| `Flags.ListScan` | melon/builtin/flags_service.cc:239-253 | lists each wanted flag once |
| `Flags.ListFlags` | melon/builtin/flags_service.cc:199-254 | both paths list exactly the flags some field matches, each once |
| `Flags.HtmlReplace` | melon/builtin/flags_service.cc:46-75 | the loop computes the per-character escape |
| `Flags.SpecialsAreEscaped` | melon/builtin/flags_service.cc:46-75 | wherever they stand, "<", ">" and "&" become "&lt;", "&gt;" and "&amp;" |
| `Flags.OthersAreKept` | melon/builtin/flags_service.cc:46-75 | text without these three is left as it is |
| `Flags.EscapeRoundTrip` | melon/builtin/flags_service.cc:46-75 | unescaping undoes escaping for every text |
| `Flags.EscapedHasNoBrackets` | melon/builtin/flags_service.cc:46-75 | escaped text has no markup brackets |
| `Symbols.FindSymbols` | melon/builtin/pprof_service.cc:499-522 | each address is answered by the entry with the greatest address at or below it |
| `Symbols.ResolveNearest` | melon/builtin/pprof_service.cc:499-522 | an address is answered by the name of the nearest entry at or below it, and is unresolved if that is blank |
| `Symbols.NoneNearest` | melon/builtin/pprof_service.cc:499-522 | an address below all entries is unresolved |
| `Symbols.Compact` | melon/builtin/pprof_service.cc:475-490 | the erasing loop leaves the compacted table and counts what it removed |
| `Symbols.CompactedEntries` | melon/builtin/pprof_service.cc:475-490 | compaction keeps every named entry and the lowest blank one |
| `Symbols.CompactionSafe` | melon/builtin/pprof_service.cc:475-522 | with one run of blanks every address keeps its answer |
| `Symbols.CompactionBreaks` | melon/builtin/pprof_service.cc:475-522 | with a second run there is an address whose answer changes |
| `Symbols.CompactionKeepsAnswersIff` | melon/builtin/pprof_service.cc:475-522 | every answer is kept if and only if the blank entries form one run |
| `Symbols.BlanksTogetherMeans` | melon/builtin/pprof_service.cc:475-490 | one run means that only blank entries lie between blank entries |
| `Symbols.CompactedRunsKeepsAnswers` | melon/builtin/pprof_service.cc:475-490 | clearing the flag at named entries would keep every answer of every table |
| `Symbols.CompactedRunsEntries` | melon/builtin/pprof_service.cc:475-490 | that change would keep every named entry and the first blank one of each run, and no others |
| `Symbols.NameEnd` | melon/builtin/pprof_service.cc:349-377 | the name ends at the first line end, or bracket that directly follows a word |
| `Symbols.CandidateIs` | melon/builtin/pprof_service.cc:340-377 | the name taken from a text, by its characters: none for the five excluded beginnings, otherwise the part up to a line end or to a bracket behind a letter, digit or underscore |
| `Symbols.ArgumentsAreCut` | melon/builtin/pprof_service.cc:360-369 | of a name with its arguments in brackets the name is left |
| `Symbols.RelocatedLands` | melon/builtin/pprof_service.cc:320-322 | an address below the start of the library moves by start minus offset, modulo 2^64; any other stays |
| `Symbols.ExtractSymbols` | melon/builtin/pprof_service.cc:310-393 | each address below the end of the library ends with its prior name merged with its candidates: a record of a memory address is found there, one of a file address at start - offset + address, with a name no longer than its own, and no address takes a name from a record that lands elsewhere; the end address gets a blank entry if it has none |
| `Symbols.FinalNameIsShortest` | melon/builtin/pprof_service.cc:340-389 | no name in play for an address is shorter, excluded kinds counting as blank |
| `Symbols.FinalNameIsInPlay` | melon/builtin/pprof_service.cc:378-389 | the final name is the prior one or that of a record that lands at the address, the first of the shortest |
| `Symbols.LoadSymbols` | melon/builtin/pprof_service.cc:399-497 | the table holds the names all binaries that nm could be run on give each address, compacted |
| `Symbols.NameIsShortest` | melon/builtin/pprof_service.cc:310-393 | an address that a record of any binary lands at has a name, no longer than that of the record |
| `Symbols.FunctionIsFound` | melon/builtin/pprof_service.cc:399-522 | compacted or not, the table answers at the address of a function with the name of a record that lands there, a shortest among all binaries |
| `Symbols.ProgramKeepsAddresses` | melon/builtin/pprof_service.cc:460-473 | records of the program land at their own addresses |
| `Symbols.LoadedAnswersKept` | melon/builtin/pprof_service.cc:399-497 | for all binaries, whether nm could be run on them or not: compaction keeps every answer if and only if no function lies between two blank entries |
| `Symbols.HighestIsBlank` | melon/builtin/pprof_service.cc:325-393 | no binary ever names the highest address |
| `Symbols.LoadedAnswersKeptIff` | melon/builtin/pprof_service.cc:399-497 | for all libraries and program symbols, nm having run on the program: compaction keeps every answer if and only if every function lies below every blank entry |
| `Symbols.LibraryBelowProgram` | melon/builtin/pprof_service.cc:399-497 | one library below one function of the program changes answers |
| `Prometheus.MatchSuffix` | melon/builtin/prometheus_metrics_service.cc:111-147 | the first suffix that fits, in the order they are tried |
| `Prometheus.Dumper.ProcessLatencyRecorderSuffix` | melon/builtin/prometheus_metrics_service.cc:108-149 | the item is recorded in the slot of its group |
| `Prometheus.Dumper.Dump` | melon/builtin/prometheus_metrics_service.cc:88-106 | strings are skipped, group items may emit a summary, everything else is a gauge |
| `Prometheus.DumpAll` | melon/builtin/prometheus_metrics_service.cc:204-211 | the output of a stream is that of its items in order |
| `Prometheus.GaugesByName` | melon/builtin/prometheus_metrics_service.cc:82-106 | for every configuration and stream the gauges written, in order, are one for each numeric variable that is not under the server prefix or ends in none of the eight suffixes, with its name, its text, and as metrics name the longest part of the name without an opening brace |
| `Prometheus.GroupsHoldGathered` | melon/builtin/prometheus_metrics_service.cc:108-149 | at any point a group holds exactly what the stream so far held for its prefix |
| `Prometheus.MaxLatencyIsLast` | melon/builtin/prometheus_metrics_service.cc:127-131 | no suffix of a group sorts after "_max_latency" |
| `Prometheus.SummaryAtMaxLatency` | melon/builtin/prometheus_metrics_service.cc:127-189 | in a sorted stream a group item emits something only if it is "_max_latency" of a non-empty prefix, and then one summary of all the stream holds for the prefix |
| `Prometheus.ExactlyOneSummary` | melon/builtin/prometheus_metrics_service.cc:151-189 | an item writes a summary if and only if it is its prefix's "_max_latency", with everything the stream holds; no other item has the same slot |
| `Prometheus.NameLandsInSlot` | melon/builtin/prometheus_metrics_service.cc:111-147 | for all accepted flags each name lands in its own slot, except a percentile configured twice, which lands in the first slot that has it, and the average of a prefix ending in "_max", which lands as the maximum of the shorter prefix |
| `Prometheus.SummariesByName` | melon/builtin/prometheus_metrics_service.cc:88-189 | for every sorted stream and every prefix the whole output holds exactly one summary of that name if the stream has a numeric server variable of the prefix with "_max_latency", none otherwise, and each entry is the text of the variable of that name, or the default, unless that name lands elsewhere |
| `Prometheus.SummaryShows` | melon/builtin/prometheus_metrics_service.cc:111-189 | each entry of a summary by the name of the variable whose text or number it shows |
| `Prometheus.TextIs` | melon/builtin/prometheus_metrics_service.cc:88-98 | in a sorted stream a name has a text if and only if the stream has that item, the name is under the server prefix and the text is not a string |
| `Prometheus.EverySummaryIsNamed` | melon/builtin/prometheus_metrics_service.cc:151-189 | no other summaries are written |
| `Prometheus.AverageKeptIff` | melon/builtin/prometheus_metrics_service.cc:134-189 | the one summary written for a prefix shows the average of its "_latency" if and only if the prefix does not end in "_max" or that average is 0 or absent |
| `Prometheus.AverageIsLost` | melon/builtin/prometheus_metrics_service.cc:111-139 | for every name under the server prefix a recorder of that name with "_max" loses its average, and a summary for the name appears with that average as its maximum |
| `Prometheus.AverageIsLostInService` | melon/builtin/prometheus_metrics_service.cc:204-211 | the same for the prefix the service passes, melon/rpc/server.cc:93, and the default flags |

## Left out

- The raft, RPC, fiber, IOBuf and protobuf libraries: what they guarantee enters as the committed log, the codec parameter and the enabled steps; a snapshot is never replaced by an older one, as `melon/raft/snapshot_executor.cc:196` and `:522` ensure.
- Protobuf: only messages whose fields are varints; limits on the length of a varint and the skipping of other field kinds are not modelled. Proofs about log entries are for any codec that inverts; the counter's snapshot file is fixed to this serialiser.
- Loss of unsynchronised pages on power failure: `BlockGroup` models crashes of the process, not of the machine.
- BlockServer.Block.FilePwrite: a system call that writes nothing and reports no error, which the source would repeat, ends the loop as a failure does.
- BlockServer.Block.Read: says nothing about a deposed leader that still believes it leads; that depends on raft leases.
- Profiling: the four profile kinds have independent environments, so one is modelled; starting profilers, running perl, and reading and writing files appear only as the page a handler ends up with.
- Prometheus: the text layout of summaries and gauges, quantile labels, the product of average and count, and the second dumper for multi-dimensional variables.
- Symbols.ExtractSymbols: starts from records whose address and one-letter type have been read; splitting `nm` lines is not modelled.
- Symbols.LoadSymbols: starts from the mapped libraries; reading them from `/proc/self/maps` is not modelled.
- Flags.ListFlags: flag lookup is by exact name; a flag library that also accepts dashes for underscores would find more on the exact path. Setting flags and page layout are not modelled.
- FilePath.AppendFileName: strings with embedded NUL characters, which C comparison would cut short, are not considered.
- The order in which the exact path of the flag page lists flags: only the set and the absence of duplicates are stated.
- The echo, http, grpc, redis, memcache, streaming and partition examples, HTML and script texts, input vetting, date printing and the concurrency limiter: wrappers, user interface or foreign code.
