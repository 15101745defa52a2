# A verified model of four MatrixOne components

This project models four parts of the MatrixOne database in Dafny and
proves properties of the model:

- the variable-length byte-string column of a vector (`Bytes`:
  concatenated data, 32-bit offsets and lengths);
- the inner hash join operator, with its build phase, its probe phase
  that resumes across calls, and the residual join condition;
- the merge operator of a recursive common table expression (CTE), with
  its initial, last-tag and recursive states and its per-round barrier
  over the recursive workers;
- the publication/subscription helpers that work on separator-delimited
  table and account lists.

Files and modules:

- `common.dfy` (`Common`): the vocabulary shared by the operators. It
  holds options, errors, register messages and call results. A register
  is a scripted sequence of messages; once the script is used up, the
  register is closed and delivers end of stream.
- `bytes.dfy` (`VectorBytes`): the `Bytes` class. `Append` is modelled
  with 32-bit wrap-around of the offsets and lengths.
- `join.dfy` (`HashJoin`): the `InnerJoin` class and the specification
  functions of its build and probe phases.
- `mergecte.dfy` (`MergeCte`): the `Argument` class and the
  specification of its receive loop.
- `seqs.dfy` (`Seqs`) models `strings.Split` and `strings.Join`; `text.dfy`
  (`Text`) models `strings.TrimSpace`, `strings.ToLower` (its ASCII part),
  the string order of `slices.Sort`, and `%d`.
- `pubsub.dfy` (`PubSub`): the list-string helpers.

Each operator's `Call` is a method of its class. It is proved against
specification functions of the old state and the register scripts
(`BuildOutcome`, `ScanProbe`, `ProbeOutput`, `ProbeCursor`,
`ScanRecursive`). The Go code does some of its work inline; the model
splits it into helper methods (`BuildThenProbe`, `BuildState`, `ReceiveBuildOne`, `ReceiveProbeOne`, `ProbeRow`, `ProbeFrom`, `ProbeNext`, `ProbeChunk`,
`ReceiveOne`, `SendAnchor`, ...). The helpers do the same steps in the
same order.

Modelling choices worth knowing:

- Join, hash map: the hash map is given, not computed.
  - Every probe row comes with its answer from the map: bucket in use,
    key without nulls, 1-based group index.
  - The groups (`Sels`) are a map from the group index; a missing index is
    an empty group.
- Join, residual condition: given per (probe row, build row id) pair; a
  pair without a value is SQL null.
- Join, output rows: an output row names the probe row and the build row
  id. `Locate` says which build chunk and offset that id is read from.
- Join, with a residual condition: the row count the output declares
  counts every candidate pair, not only the rows the condition lets
  through. This is what the code does (lines 263 and 271 of `join.go`).
  It is proved as `CondCountsCandidates` and, on a concrete batch, as
  `CondCountsRejectedPair`.
- Join, "inner join hanging": this check can never fire. `ProbeHeld`
  proves that a probe call that keeps the batch always leaves the cursor
  past where it started.
- Join, bad build batch: a build batch other than the last that is not
  full makes the code panic. The model returns the error `WrongBuildBatch`
  instead.
- CTE: the recursive registers together are one scripted sequence, in the
  order the operator receives from them.
- CTE, double release: after a marker that does not complete a round is
  handed back to the pool, `buf` still refers to it. If the stream then
  ends, the next call hands the same batch back again (`Call`'s ensures,
  `buf == LastOf(sc.released)`). The model records this as the code does
  it. Whether it is harmful depends on the batch pool, which is not part
  of this model.

## Model

| member | source | states |
|---|---|---|
| VectorBytes.Bytes.Reset | pkg/container/vector/bytes.go:8-12 | the offsets, lengths and data are all empty, so the column holds no values |
| VectorBytes.Bytes.Append | pkg/container/vector/bytes.go:14-23 | `Data` is extended by the values' bytes; `Os` gets each value's offset (old data length plus the earlier values' lengths) and `Ns` its length, both modulo 2^32. Without wrap-around the column then holds the old values followed by the new ones |
| VectorBytes.DecodeAppend | pkg/container/vector/bytes.go:15-20 | offsets and lengths computed as `Append` does select exactly the appended values, and every value stored before still decodes to the same bytes |
| VectorBytes.AppendedSlot | pkg/container/vector/bytes.go:15-20 | for the j-th appended value, the offset is the old data length plus the earlier lengths, and the length is its own |
| VectorBytes.WrappingAdd | pkg/container/vector/bytes.go:19 | accumulating `o += uint32(len(v))` in 32 bits gives the running total modulo 2^32 |
| VectorBytes.Bytes.Window | pkg/container/vector/bytes.go:25-31 | the window has the same `Data` value, and its `Os` and `Ns` are the original's sliced to `[start:end]`. Its value i is the original's value start+i at the time of the call |
| VectorBytes.Bytes.String | pkg/container/vector/bytes.go:33-46 | the result is `[`, the values separated by single spaces, then `]` |
| VectorBytes.RenderEmpty | pkg/container/vector/bytes.go:33-46 | an empty column renders as `[]` |
| VectorBytes.RenderRoundTrip | pkg/container/vector/bytes.go:33-46 | when no value holds a space, splitting the rendering between the brackets at spaces gives the values back |
| VectorBytes.Bytes.ToStrings | pkg/container/vector/bytes.go:48-57 | one string per value, equal to that value, in order |
| HashJoin.InnerJoin.constructor | pkg/sql/colexec/join/join.go:40-57 | a fresh operator in the build state with no hash map, no batches and no probe batch |
| HashJoin.InnerJoin.ReceiveHashMap | pkg/sql/colexec/join/join.go:129-140 | one message is read from the build register. Its error is returned; the hash map is taken from a batch's auxiliary data when present and is otherwise left as it was |
| HashJoin.InnerJoin.ReceiveBuildOne | pkg/sql/colexec/join/join.go:144-154 | one build receive: a message with a batch appends it, keeps the row count and leaves the rest of the scan to `ScanBuild` from the next position. A message with an error or without a batch ends the scan with that error and leaves the batches as they were |
| HashJoin.InnerJoin.ReceiveBatch | pkg/sql/colexec/join/join.go:142-162 | the build batches are exactly those of the messages up to the first message with an error or without a batch. The row count is their sum. The result is an error exactly when a message carried one or a batch other than the last is not full |
| HashJoin.ScanBuildMessages | pkg/sql/colexec/join/join.go:143-155 | the collected batches are the messages' batches in arrival order, and the scan stops at the first message with an error or without a batch |
| HashJoin.ScanBuildAt | pkg/sql/colexec/join/join.go:143-154 | the k-th collected batch is the batch of the k-th message from the start position, and that message carries no error |
| HashJoin.InnerJoin.CheckBuildBatches | pkg/sql/colexec/join/join.go:156-160 | no error exactly when every batch but the last has `DefaultBatchSize` rows |
| HashJoin.InnerJoin.BuildSide | pkg/sql/colexec/join/join.go:164-170 | `build` is the hash-map receive and then the batch receive; it stops at the first error |
| HashJoin.BuildOutcome | pkg/sql/colexec/join/join.go:164-170 | when the build succeeds, every build batch but the last is full and no message carried an error |
| HashJoin.Locate | pkg/sql/colexec/join/join.go:233 | build row `id` is read from chunk `id / size` at offset `id % size`, with `chunk * size + offset == id` and the offset below the chunk size |
| HashJoin.LocateInBounds | pkg/sql/colexec/join/join.go:233-234 | when every chunk but the last is full, a build row id below the total row count names an existing chunk and a row inside it |
| HashJoin.InnerJoin.ReceiveProbeOne | pkg/sql/colexec/join/join.go:84-106 | one receive: an error, the end of the stream, a marker or a non-empty batch with a hash map ends the receiving as `ScanProbe` says; any other batch is the message just received, is handed back to the pool, and the rest of the receiving is `ScanProbe` from the next position |
| HashJoin.InnerJoin.ReceiveProbe | pkg/sql/colexec/join/join.go:83-106 | probe receives skip and hand back the empty batches, and every batch while there is no hash map. They stop at an error, the end of the stream, a last-batch marker, or a non-empty batch to probe |
| HashJoin.ScanProbeFacts | pkg/sql/colexec/join/join.go:88-105 | a batch to probe is non-empty, not a marker, and is received only while there is a hash map; every skipped batch was empty or had no map to probe against |
| HashJoin.EvalApCondForOneSel | pkg/sql/colexec/join/join.go:284-320 | a pair gives its output row exactly when the condition is true; a false or null condition gives no row |
| HashJoin.ProbeRow | pkg/sql/colexec/join/join.go:219-273 | a probe row without a match (bucket unused, null key or group 0) emits nothing. Otherwise it emits its candidates' rows in order, filtered by the condition when there is one, and adds the number of candidates to the declared count |
| HashJoin.EmitLength | pkg/sql/colexec/join/join.go:225-272 | a probe row emits at most one row per candidate (exactly one without a condition), and every row it emits is its own |
| HashJoin.PrimaryKeyEmitsAtMostOne | pkg/sql/colexec/join/join.go:226-239 | with the key on the primary key and no condition, a probe row emits at most one row. It emits one exactly when it matches, and that row pairs it with build row `val - 1` |
| HashJoin.GroupEmitsInOrder | pkg/sql/colexec/join/join.go:241-256 | in general mode without a condition, a matching probe row emits one row per member of its group, in group order |
| HashJoin.NoCondCountsEmitted | pkg/sql/colexec/join/join.go:239-256 | without a condition, the declared row count is the number of rows emitted |
| HashJoin.CondCountsCandidates | pkg/sql/colexec/join/join.go:259-272 | with a condition, the declared row count is at least the number of rows emitted (it counts candidate pairs) |
| HashJoin.CondCountsRejectedPair | pkg/sql/colexec/join/join.go:259-263 | one probe row with one candidate whose condition is false declares one row and emits none |
| HashJoin.ProbeFrom | pkg/sql/colexec/join/join.go:200-281 | the probe loop from the cursor returns the rows of the probe rows up to where it stops, with their declared count. The new cursor is the stopping row, or 0 when it ran to the end of the batch |
| HashJoin.ProbeNext | pkg/sql/colexec/join/join.go:204-275 | one pass of the probe loop, taken while the count is below the batch size, advances the cursor by `UnitLimit` rows (or to the end of the batch); the output and count become those of the probe rows from the start to the new cursor, and the stopping row is unchanged |
| HashJoin.ProbeChunk | pkg/sql/colexec/join/join.go:212-274 | one chunk of at most `UnitLimit` rows extends the output and the count by those rows' own |
| HashJoin.ProbeStop | pkg/sql/colexec/join/join.go:204-211 | the probe stops early only at a row inside the batch and past the start |
| HashJoin.ProbeStopFull | pkg/sql/colexec/join/join.go:205 | the probe stops early only once the declared row count has reached `DefaultBatchSize` |
| HashJoin.ProbeStopAligned | pkg/sql/colexec/join/join.go:204 | the probe stops only at a chunk start, a whole number of `UnitLimit` steps past the start |
| HashJoin.ProbeStopFirst | pkg/sql/colexec/join/join.go:204-206 | the converse: the probe stops, at the latest, at the first chunk start inside the batch whose declared row count has reached `DefaultBatchSize`. With `ProbeStopFull` and `ProbeStopAligned`, the stop is exactly that first full chunk start |
| HashJoin.ProbeCursor | pkg/sql/colexec/join/join.go:204-281 | the cursor after a call is 0 exactly when the call ran to the end of the batch; otherwise it lies strictly inside the batch, past the start |
| HashJoin.InnerJoin.ProbeBatch | pkg/sql/colexec/join/join.go:172-281 | `probe` sets the result batch to the probe output and moves the cursor. The rows emitted for the batch so far are those of all probe rows before the new end |
| HashJoin.EmittedRangeSplit | pkg/sql/colexec/join/join.go:204 | the rows over several calls are those of one pass: the output of rows from..to is that of from..mid followed by mid..to |
| HashJoin.CountedRangeSplit | pkg/sql/colexec/join/join.go:203-206 | declared counts over split ranges add up |
| HashJoin.InnerJoin.BuildThenProbe | pkg/sql/colexec/join/join.go:69-119 | a call in the build state, as `BuildStepped` states it. It keeps the batches and the hash map received, the map even when the build fails. A failed build returns its error and stays in the build state. A build with no hash map for a join that is not a shuffle join moves to the end state. Both leave the probe cursor, the last output, the emitted rows and the held batch as they were. Otherwise the call goes on as one step of the probe state |
| HashJoin.InnerJoin.BuildState | pkg/sql/colexec/join/join.go:71-80 | builds as `BuildOutcome` says, keeping the hash map received; a failed build stays in the build state, otherwise the state becomes End when there is no hash map and the join is not a shuffle join, and Probe otherwise |
| HashJoin.InnerJoin.ProbeHeld | pkg/sql/colexec/join/join.go:109-119 | after probing, a finished batch is handed back and dropped, and a batch that is kept had its cursor moved forward, so the hanging error cannot occur. The output is left in `rbat` until the next probe, and the rows emitted so far are kept for a batch still in progress and cleared for a finished one. For a finished batch, the rows over all calls are those of all its rows |
| HashJoin.InnerJoin.ProbeState | pkg/sql/colexec/join/join.go:82-119 | the probe state, as `ProbeStepped` states it per kind of input: an error is returned; the end of the stream moves to the end state; a marker is passed on. These three leave the cursor, the last output `rbat` and the rows emitted so far as they were. A batch to probe is probed |
| HashJoin.InnerJoin.Call | pkg/sql/colexec/join/join.go:59-127 | after the cancellation check, the build state goes as `BuildStepped` says. The hash map received is kept on every path, a failed build included. A failed build returns its error and stays in the build state, and the probe cursor, the held batch and the output are untouched. On success it moves to the end state when there is no hash map and the join is not a shuffle join, touching nothing else, and to the probe state otherwise. The probe state probes as `ProbeStepped` says, and an error, the end of the stream or a marker leaves the cursor, `rbat` and the emitted rows as they were. The end state returns no batch and the stop status. The invariant holds across calls, and once out of the build state every build batch but the last is a full chunk |
| MergeCte.MakeRecursiveBatch | pkg/sql/colexec/mergecte/mergecte.go:112-122 | the marker batch has one column with one name and one row, and it is flagged last, so it is read as a marker and not as rows |
| MergeCte.Argument.constructor | pkg/sql/colexec/mergecte/mergecte.go:34-43 | `nodeCnt` and `curNodeCnt` are the number of receivers minus 1; the status is `sendInitial` and the level is 0 |
| MergeCte.Argument.Call | pkg/sql/colexec/mergecte/mergecte.go:45-110 | see the rows below. After the cancellation check, the batch of the previous call is handed back first. The level never decreases. A call in the recursive state receives `MarkersOf(sc)` markers: the ones it hands back, plus one for a completed round or the recursion-limit report. A call in the initial state receives none. The invariant keeps, between calls, `curNodeCnt <= nodeCnt`, `1 <= curNodeCnt` when there is a worker, and `markers == level * nodeCnt + (nodeCnt - curNodeCnt)` |
| MergeCte.Argument.SendAnchor | pkg/sql/colexec/mergecte/mergecte.go:60-76 | an anchor error stops with the stop status and that error. A non-nil anchor batch is returned unchanged and the status stays `sendInitial`. A nil anchor batch, in the same call, moves to `sendRecursive`, stops receiving from the anchor and returns the recursive marker batch |
| MergeCte.Argument.SendRecursiveBatch | pkg/sql/colexec/mergecte/mergecte.go:77-109 | the recursive state as `ScanRecursive` says. The end of the stream returns no batch, the stop status and no error. Rows and a round's marker are returned. The recursion limit returns the stop status and the recursion error |
| MergeCte.Argument.ReceiveRecursive | pkg/sql/colexec/mergecte/mergecte.go:78-103 | the receive loop's countdown, the level, the register position and the handed-back markers are those of `ScanRecursive` |
| MergeCte.Argument.ReceiveOne | pkg/sql/colexec/mergecte/mergecte.go:79-102 | one pass of the receive loop: a non-last batch is passed on unchanged with the counters untouched; a marker counts down, completes the round at zero, or is handed back |
| MergeCte.Argument.CountMarker | pkg/sql/colexec/mergecte/mergecte.go:91-94 | a marker decrements `curNodeCnt`; at zero `curNodeCnt` is reset to `nodeCnt` and the level rises by one |
| MergeCte.ScanRecursiveFacts | pkg/sql/colexec/mergecte/mergecte.go:78-103 | rows and end of stream leave the level alone. A round's marker raises it by exactly one and resets the countdown. The level passes the limit exactly when the error is reported; handed-back markers are all last-flagged |
| MergeCte.ScanRecursiveBounds | pkg/sql/colexec/mergecte/mergecte.go:90-102 | with the countdown between 1 and `nodeCnt`, a call hands back fewer markers than the countdown and leaves it between 1 and `nodeCnt` |
| MergeCte.LevelCountsRounds | pkg/sql/colexec/mergecte/mergecte.go:90-99 | the barrier: the level is the number of complete rounds of `nodeCnt` markers, and `nodeCnt - curNodeCnt` is the number of markers already in for the round in progress |
| PubSub.InSubMetaTables | pkg/common/pubsub/utils.go:33-44 | true exactly when the lower-cased table list is the all-tables marker or the table name is exactly one of the split elements |
| PubSub.AddSingleQuotesJoin | pkg/common/pubsub/utils.go:46-51 | `""` for no elements; otherwise each element in single quotes, separated by commas |
| PubSub.SplitAccounts | pkg/common/pubsub/utils.go:53-61 | no accounts for `""`; otherwise the split pieces, each trimmed of white space, in order |
| PubSub.SplitAccountsTrimmed | pkg/common/pubsub/utils.go:53-61 | no account name starts or ends with white space |
| PubSub.SplitAccountsOfJoin | pkg/common/pubsub/utils.go:53-61 | splitting a non-empty join of trimmed names (none holding the separator) gives the names back |
| PubSub.JoinAccounts | pkg/common/pubsub/utils.go:63-70 | the map's account names, one per entry, sorted ascending and joined by the separator, whatever order the map is visited in |
| PubSub.SortedNamesUnique | pkg/common/pubsub/utils.go:63-70 | any sorted arrangement of the names is the one `JoinAccounts` joins |
| PubSub.JoinAccountIds | pkg/common/pubsub/utils.go:72-82 | `""` for no ids; otherwise the decimal renderings of the ids in input order, separated by commas |
| PubSub.JoinAccountIdsRoundTrip | pkg/common/pubsub/utils.go:72-82 | splitting the result at commas and parsing each piece gives the ids back |
| PubSub.CanPubToAllPieces | pkg/common/pubsub/utils.go:84-89 | true exactly when the list is the all-accounts marker, or the list is not empty and one of its separator-split pieces, trimmed of white space, is the account name |
| PubSub.CanPubToAllListed | pkg/common/pubsub/utils.go:84-89 | for a list of trimmed names, true exactly when the list is the all-accounts marker or the account is listed |
| PubSub.RemoveTable | pkg/common/pubsub/utils.go:91-105 | the all-tables marker is kept; otherwise the other tables, sorted ascending and joined by the separator |
| PubSub.RemainingTables | pkg/common/pubsub/utils.go:96-103 | the remaining list is sorted, does not hold the removed table, and holds every other table as often as the old list |
| PubSub.RemovedTableNotListed | pkg/common/pubsub/utils.go:91-105 | with a one-character separator, splitting the result no longer yields the removed table |
| Seqs.JoinSplit | pkg/common/pubsub/utils.go:96-104 | joining the pieces of a split with the same separator gives back the input |
| Seqs.SplitCountSingle | pkg/common/pubsub/utils.go:57 | a one-character separator splits a string into one more piece than it occurs |
| Seqs.SplitPiecesAvoidSep | pkg/common/pubsub/utils.go:38 | no piece of a split holds the separator |
| Text.TrimSpace | pkg/common/pubsub/utils.go:58 | the result is the middle of the input between its leading and trailing white space, and it neither starts nor ends with white space |
| Text.ToLower | pkg/common/pubsub/utils.go:34 | same length, every character lower-cased |
| Text.Sort | pkg/common/pubsub/utils.go:68 | the result is sorted and a permutation of the input |
| Text.SortDependsOnlyOnElements | pkg/common/pubsub/utils.go:68 | sorting depends only on the multiset of the elements |
| Text.DecimalRoundTrip | pkg/common/pubsub/utils.go:77-79 | parsing a `%d` rendering gives back the integer |

## Left out

- Memory pools, capacities, the analyzer (`anal.*`), `String` methods of the operators and `OpType`: they do not change what the operators compute.
- I/O and concurrency: the registers are scripted message sequences. The select-based receive from several registers is one fixed interleaving.
- `vm.CancelCheck` is a boolean input. A cancelled call returns the cancel result and the `Canceled` error; the code returns the context's own error.
- The hash map's internals (hashing, `Find`, `DupJmAuxData`, `maxAllocSize`) are left out. The map's answer for each probe row is part of the probe batch.
- `evalJoinCondition`, the expression evaluator and `SetJoinBatchValues` are not modelled, and nor are their errors or those of `UnionOne`/`UnionMulti`. The condition's value is given per pair.
- HashJoin.InnerJoin.ProbeBatch: the output rows say which probe row and which build row id they join. The column vectors of `rbat` (`Result` positions and types, `SetSorted`) are not built. Go takes the type of each build-side result column from `ctr.batches[0]` without checking that a build batch exists (join.go:186), unlike the guarded `batchRowCount > 0` at join.go:196. So a hash map with no build batches and a build-side result column panics in Go, while the model probes as usual.
- Go `int`/`int64` overflow of row counts and indexes, and the `int32` conversion of the receiver count in `Prepare`, are not modelled. The counters are unbounded integers.
- `DefaultBatchSize`, `UnitLimit`, `moDefaultRecursionMax`, `Sep`, `TableAll` and `PubAllAccounts` are defined outside these files and are parameters here. `DefaultBatchSize` and `UnitLimit` must be positive, and `Sep` non-empty.
- HashJoin.InnerJoin.ReceiveBatch: the panic for a wrong build batch is a `WrongBuildBatch` error.
- HashJoin.Group: an index with no group gives an empty group. The Go code would index `Sels` out of range.
- VectorBytes.Bytes.Append: returns no value, because the Go error is always nil. The wrap-around of the offsets is modelled, but `Values()` is stated only while the data stays below 4 GiB.
- VectorBytes.Bytes.Window: the Go window shares the backing arrays of `Data`, `Os` and `Ns` with the original. The model's window is a new object holding copies of those values. So a later `Reset` or `Append` on the original does not show through the window, as it would in Go.
- VectorBytes.Bytes.ToStrings: the Go strings are zero-copy views of `Data`. The model's strings are values. The aliasing is not captured: after a `Reset` and `Append`, the Go strings would see the overwritten bytes.
- VectorBytes.Bytes.String: the `o+a.Ns[i]` slice bound is computed in unbounded integers.
- MergeCte.Argument.ReceiveOne: the message's error from the recursive registers is ignored, as the code ignores it. `SetLast` on a batch already flagged last changes nothing, so it is not modelled.
- MergeCte.MakeRecursiveBatch: the varchar vector is a column of strings `["check recursive status"]`, and its memory pool is not modelled.
- Text.ToLower: lower-cases ASCII letters only; Go's `strings.ToLower` also lower-cases other Unicode letters.
- Text.LessEq: orders strings by code points, which agrees with Go's byte order on UTF-8.
