# LocalHashAndJoinWith: a local hash equi-join, modelled in Dafny

This project models gleam's `LocalHashAndJoinWith` instruction. It is a pipeline step that joins two row streams on a list of key-column positions. The step runs in two phases:

- **Build.** The left stream is read frame by frame. The key bytes and the other fields of each row are extracted, and the table entry `hashmap[keyBytes] = vals` is written. A later row with the same key overwrites the earlier one.
- **Probe.** The right stream is then read. Each row is decoded and its keys are encoded again. On a table hit the step writes `keys ++ vals ++ tableVals`. On a miss it writes nothing.

Either phase stops at its first bad frame. A build error still leads to a probe against the partial table. If the table is empty, the right stream is drained and nothing is written.

Files:

- `util.dfy` (module `Util`): the collaborators in gleam's `util` package.
  - The row codec is a value `Codec<V>` made of three functions. Each returns `None` on failure.
  - `ProcessMessage` models `util.ProcessMessage`. It is a fold over a stream's frames that threads the handler's state and stops at the first handler error.
  - Two assumptions about the codec are ghost predicates, used only as preconditions of the lemmas that need them:
    - `SharedKeyEncoding`: the build side's `genKeyBytesAndValues` equals `DecodeRowKeysValues` followed by `EncodeRow`.
    - `InjectiveEncoding`: only equal key values encode to equal bytes.
- `instruction.dfy` (module `Instruction`): the operator itself.
  - The method `DoLocalHashAndJoinWith` has two loops. The table is a `map` variable rebound on each write, standing for the Go map updated in place at line 47 of the source, and output rows are appended to a `seq`. The method is proved equal to the specification function `HashJoin`.
  - The operator value `LocalHashAndJoinWith` has `Name`, `Function` (the routing closure), `SerializeToCommand` and `NewLocalHashAndJoinWith`.
- `msg.dfy` (module `Msg`): the descriptor `Instruction(name, localHashAndJoinWith(indexes))`.
- `join_properties.dfy` (module `JoinProperties`): what a run computes, stated against independent definitions:
  - the build writes before the first bad frame (`BuildEntries`) and the last write per key (`LastWrite`);
  - the decoded probe rows before the first bad frame (`DecodedRows`);
  - the filter-map of probe rows to output rows (`Emitted`, `MatchPositions`);
  - the equi-join by key *value* (`EquiJoin`, `LastMatch`).
- `scenarios.dfy` (module `Scenarios`): three worked runs over a small sample codec. A row is a two-byte frame (key, value), keyed on column 0. The sample codec meets both codec assumptions.
- `wrappers.dfy`: `Option`.

The codec, the streams and the writer are parameters or results of the model. A stream is the sequence of frame payloads that `util.ProcessMessage` would hand to a handler. A writer is the sequence of rows it holds. Everything is a function of its inputs, so replaying the same streams gives the same output.

## Model

| member | source | states |
|---|---|---|
| `Instruction.DoLocalHashAndJoinWith` | instruction/local_hash_and_join_with.go:41-78 | The two loops (table built in place, rows appended) compute exactly `HashJoin`. This includes the frames read and the error of each phase, and whether the probe stream was only drained. |
| `Instruction.NewLocalHashAndJoinWith` | instruction/local_hash_and_join_with.go:17-19 | The new operator carries the given index list. |
| `Instruction.Name` | instruction/local_hash_and_join_with.go:21-23 | The name is always "LocalHashAndJoinWith". |
| `Instruction.Function` | instruction/local_hash_and_join_with.go:25-29 | The closure can be called with two readers and one writer. It joins readers[0] (build) with readers[1] (probe) and appends the joined rows to writers[0]. No other writer changes. |
| `Instruction.SerializeToCommand` | instruction/local_hash_and_join_with.go:31-38 | The descriptor carries the name "LocalHashAndJoinWith" and the operator's index list unchanged. |
| `Scenarios.PairCodec` | instruction/local_hash_and_join_with.go:44-63 | A sample codec meets both assumptions, the shared key encoding and injectivity, so the lemmas that assume them can be used. |
| `Scenarios.ScenarioInnerJoin` | instruction/local_hash_and_join_with.go:59-74 | Build (a,1),(b,2) and probe (a,10),(c,30) give exactly the row (a,10,1). Unmatched b and c produce nothing. |
| `Scenarios.ScenarioDuplicateKey` | instruction/local_hash_and_join_with.go:43-50 | Build (a,1),(a,2) and probe (a,9) give (a,9,2): the later duplicate wins. |
| `Scenarios.ScenarioMalformedBuildFrame` | instruction/local_hash_and_join_with.go:43-74 | Build (a,1),(b,2),(c,3), a bad frame, then (a,5). This gives the table {a:1, b:2, c:3}, four frames read and KeyExtractFailed. The probe (c,7) still gives (c,7,3) against that partial table. |
| `JoinProperties.DescriptorDeterminesOperator` | instruction/local_hash_and_join_with.go:31-38 | Two operators have equal descriptors exactly when they are equal. So for index lists that `getIndexes` preserves, a worker can rebuild the operator from its descriptor. |
| `Instruction.JoinedRow` | instruction/local_hash_and_join_with.go:68-69 | An output row is the probe keys, then the probe values, then the table values, in that order and with no other fields. |
| `Util.ProcessMessage` | instruction/local_hash_and_join_with.go:43-50 | Iteration reads at most the frames there are. It reads all of them when no handler fails, and at least one frame when one fails. |
| `Util.ProcessMessageStops` | instruction/local_hash_and_join_with.go:59-74 | Once a handler has failed, appending any frames to the stream changes neither the state, the count of frames read nor the error. |
| `Util.ProcessMessageConcat` | instruction/local_hash_and_join_with.go:59-74 | Iterating without error over one stream and then over more frames equals iterating over both together. |
| `Util.DecodeAndEncodeKey` | instruction/local_hash_and_join_with.go:60-66 | A probe frame yields keys, values and key bytes exactly when both decoding and key encoding succeed, and then those are the codec's results. |
| `JoinProperties.BuildEntriesArePrefix` | instruction/local_hash_and_join_with.go:43-50 | The build writes are those of the build frames before the first frame whose key extraction fails, in order. |
| `JoinProperties.DecodedRowsArePrefix` | instruction/local_hash_and_join_with.go:59-66 | The decoded probe rows are those of the probe frames before the first frame that fails to decode or whose keys fail to encode. |
| `JoinProperties.BuildFold` | instruction/local_hash_and_join_with.go:42-50 | Run from any table, the build loop gives each key its last write in the stream, and keeps the table's old value for keys with no write. It stops with KeyExtractFailed after reading one frame past the writes. |
| `JoinProperties.BuildLastWriteWins` | instruction/local_hash_and_join_with.go:43-50 | A key is in the table exactly when some build write before the first bad frame used it. Its value is that of the last such write, so later duplicates overwrite and there is one value per key. |
| `JoinProperties.LastWriteIsLast` | instruction/local_hash_and_join_with.go:47 | `LastWrite` finds nothing for a key that was never written. Otherwise it finds a write to that key with no later write to it. |
| `JoinProperties.BuildStopsAtFirstError` | instruction/local_hash_and_join_with.go:43-53 | The build phase fails exactly when some build frame cannot be extracted. The frames it reads end with the first such frame, and all frames before it extracted. Without failure it reads every frame. |
| `JoinProperties.BuildIgnoresFramesAfterError` | instruction/local_hash_and_join_with.go:43-57 | After a build error, further build frames change nothing in the whole run. |
| `JoinProperties.ProbeFold` | instruction/local_hash_and_join_with.go:59-74 | From any state, the probe loop appends `Emitted` for the decoded probe rows and makes one lookup per row. It stops with RowDecodeFailed or KeyEncodeFailed, whichever failed first, one frame after them. |
| `JoinProperties.EmittedIsFilterMap` | instruction/local_hash_and_join_with.go:67-71 | Output row m is the joined row of the m-th probe row whose key bytes are in the table. Positions increase, so probe order is kept. A position is matched exactly when its key is present, so a miss gives nothing and a hit gives exactly one row. |
| `JoinProperties.DrainWhenTableEmpty` | instruction/local_hash_and_join_with.go:54-57 | The probe stream is only drained exactly when no build write took place, whether the build stream was empty or failed at once. Then every probe frame is read, no row is written, no lookup is made and no error is reported. |
| `JoinProperties.ProbeAgainstTable` | instruction/local_hash_and_join_with.go:54-74 | The output is `Emitted` against the table left by the build phase, a partial one included. With a non-empty table there is one lookup per decoded probe row. The probe phase fails exactly when a probe frame is bad. |
| `JoinProperties.OutputBoundedByProbeRows` | instruction/local_hash_and_join_with.go:59-74 | Rows written ≤ lookups ≤ probe frames read ≤ probe frames. |
| `JoinProperties.ProbeIgnoresFramesAfterError` | instruction/local_hash_and_join_with.go:59-66 | After a probe error, further probe frames change nothing in the whole run. |
| `JoinProperties.OutputExtends` | instruction/local_hash_and_join_with.go:59-74 | The rows written for a probe stream are a prefix of those written when the stream goes on, so rows already written stay. |
| `JoinProperties.BuildEntriesOfDecoded` | instruction/local_hash_and_join_with.go:44-63 | Under the shared-encoding assumption, the build writes are the (key bytes, values) of the decoded build rows, as the probe side would compute them. |
| `JoinProperties.LastWriteIsLastMatch` | instruction/local_hash_and_join_with.go:63-67 | Under injective key encoding, the lookup of a probe key's bytes finds the values of the last build row whose keys are equal by value. |
| `JoinProperties.EmittedIsEquiJoin` | instruction/local_hash_and_join_with.go:67-71 | For a table that holds the last write per key, the probe output equals the value-level equi-join `EquiJoin`. |
| `JoinProperties.HashJoinIsEquiJoin` | instruction/local_hash_and_join_with.go:41-78 | Under both codec assumptions, a run's output is the inner equi-join by key value of the good build rows and the good probe rows. Each probe row is matched with the last build row of equal keys, in probe order. |

## Left out

- The internals of the row codec (`util.DecodeRowKeysValues`, `util.EncodeRow`, `genKeyBytesAndValues`, `util.WriteRow`) are not part of this model. They are parameters. Their agreement and injectivity are assumptions that the lemmas state as preconditions, not facts proved about code.
- The framing inside `util.ProcessMessage` is not modelled: a stream is the sequence of payloads it hands to its handler. Transport read errors, which it would also surface, are not modelled.
- Key positions out of range for a row are a matter for the codec. The operator does not check them, and neither does the model.
- The `fmt.Printf` diagnostics (lines 52 and 76) are left out. The error of each phase is kept in the result instead.
- The error text built with `fmt.Errorf`, including the offending input, is left out. Each error is reduced to its kind.
- `Instruction.Function`: the model leaves out the `stats` argument, which the source never uses. It states only that two readers and one writer suffice to call the closure. It does not state that fewer make the source panic.
- `io.Copy(ioutil.Discard, rightReader)` (line 55) is modelled as "every probe frame is read, nothing written". Its byte-level copying, and any read error it might meet, are left out.
- The error that `util.WriteRow` returns is ignored by the source. The model leaves it out too: every joined row counts as written.
- Go slice aliasing through `append(keys, vals...)` is not modelled: rows are values.
- `Instruction.SerializeToCommand` keeps the index list unchanged. `getIndexes` is not part of this model, so any conversion it makes to a narrower integer type is left out. The protobuf pointer wrapping (`proto.String`) is left out too.
- The `stats` argument of the closure is never used (local_hash_and_join_with.go:26-27 does not pass it on), so no counters are modelled.
