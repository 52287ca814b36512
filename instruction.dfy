/**
 * The LocalHashAndJoinWith instruction: a local hash equi-join. The build (left) stream is
 * loaded into a table from canonical key bytes to the row's other fields, a later row with
 * the same key replacing the earlier one; then every probe (right) row whose key is in the
 * table is written out as its keys, its other fields and the table's fields, in probe order.
 */
module Instruction {
  import opened Wrappers
  import opened Util
  import Msg

  /** The hash table of the build phase: canonical key bytes to the build row's other fields. */
  type Table<V> = map<seq<byte>, Row<V>>

  /** What the probe handler changes as it goes: the rows written and the table lookups made. */
  datatype ProbeState<V> = ProbeState(output: seq<Row<V>>, lookups: nat)

  /**
   * One run of the join: how the build phase ended (with its table), whether the probe
   * stream was only drained because the table was empty, and how the probe phase ended.
   */
  datatype JoinOutcome<V> = JoinOutcome(build: Processed<Table<V>>, drained: bool, probe: Processed<ProbeState<V>>)

  /** The build handler: extract key bytes and values, and (over)write the table entry. */
  function BuildStep<V>(c: Codec<V>, indexes: seq<int>, table: Table<V>, input: Frame): Handled<Table<V>> {
    match c.genKeyBytesAndValues(input, indexes)
    case None => Failed(KeyExtractFailed)
    case Some(kv) => Handled(table[kv.0 := kv.1])
  }

  function BuildHandler<V>(c: Codec<V>, indexes: seq<int>): (Table<V>, Frame) -> Handled<Table<V>> {
    (table: Table<V>, input: Frame) => BuildStep(c, indexes, table, input)
  }

  /** The row written for a probe row that found `mapped` in the table. */
  function JoinedRow<V>(keys: Row<V>, vals: Row<V>, mapped: Row<V>): (row: Row<V>)
    ensures |row| == |keys| + |vals| + |mapped|
    ensures row[..|keys|] == keys && row[|keys|..|keys| + |vals|] == vals && row[|keys| + |vals|..] == mapped
  {
    keys + vals + mapped
  }

  /** The probe handler: decode, encode the keys, look them up, write the joined row on a hit. */
  function ProbeStep<V>(c: Codec<V>, indexes: seq<int>, table: Table<V>, st: ProbeState<V>, input: Frame): Handled<ProbeState<V>> {
    match c.decodeRowKeysValues(input, indexes)
    case None => Failed(RowDecodeFailed)
    case Some(kv) =>
      match c.encodeRow(kv.0)
      case None => Failed(KeyEncodeFailed)
      case Some(keyBytes) =>
        if keyBytes in table then Handled(ProbeState(st.output + [JoinedRow(kv.0, kv.1, table[keyBytes])], st.lookups + 1))
        else Handled(ProbeState(st.output, st.lookups + 1))
  }

  function ProbeHandler<V>(c: Codec<V>, indexes: seq<int>, table: Table<V>): (ProbeState<V>, Frame) -> Handled<ProbeState<V>> {
    (st: ProbeState<V>, input: Frame) => ProbeStep(c, indexes, table, st, input)
  }

  function BuildPhase<V>(c: Codec<V>, indexes: seq<int>, left: seq<Frame>): Processed<Table<V>> {
    ProcessMessage(map[], left, BuildHandler(c, indexes))
  }

  function ProbePhase<V>(c: Codec<V>, indexes: seq<int>, table: Table<V>, right: seq<Frame>): Processed<ProbeState<V>> {
    ProcessMessage(ProbeState([], 0), right, ProbeHandler(c, indexes, table))
  }

  /**
   * The specification of one run: build, then either drain the probe stream (empty table)
   * or probe it against the table, whether or not the build phase stopped early.
   */
  function HashJoin<V>(c: Codec<V>, indexes: seq<int>, left: seq<Frame>, right: seq<Frame>): JoinOutcome<V> {
    var b := BuildPhase(c, indexes, left);
    if |b.state| == 0 then JoinOutcome(b, true, Processed(ProbeState([], 0), |right|, None))
    else JoinOutcome(b, false, ProbePhase(c, indexes, b.state, right))
  }

  /** DoLocalHashAndJoinWith: the two frame loops; the table variable is rebound on each write, rows appended. */
  method DoLocalHashAndJoinWith<V>(c: Codec<V>, left: seq<Frame>, right: seq<Frame>, indexes: seq<int>)
    returns (r: JoinOutcome<V>)
    ensures r == HashJoin(c, indexes, left, right)
  {
    ghost var spec := BuildPhase(c, indexes, left);
    var hashmap: Table<V> := map[];
    var i := 0;
    var err: Option<Error> := None;
    while i < |left| && err.None?
      invariant 0 <= i <= |left|
      invariant err.None? ==>
        var rest := ProcessMessage(hashmap, left[i..], BuildHandler(c, indexes));
        spec == Processed(rest.state, rest.read + i, rest.error)
      invariant err.Some? ==> spec == Processed(hashmap, i, err)
    {
      assert left[i..][1..] == left[i + 1..];
      var extracted := c.genKeyBytesAndValues(left[i], indexes);
      if extracted.None? {
        err := Some(KeyExtractFailed);
      } else {
        hashmap := hashmap[extracted.value.0 := extracted.value.1];
      }
      i := i + 1;
    }
    var built := Processed(hashmap, i, err);
    if |hashmap| == 0 {
      // io.Copy(ioutil.Discard, rightReader): every probe frame is read and dropped.
      return JoinOutcome(built, true, Processed(ProbeState([], 0), |right|, None));
    }

    ghost var probeSpec := ProbePhase(c, indexes, hashmap, right);
    var output: seq<Row<V>> := [];
    var lookups := 0;
    var j := 0;
    err := None;
    while j < |right| && err.None?
      invariant 0 <= j <= |right|
      invariant err.None? ==>
        var rest := ProcessMessage(ProbeState(output, lookups), right[j..], ProbeHandler(c, indexes, hashmap));
        probeSpec == Processed(rest.state, rest.read + j, rest.error)
      invariant err.Some? ==> probeSpec == Processed(ProbeState(output, lookups), j, err)
    {
      assert right[j..][1..] == right[j + 1..];
      var decoded := c.decodeRowKeysValues(right[j], indexes);
      if decoded.None? {
        err := Some(RowDecodeFailed);
      } else {
        var (keys, vals) := decoded.value;
        var encoded := c.encodeRow(keys);
        if encoded.None? {
          err := Some(KeyEncodeFailed);
        } else {
          var keyBytes := encoded.value;
          lookups := lookups + 1;
          if keyBytes in hashmap {
            output := output + [JoinedRow(keys, vals, hashmap[keyBytes])];
          }
        }
      }
      j := j + 1;
    }
    r := JoinOutcome(built, false, Processed(ProbeState(output, lookups), j, err));
  }

  /** The operator value: the key-column positions shared by both inputs. */
  datatype LocalHashAndJoinWith = LocalHashAndJoinWith(indexes: seq<int>)

  function NewLocalHashAndJoinWith(indexes: seq<int>): (op: LocalHashAndJoinWith)
    ensures op.indexes == indexes
  {
    LocalHashAndJoinWith(indexes)
  }

  function Name(op: LocalHashAndJoinWith): (name: string)
    ensures name == "LocalHashAndJoinWith"
  {
    "LocalHashAndJoinWith"
  }

  /**
   * Function(): the run entry point. It joins readers[0] (build) with readers[1] (probe)
   * and appends the joined rows to writers[0]; a writer is modelled by the rows it holds.
   * Fewer than two readers or no writer is an index error in the source, hence the requires.
   */
  function Function<V(!new)>(op: LocalHashAndJoinWith, c: Codec<V>): (run: (seq<seq<Frame>>, seq<seq<Row<V>>>) --> seq<seq<Row<V>>>)
    ensures forall readers: seq<seq<Frame>>, writers: seq<seq<Row<V>>> ::
              2 <= |readers| && 1 <= |writers| ==> run.requires(readers, writers)
    ensures forall readers: seq<seq<Frame>>, writers: seq<seq<Row<V>>> | 2 <= |readers| && 1 <= |writers| ::
              var written := run(readers, writers);
              && |written| == |writers|
              && written[0] == writers[0] + HashJoin(c, op.indexes, readers[0], readers[1]).probe.state.output
              && (forall w :: 1 <= w < |writers| ==> written[w] == writers[w])
  {
    (readers: seq<seq<Frame>>, writers: seq<seq<Row<V>>>) requires 2 <= |readers| && 1 <= |writers| =>
      writers[0 := writers[0] + HashJoin(c, op.indexes, readers[0], readers[1]).probe.state.output]
  }

  /** The descriptor shipped to workers: this operator's name and its index list. */
  function SerializeToCommand(op: LocalHashAndJoinWith): (cmd: Msg.Instruction)
    ensures cmd.name == Name(op) == "LocalHashAndJoinWith"
    ensures cmd.localHashAndJoinWith.Some? && cmd.localHashAndJoinWith.value.indexes == op.indexes
  {
    Msg.Instruction(Name(op), Some(Msg.LocalHashAndJoinWith(op.indexes)))
  }
}
