/**
 * What a run of LocalHashAndJoinWith computes, stated against independent definitions:
 * the build table is the last write per key over the frames before the first bad one, the
 * output is a filter-map over the probe rows before the first bad one, and, when the codec
 * encodes keys the same way on both sides and injectively, the output is the equi-join of
 * the decoded rows by key value.
 */
module JoinProperties {
  import opened Wrappers
  import opened Util
  import opened Instruction

  /** A table write made by the build phase. */
  datatype Entry<V> = Entry(key: seq<byte>, vals: Row<V>)

  /** The writes of the build phase: one per frame up to the first frame whose key extraction fails. */
  function BuildEntries<V>(c: Codec<V>, indexes: seq<int>, left: seq<Frame>): seq<Entry<V>> {
    if left == [] then []
    else
      match c.genKeyBytesAndValues(left[0], indexes)
      case None => []
      case Some(kv) => [Entry(kv.0, kv.1)] + BuildEntries(c, indexes, left[1..])
  }

  /** The successfully decoded rows of a stream, up to the first frame that fails to decode or encode. */
  function DecodedRows<V>(c: Codec<V>, indexes: seq<int>, frames: seq<Frame>): seq<Decoded<V>> {
    if frames == [] then []
    else
      match DecodeAndEncodeKey(c, frames[0], indexes)
      case None => []
      case Some(d) => [d] + DecodedRows(c, indexes, frames[1..])
  }

  /** The value of the last write to `key`, if any. */
  function LastWrite<V>(es: seq<Entry<V>>, key: seq<byte>): Option<Row<V>> {
    if es == [] then None
    else
      match LastWrite(es[1..], key)
      case Some(v) => Some(v)
      case None => if es[0].key == key then Some(es[0].vals) else None
  }

  /** The rows written for probe rows, filtered by membership of their key bytes in the table. */
  function Emitted<V>(table: Table<V>, rows: seq<Decoded<V>>): seq<Row<V>> {
    if rows == [] then []
    else
      (if rows[0].keyBytes in table then [JoinedRow(rows[0].keys, rows[0].vals, table[rows[0].keyBytes])] else [])
      + Emitted(table, rows[1..])
  }

  /** The positions, counted from `base`, of the rows whose key bytes are in the table. */
  ghost function MatchPositions<V>(table: Table<V>, rows: seq<Decoded<V>>, base: nat): seq<nat> {
    if rows == [] then []
    else (if rows[0].keyBytes in table then [base] else []) + MatchPositions(table, rows[1..], base + 1)
  }

  // ---------------------------------------------------------------------------------------
  // The build phase

  /** BuildEntries and DecodedRows take exactly the frames before the first failing one. */
  lemma {:induction false} BuildEntriesArePrefix<V>(c: Codec<V>, indexes: seq<int>, left: seq<Frame>)
    ensures var es := BuildEntries(c, indexes, left);
            && |es| <= |left|
            && (forall j :: 0 <= j < |es| ==> c.genKeyBytesAndValues(left[j], indexes) == Some((es[j].key, es[j].vals)))
            && (|es| < |left| ==> c.genKeyBytesAndValues(left[|es|], indexes).None?)
  {
    if left != [] && c.genKeyBytesAndValues(left[0], indexes).Some? {
      BuildEntriesArePrefix(c, indexes, left[1..]);
    }
  }

  lemma {:induction false} DecodedRowsArePrefix<V>(c: Codec<V>, indexes: seq<int>, frames: seq<Frame>)
    ensures var rows := DecodedRows(c, indexes, frames);
            && |rows| <= |frames|
            && (forall j :: 0 <= j < |rows| ==> DecodeAndEncodeKey(c, frames[j], indexes) == Some(rows[j]))
            && (|rows| < |frames| ==> DecodeAndEncodeKey(c, frames[|rows|], indexes).None?)
  {
    if frames != [] && DecodeAndEncodeKey(c, frames[0], indexes).Some? {
      DecodedRowsArePrefix(c, indexes, frames[1..]);
    }
  }

  /** The build loop from any table: it applies the writes in BuildEntries on top of that table. */
  lemma {:induction false} BuildFold<V>(c: Codec<V>, indexes: seq<int>, table: Table<V>, left: seq<Frame>)
    ensures var r := ProcessMessage(table, left, BuildHandler(c, indexes));
            var es := BuildEntries(c, indexes, left);
            && (r.error.Some? <==> |es| < |left|)
            && (r.error.Some? ==> r.error == Some(KeyExtractFailed) && r.read == |es| + 1)
            && (forall k :: k in r.state <==> LastWrite(es, k).Some? || k in table)
            && (forall k :: k in r.state ==> r.state[k] == if LastWrite(es, k).Some? then LastWrite(es, k).value else table[k])
    decreases left
  {
    if left != [] {
      match c.genKeyBytesAndValues(left[0], indexes)
      case None =>
      case Some(kv) =>
        BuildFold(c, indexes, table[kv.0 := kv.1], left[1..]);
    }
  }

  /**
   * Last write wins: after the build phase the table holds a key exactly when some write
   * before the first failing frame used it, and then the value of the last such write.
   */
  lemma BuildLastWriteWins<V>(c: Codec<V>, indexes: seq<int>, left: seq<Frame>)
    ensures var table := BuildPhase(c, indexes, left).state;
            var es := BuildEntries(c, indexes, left);
            && (forall k :: k in table <==> exists j :: 0 <= j < |es| && es[j].key == k)
            && (forall k :: k in table ==>
                  exists j :: 0 <= j < |es| && es[j] == Entry(k, table[k]) &&
                    forall j' :: j < j' < |es| ==> es[j'].key != k)
  {
    var table := BuildPhase(c, indexes, left).state;
    var es := BuildEntries(c, indexes, left);
    BuildFold(c, indexes, map[], left);
    forall k ensures (k in table <==> exists j :: 0 <= j < |es| && es[j].key == k) {
      LastWriteIsLast(es, k);
    }
    forall k | k in table
      ensures exists j :: 0 <= j < |es| && es[j] == Entry(k, table[k]) && forall j' :: j < j' < |es| ==> es[j'].key != k
    {
      LastWriteIsLast(es, k);
    }
  }

  /** LastWrite finds no write to a key that was never written, and otherwise the last write to it. */
  lemma {:induction false} LastWriteIsLast<V>(es: seq<Entry<V>>, key: seq<byte>)
    ensures LastWrite(es, key).None? <==> forall j :: 0 <= j < |es| ==> es[j].key != key
    ensures LastWrite(es, key).Some? ==>
              exists j :: 0 <= j < |es| && es[j] == Entry(key, LastWrite(es, key).value) &&
                forall j' :: j < j' < |es| ==> es[j'].key != key
  {
    if es != [] {
      var rest := es[1..];
      LastWriteIsLast(rest, key);
      assert forall j :: 1 <= j < |es| ==> es[j] == rest[j - 1];
      if LastWrite(rest, key).Some? {
        var j :| 0 <= j < |rest| && rest[j] == Entry(key, LastWrite(rest, key).value) &&
                 forall j' :: j < j' < |rest| ==> rest[j'].key != key;
        assert es[j + 1] == rest[j];
      } else if es[0].key == key {
        assert es[0] == Entry(key, LastWrite(es, key).value);
      }
    }
  }

  /** The build phase reads frames up to and including the first failing one, and all of them otherwise. */
  lemma BuildStopsAtFirstError<V>(c: Codec<V>, indexes: seq<int>, left: seq<Frame>)
    ensures var b := BuildPhase(c, indexes, left);
            var es := BuildEntries(c, indexes, left);
            && (b.error.Some? <==> exists j :: 0 <= j < |left| && c.genKeyBytesAndValues(left[j], indexes).None?)
            && (b.error.Some? ==> b.error == Some(KeyExtractFailed) && b.read == |es| + 1
                                  && c.genKeyBytesAndValues(left[b.read - 1], indexes).None?
                                  && forall j :: 0 <= j < b.read - 1 ==> c.genKeyBytesAndValues(left[j], indexes).Some?)
            && (b.error.None? ==> b.read == |left| == |es|)
  {
    BuildFold(c, indexes, map[], left);
    BuildEntriesArePrefix(c, indexes, left);
  }

  /** Build frames after the first failing one change nothing, whatever they hold. */
  lemma BuildIgnoresFramesAfterError<V>(c: Codec<V>, indexes: seq<int>, left: seq<Frame>, more: seq<Frame>, right: seq<Frame>)
    requires BuildPhase(c, indexes, left).error.Some?
    ensures HashJoin(c, indexes, left + more, right) == HashJoin(c, indexes, left, right)
  {
    ProcessMessageStops(map[], left, more, BuildHandler(c, indexes));
  }

  // ---------------------------------------------------------------------------------------
  // The probe phase

  /** The probe loop from any state: it appends Emitted for the rows before the first failing frame. */
  lemma {:induction false} ProbeFold<V>(c: Codec<V>, indexes: seq<int>, table: Table<V>, st: ProbeState<V>, right: seq<Frame>)
    ensures var r := ProcessMessage(st, right, ProbeHandler(c, indexes, table));
            var rows := DecodedRows(c, indexes, right);
            && r.state == ProbeState(st.output + Emitted(table, rows), st.lookups + |rows|)
            && (r.error.Some? <==> |rows| < |right|)
            && (r.error.Some? ==>
                  && r.read == |rows| + 1
                  && r.error == Some(if c.decodeRowKeysValues(right[|rows|], indexes).None? then RowDecodeFailed else KeyEncodeFailed))
    decreases right
  {
    if right != [] {
      match DecodeAndEncodeKey(c, right[0], indexes)
      case None =>
      case Some(d) =>
        var next := if d.keyBytes in table
                    then ProbeState(st.output + [JoinedRow(d.keys, d.vals, table[d.keyBytes])], st.lookups + 1)
                    else ProbeState(st.output, st.lookups + 1);
        assert ProbeStep(c, indexes, table, st, right[0]) == Handled(next);
        ProbeFold(c, indexes, table, next, right[1..]);
        assert st.output + Emitted(table, DecodedRows(c, indexes, right))
            == next.output + Emitted(table, DecodedRows(c, indexes, right[1..]));
    }
  }

  /**
   * Inner join as a filter-map in probe order: output row m is the joined row of the m-th
   * probe row whose key is in the table, a probe row whose key is absent yields nothing and
   * one whose key is present yields exactly one row.
   */
  lemma EmittedIsFilterMap<V>(table: Table<V>, rows: seq<Decoded<V>>)
    ensures var out, ps := Emitted(table, rows), MatchPositions(table, rows, 0);
            && |out| == |ps| <= |rows|
            && (forall m :: 0 <= m < |ps| ==>
                  ps[m] < |rows| && rows[ps[m]].keyBytes in table &&
                  out[m] == JoinedRow(rows[ps[m]].keys, rows[ps[m]].vals, table[rows[ps[m]].keyBytes]))
            && (forall m, m' :: 0 <= m < m' < |ps| ==> ps[m] < ps[m'])
            && (forall i :: 0 <= i < |rows| ==> (rows[i].keyBytes in table <==> i in ps))
  {
    MatchPositionsBounds(table, rows, 0);
    MatchPositionsRows(table, rows, 0);
    MatchPositionsIncrease(table, rows, 0);
    MatchPositionsComplete(table, rows, 0);
  }

  lemma {:induction false} MatchPositionsBounds<V>(table: Table<V>, rows: seq<Decoded<V>>, base: nat)
    ensures var ps := MatchPositions(table, rows, base);
            && |Emitted(table, rows)| == |ps| <= |rows|
            && forall m :: 0 <= m < |ps| ==> base <= ps[m] < base + |rows|
  {
    if rows != [] {
      MatchPositionsBounds(table, rows[1..], base + 1);
    }
  }

  lemma {:induction false} MatchPositionsRows<V>(table: Table<V>, rows: seq<Decoded<V>>, base: nat)
    ensures var out, ps := Emitted(table, rows), MatchPositions(table, rows, base);
            forall m :: 0 <= m < |ps| ==>
              && |out| == |ps| && base <= ps[m] < base + |rows|
              && rows[ps[m] - base].keyBytes in table
              && out[m] == JoinedRow(rows[ps[m] - base].keys, rows[ps[m] - base].vals, table[rows[ps[m] - base].keyBytes])
  {
    MatchPositionsBounds(table, rows, base);
    if rows != [] {
      var rest := rows[1..];
      MatchPositionsRows(table, rest, base + 1);
      MatchPositionsBounds(table, rest, base + 1);
      var out', ps' := Emitted(table, rest), MatchPositions(table, rest, base + 1);
      var out, ps := Emitted(table, rows), MatchPositions(table, rows, base);
      var d := if rows[0].keyBytes in table then 1 else 0;
      forall m | d <= m < |ps|
        ensures rows[ps[m] - base] == rest[ps'[m - d] - (base + 1)] && out[m] == out'[m - d]
      {
        assert ps[m] == ps'[m - d];
      }
    }
  }

  lemma {:induction false} MatchPositionsIncrease<V>(table: Table<V>, rows: seq<Decoded<V>>, base: nat)
    ensures var ps := MatchPositions(table, rows, base);
            forall m, m' :: 0 <= m < m' < |ps| ==> ps[m] < ps[m']
  {
    if rows != [] {
      var rest := rows[1..];
      MatchPositionsIncrease(table, rest, base + 1);
      MatchPositionsBounds(table, rest, base + 1);
      var ps', ps := MatchPositions(table, rest, base + 1), MatchPositions(table, rows, base);
      var d := if rows[0].keyBytes in table then 1 else 0;
      assert forall m :: d <= m < |ps| ==> ps[m] == ps'[m - d];
    }
  }

  lemma {:induction false} MatchPositionsComplete<V>(table: Table<V>, rows: seq<Decoded<V>>, base: nat)
    ensures var ps := MatchPositions(table, rows, base);
            forall i :: 0 <= i < |rows| ==> (rows[i].keyBytes in table <==> base + i in ps)
  {
    if rows != [] {
      var rest := rows[1..];
      MatchPositionsComplete(table, rest, base + 1);
      MatchPositionsBounds(table, rest, base + 1);
      var ps', ps := MatchPositions(table, rest, base + 1), MatchPositions(table, rows, base);
      assert ps == (if rows[0].keyBytes in table then [base] else []) + ps';
      forall i | 0 <= i < |rows| ensures rows[i].keyBytes in table <==> base + i in ps {
        if i == 0 {
          assert base !in ps';
        } else {
          assert rows[i] == rest[i - 1];
          assert base + i == (base + 1) + (i - 1);
        }
      }
    }
  }

  // ---------------------------------------------------------------------------------------
  // The whole run

  /**
   * The table is empty exactly when no build frame before the first failing one extracted;
   * then the whole probe stream is read, nothing is written and no lookup is made.
   */
  lemma DrainWhenTableEmpty<V>(c: Codec<V>, indexes: seq<int>, left: seq<Frame>, right: seq<Frame>)
    ensures var run := HashJoin(c, indexes, left, right);
            && (run.drained <==> BuildEntries(c, indexes, left) == [])
            && (run.drained ==> run.probe.read == |right| && run.probe.state.output == [] &&
                                run.probe.state.lookups == 0 && run.probe.error.None?)
  {
    var es := BuildEntries(c, indexes, left);
    var table := BuildPhase(c, indexes, left).state;
    BuildFold(c, indexes, map[], left);
    if es != [] {
      LastWriteIsLast(es, es[0].key);
      assert es[0].key in table;
    } else {
      assert forall k :: k !in table;
      assert table == map[];
    }
  }

  /**
   * With a non-empty table, even a partial one left by a build error, the probe phase runs:
   * it looks up every probe row before the first failing frame and writes Emitted for them.
   */
  lemma ProbeAgainstTable<V>(c: Codec<V>, indexes: seq<int>, left: seq<Frame>, right: seq<Frame>)
    ensures var run := HashJoin(c, indexes, left, right);
            var rows := DecodedRows(c, indexes, right);
            && run.probe.state.output == Emitted(run.build.state, rows)
            && (!run.drained ==>
                  && run.probe.state.lookups == |rows|
                  && (run.probe.error.Some? <==> |rows| < |right|)
                  && (run.probe.error.Some? ==> run.probe.read == |rows| + 1)
                  && (run.probe.error.None? ==> run.probe.read == |right|))
  {
    var run := HashJoin(c, indexes, left, right);
    var rows := DecodedRows(c, indexes, right);
    if run.drained {
      EmptyTableEmitsNothing(run.build.state, rows);
    } else {
      ProbeFold(c, indexes, run.build.state, ProbeState([], 0), right);
    }
  }

  lemma {:induction false} EmptyTableEmitsNothing<V>(table: Table<V>, rows: seq<Decoded<V>>)
    requires |table| == 0
    ensures Emitted(table, rows) == []
  {
    if rows != [] {
      assert rows[0].keyBytes !in table;
      EmptyTableEmitsNothing(table, rows[1..]);
    }
  }

  /** At most one row is written per probe row looked up, and no more rows are looked up than read. */
  lemma OutputBoundedByProbeRows<V>(c: Codec<V>, indexes: seq<int>, left: seq<Frame>, right: seq<Frame>)
    ensures var run := HashJoin(c, indexes, left, right);
            |run.probe.state.output| <= run.probe.state.lookups <= run.probe.read <= |right|
  {
    var run := HashJoin(c, indexes, left, right);
    var rows := DecodedRows(c, indexes, right);
    ProbeAgainstTable(c, indexes, left, right);
    EmittedIsFilterMap(run.build.state, rows);
    DecodedRowsArePrefix(c, indexes, right);
  }

  /** Probe frames after the first failing one change nothing, whatever they hold. */
  lemma ProbeIgnoresFramesAfterError<V>(c: Codec<V>, indexes: seq<int>, left: seq<Frame>, right: seq<Frame>, more: seq<Frame>)
    requires HashJoin(c, indexes, left, right).probe.error.Some?
    ensures HashJoin(c, indexes, left, right + more) == HashJoin(c, indexes, left, right)
  {
    var table := BuildPhase(c, indexes, left).state;
    ProcessMessageStops(ProbeState([], 0), right, more, ProbeHandler(c, indexes, table));
  }

  /** Rows written for a stream stay written, in front, when the stream goes on. */
  lemma OutputExtends<V>(c: Codec<V>, indexes: seq<int>, left: seq<Frame>, right: seq<Frame>, more: seq<Frame>)
    ensures var out := HashJoin(c, indexes, left, right).probe.state.output;
            var out' := HashJoin(c, indexes, left, right + more).probe.state.output;
            |out| <= |out'| && out'[..|out|] == out
  {
    var run := HashJoin(c, indexes, left, right);
    if !run.drained {
      var table := run.build.state;
      var h := ProbeHandler(c, indexes, table);
      var r := ProcessMessage(ProbeState([], 0), right, h);
      if r.error.Some? {
        ProcessMessageStops(ProbeState([], 0), right, more, h);
      } else {
        ProcessMessageConcat(ProbeState([], 0), right, more, h);
        ProbeFold(c, indexes, table, r.state, more);
      }
    }
  }

  // ---------------------------------------------------------------------------------------
  // The reference: an equi-join of the decoded rows by key value

  /** The other fields of the last build row whose key fields equal `keys`, if any. */
  ghost function LastMatch<V>(build: seq<Decoded<V>>, keys: Row<V>): Option<Row<V>> {
    if build == [] then None
    else
      match LastMatch(build[1..], keys)
      case Some(v) => Some(v)
      case None => if build[0].keys == keys then Some(build[0].vals) else None
  }

  /** For each probe row in order, its keys, its fields and the last matching build row's fields. */
  ghost function EquiJoin<V>(build: seq<Decoded<V>>, probe: seq<Decoded<V>>): seq<Row<V>> {
    if probe == [] then []
    else
      (match LastMatch(build, probe[0].keys)
       case None => []
       case Some(bv) => [JoinedRow(probe[0].keys, probe[0].vals, bv)])
      + EquiJoin(build, probe[1..])
  }

  function EntriesOf<V>(rows: seq<Decoded<V>>): seq<Entry<V>> {
    if rows == [] then [] else [Entry(rows[0].keyBytes, rows[0].vals)] + EntriesOf(rows[1..])
  }

  /** When the two sides share one key encoding, the build writes are those of the decoded build rows. */
  lemma {:induction false} BuildEntriesOfDecoded<V>(c: Codec<V>, indexes: seq<int>, left: seq<Frame>)
    requires SharedKeyEncoding(c)
    ensures BuildEntries(c, indexes, left) == EntriesOf(DecodedRows(c, indexes, left))
  {
    if left != [] {
      assert c.genKeyBytesAndValues(left[0], indexes) ==
        match DecodeAndEncodeKey(c, left[0], indexes)
        case None => None
        case Some(d) => Some((d.keyBytes, d.vals));
      BuildEntriesOfDecoded(c, indexes, left[1..]);
    }
  }

  /** With an injective encoding, the last write to the key bytes of `keys` is the last match of `keys`. */
  lemma {:induction false} LastWriteIsLastMatch<V(!new)>(c: Codec<V>, build: seq<Decoded<V>>, keys: Row<V>, keyBytes: seq<byte>)
    requires InjectiveEncoding(c)
    requires c.encodeRow(keys) == Some(keyBytes)
    requires forall j :: 0 <= j < |build| ==> c.encodeRow(build[j].keys) == Some(build[j].keyBytes)
    ensures LastWrite(EntriesOf(build), keyBytes) == LastMatch(build, keys)
  {
    if build != [] {
      assert c.encodeRow(build[0].keys) == Some(build[0].keyBytes);
      assert build[0].keyBytes == keyBytes <==> build[0].keys == keys;
      LastWriteIsLastMatch(c, build[1..], keys, keyBytes);
      assert EntriesOf(build)[1..] == EntriesOf(build[1..]);
    }
  }

  lemma {:induction false} EmittedIsEquiJoin<V(!new)>(c: Codec<V>, table: Table<V>, build: seq<Decoded<V>>, probe: seq<Decoded<V>>)
    requires InjectiveEncoding(c)
    requires forall j :: 0 <= j < |build| ==> c.encodeRow(build[j].keys) == Some(build[j].keyBytes)
    requires forall j :: 0 <= j < |probe| ==> c.encodeRow(probe[j].keys) == Some(probe[j].keyBytes)
    requires forall k :: k in table <==> LastWrite(EntriesOf(build), k).Some?
    requires forall k :: k in table ==> table[k] == LastWrite(EntriesOf(build), k).value
    ensures Emitted(table, probe) == EquiJoin(build, probe)
  {
    if probe != [] {
      LastWriteIsLastMatch(c, build, probe[0].keys, probe[0].keyBytes);
      EmittedIsEquiJoin(c, table, build, probe[1..]);
    }
  }

  /**
   * The hash join is the equi-join by key value, with one match per probe row (the last
   * build row with equal keys), provided the codec encodes keys the same way on both sides
   * and injectively. Bad frames cut both streams as before.
   */
  lemma {:induction false} HashJoinIsEquiJoin<V(!new)>(c: Codec<V>, indexes: seq<int>, left: seq<Frame>, right: seq<Frame>)
    requires SharedKeyEncoding(c) && InjectiveEncoding(c)
    ensures HashJoin(c, indexes, left, right).probe.state.output ==
            EquiJoin(DecodedRows(c, indexes, left), DecodedRows(c, indexes, right))
  {
    var build, probe := DecodedRows(c, indexes, left), DecodedRows(c, indexes, right);
    var table := BuildPhase(c, indexes, left).state;
    BuildEntriesOfDecoded(c, indexes, left);
    BuildFold(c, indexes, map[], left);
    DecodedRowsArePrefix(c, indexes, left);
    DecodedRowsArePrefix(c, indexes, right);
    ProbeAgainstTable(c, indexes, left, right);
    EmittedIsEquiJoin(c, table, build, probe);
  }

  // ---------------------------------------------------------------------------------------
  // The operator value and its descriptor

  /** The descriptor determines the operator: equal descriptors come from equal index lists. */
  lemma DescriptorDeterminesOperator(a: LocalHashAndJoinWith, b: LocalHashAndJoinWith)
    ensures SerializeToCommand(a) == SerializeToCommand(b) <==> a == b
  {
  }
}
