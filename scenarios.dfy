/**
 * Three worked runs over a small codec: a row is a two-byte frame (key, value), the key
 * is column 0, and a row's canonical bytes are its fields themselves. Any other frame is
 * malformed.
 */
module Scenarios {
  import opened Wrappers
  import opened Util
  import opened Instruction

  function PairDecode(input: Frame, indexes: seq<int>): Option<(Row<byte>, Row<byte>)> {
    if |input| == 2 && indexes == [0] then Some(([input[0]], [input[1]])) else None
  }

  function PairEncode(fields: Row<byte>): Option<seq<byte>> {
    Some(fields)
  }

  function PairKeyBytes(input: Frame, indexes: seq<int>): Option<(seq<byte>, Row<byte>)> {
    match PairDecode(input, indexes)
    case None => None
    case Some(kv) => Some((kv.0, kv.1))
  }

  function PairCodec(): (c: Codec<byte>)
    ensures SharedKeyEncoding(c) && InjectiveEncoding(c)
  {
    Codec((input: Frame, indexes: seq<int>) => PairDecode(input, indexes),
          (fields: Row<byte>) => PairEncode(fields),
          (input: Frame, indexes: seq<int>) => PairKeyBytes(input, indexes))
  }

  const A: byte := 97
  const B: byte := 98
  const C: byte := 99

  /** A two-byte frame is the row (key, value); one of any other length is malformed. */
  lemma PairFrames(k: byte, v: byte, bad: Frame)
    requires |bad| != 2
    ensures PairCodec().genKeyBytesAndValues([k, v], [0]) == Some(([k], [v]))
    ensures PairCodec().decodeRowKeysValues([k, v], [0]) == Some(([k], [v]))
    ensures PairCodec().encodeRow([k]) == Some([k])
    ensures PairCodec().genKeyBytesAndValues(bad, [0]).None?
  {
  }

  /** Rows for "b" and "c" find no partner; "a" is joined once. */
  lemma {:induction false} ScenarioInnerJoin()
    ensures HashJoin(PairCodec(), [0], [[A, 1], [B, 2]], [[A, 10], [C, 30]]).probe.state.output == [[A, 10, 1]]
  {
    var c := PairCodec();
    PairFrames(A, 1, []);
    PairFrames(B, 2, []);
    PairFrames(A, 10, []);
    PairFrames(C, 30, []);
    var bh := BuildHandler(c, [0]);
    var t1: Table<byte> := map[[A] := [1]];
    var t2 := t1[[B] := [2]];
    assert bh(map[], [A, 1]) == Handled(t1);
    assert bh(t1, [B, 2]) == Handled(t2);
    assert ProcessMessage(t2, [], bh) == Processed(t2, 0, None);
    assert ProcessMessage(t1, [[B, 2]], bh) == Processed(t2, 1, None);
    assert ProcessMessage(map[], [[A, 1], [B, 2]], bh) == Processed(t2, 2, None);
    assert [A] in t2;
    var ph := ProbeHandler(c, [0], t2);
    var s1 := ProbeState([[A, 10, 1]], 1);
    var s2 := ProbeState([[A, 10, 1]], 2);
    assert t2[[A]] == [1];
    assert JoinedRow<byte>([A], [10], [1]) == [A, 10, 1];
    assert ProbeStep(c, [0], t2, ProbeState([], 0), [A, 10]) == Handled(ProbeState([] + [[A, 10, 1]], 1));
    assert [] + [[A, 10, 1]] == [[A, 10, 1]];
    assert ph(ProbeState([], 0), [A, 10]) == Handled(s1);
    assert [C] !in t2;
    assert ph(s1, [C, 30]) == Handled(s2);
    assert ProcessMessage(s2, [], ph) == Processed(s2, 0, None);
    assert ProcessMessage(s1, [[C, 30]], ph) == Processed(s2, 1, None);
    assert ProcessMessage(ProbeState([], 0), [[A, 10], [C, 30]], ph) == Processed(s2, 2, None);
  }

  /** A duplicate build key keeps the later value. */
  lemma {:induction false} ScenarioDuplicateKey()
    ensures HashJoin(PairCodec(), [0], [[A, 1], [A, 2]], [[A, 9]]).probe.state.output == [[A, 9, 2]]
  {
    var c := PairCodec();
    PairFrames(A, 1, []);
    PairFrames(A, 2, []);
    PairFrames(A, 9, []);
    var bh := BuildHandler(c, [0]);
    var t1: Table<byte> := map[[A] := [1]];
    var t2: Table<byte> := map[[A] := [2]];
    assert t1[[A] := [2]] == t2;
    assert bh(map[], [A, 1]) == Handled(t1);
    assert bh(t1, [A, 2]) == Handled(t2);
    assert ProcessMessage(t2, [], bh) == Processed(t2, 0, None);
    assert ProcessMessage(t1, [[A, 2]], bh) == Processed(t2, 1, None);
    assert ProcessMessage(map[], [[A, 1], [A, 2]], bh) == Processed(t2, 2, None);
    var ph := ProbeHandler(c, [0], t2);
    var s1 := ProbeState([[A, 9, 2]], 1);
    assert t2[[A]] == [2];
    assert JoinedRow<byte>([A], [9], [2]) == [A, 9, 2];
    assert ProbeStep(c, [0], t2, ProbeState([], 0), [A, 9]) == Handled(ProbeState([] + [[A, 9, 2]], 1));
    assert [] + [[A, 9, 2]] == [[A, 9, 2]];
    assert ph(ProbeState([], 0), [A, 9]) == Handled(s1);
    assert ProcessMessage(s1, [], ph) == Processed(s1, 0, None);
    assert ProcessMessage(ProbeState([], 0), [[A, 9]], ph) == Processed(s1, 1, None);
  }

  /**
   * A malformed build frame ends the build phase; the frames after it are never read,
   * and the probe runs against the partial table.
   */
  lemma {:induction false} ScenarioMalformedBuildFrame()
    ensures var run := HashJoin(PairCodec(), [0], [[A, 1], [B, 2], [C, 3], [0], [A, 5]], [[C, 7]]);
            && run.build.state == map[[A] := [1], [B] := [2], [C] := [3]]
            && run.build.read == 4 && run.build.error == Some(KeyExtractFailed)
            && run.probe.state.output == [[C, 7, 3]]
  {
    var c := PairCodec();
    PairFrames(A, 1, [0]);
    PairFrames(B, 2, [0]);
    PairFrames(C, 3, [0]);
    var bh := BuildHandler(c, [0]);
    var t1: Table<byte> := map[[A] := [1]];
    var t2 := t1[[B] := [2]];
    var t3 := t2[[C] := [3]];
    assert t3 == map[[A] := [1], [B] := [2], [C] := [3]];
    assert bh(map[], [A, 1]) == Handled(t1);
    assert bh(t1, [B, 2]) == Handled(t2);
    assert bh(t2, [C, 3]) == Handled(t3);
    assert bh(t3, [0]) == Failed(KeyExtractFailed);
    assert ProcessMessage(t3, [[0], [A, 5]], bh) == Processed(t3, 1, Some(KeyExtractFailed));
    assert ProcessMessage(t2, [[C, 3], [0], [A, 5]], bh) == Processed(t3, 2, Some(KeyExtractFailed));
    assert ProcessMessage(t1, [[B, 2], [C, 3], [0], [A, 5]], bh) == Processed(t3, 3, Some(KeyExtractFailed));
    assert ProcessMessage(map[], [[A, 1], [B, 2], [C, 3], [0], [A, 5]], bh) == Processed(t3, 4, Some(KeyExtractFailed));
    PairFrames(C, 7, [0]);
    assert [C] in t3 && t3[[C]] == [3];
    var ph := ProbeHandler(c, [0], t3);
    var s1 := ProbeState([[C, 7, 3]], 1);
    assert JoinedRow<byte>([C], [7], [3]) == [C, 7, 3];
    assert ProbeStep(c, [0], t3, ProbeState([], 0), [C, 7]) == Handled(ProbeState([] + [[C, 7, 3]], 1));
    assert [] + [[C, 7, 3]] == [[C, 7, 3]];
    assert ph(ProbeState([], 0), [C, 7]) == Handled(s1);
    assert ProcessMessage(s1, [], ph) == Processed(s1, 0, None);
    assert ProcessMessage(ProbeState([], 0), [[C, 7]], ph) == Processed(s1, 1, None);
  }
}
