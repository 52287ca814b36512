/**
 * The collaborators of the join that live in the `util` package: the row codec and
 * the frame iteration primitive `util.ProcessMessage`. Their code is not part of this
 * model. The codec is a value of `Codec<V>` handed to the operator, and the properties
 * the join relies on are stated as predicates that lemmas take as preconditions.
 */
module Util {
  import opened Wrappers

  newtype byte = x: int | 0 <= x < 256

  /** One message payload, as `util.ProcessMessage` hands it to a handler. */
  type Frame = seq<byte>

  /** A decoded row, or a part of one: its field values in order. */
  type Row<V> = seq<V>

  /** Why a handler gave up on a frame. */
  datatype Error =
    | KeyExtractFailed   // genKeyBytesAndValues failed on a build frame
    | RowDecodeFailed    // util.DecodeRowKeysValues failed on a probe frame
    | KeyEncodeFailed    // util.EncodeRow failed on the keys of a probe frame

  /**
   * The three codec helpers the join calls. Each is deterministic (a function) and
   * reports failure as None.
   *  - decodeRowKeysValues(input, indexes): the key fields at `indexes` and the other fields;
   *  - encodeRow(fields): the canonical bytes of a row;
   *  - genKeyBytesAndValues(input, indexes): the canonical key bytes and the other fields.
   */
  datatype Codec<!V> = Codec(
    decodeRowKeysValues: (Frame, seq<int>) -> Option<(Row<V>, Row<V>)>,
    encodeRow: Row<V> -> Option<seq<byte>>,
    genKeyBytesAndValues: (Frame, seq<int>) -> Option<(seq<byte>, Row<V>)>)

  /** A frame split into its key fields, its other fields and the canonical bytes of the keys. */
  datatype Decoded<V> = Decoded(keys: Row<V>, vals: Row<V>, keyBytes: seq<byte>)

  /** Decode a frame and encode its keys, as the probe handler does. */
  function DecodeAndEncodeKey<V>(c: Codec<V>, input: Frame, indexes: seq<int>): (d: Option<Decoded<V>>)
    ensures d.Some? <==> c.decodeRowKeysValues(input, indexes).Some?
                         && c.encodeRow(c.decodeRowKeysValues(input, indexes).value.0).Some?
    ensures d.Some? ==> c.decodeRowKeysValues(input, indexes) == Some((d.value.keys, d.value.vals))
                        && c.encodeRow(d.value.keys) == Some(d.value.keyBytes)
  {
    match c.decodeRowKeysValues(input, indexes)
    case None => None
    case Some(kv) =>
      match c.encodeRow(kv.0)
      case None => None
      case Some(keyBytes) => Some(Decoded(kv.0, kv.1, keyBytes))
  }

  /**
   * The build side computes its key bytes with genKeyBytesAndValues, the probe side with
   * DecodeRowKeysValues followed by EncodeRow. The join is only an equi-join if the two agree.
   */
  ghost predicate SharedKeyEncoding<V>(c: Codec<V>) {
    forall input, indexes ::
      c.genKeyBytesAndValues(input, indexes) ==
        match DecodeAndEncodeKey(c, input, indexes)
        case None => None
        case Some(d) => Some((d.keyBytes, d.vals))
  }

  /** Only equal field sequences encode to the same bytes. */
  ghost predicate InjectiveEncoding<V(!new)>(c: Codec<V>) {
    forall a, b :: c.encodeRow(a).Some? && c.encodeRow(a) == c.encodeRow(b) ==> a == b
  }

  /** What a handler returns for one frame: the updated state, or the error that stops iteration. */
  datatype Handled<S> = Handled(next: S) | Failed(error: Error)

  /** The result of iterating over a stream: final state, frames taken from the stream, error if any. */
  datatype Processed<S> = Processed(state: S, read: nat, error: Option<Error>)

  /**
   * util.ProcessMessage: hand every frame to `handler` in stream order, threading the state
   * the handler updates, and stop at the first frame the handler fails on.
   */
  function ProcessMessage<S>(state: S, frames: seq<Frame>, handler: (S, Frame) -> Handled<S>): (r: Processed<S>)
    ensures r.read <= |frames|
    ensures r.error.None? ==> r.read == |frames|
    ensures r.error.Some? ==> 1 <= r.read
  {
    if frames == [] then Processed(state, 0, None)
    else
      match handler(state, frames[0])
      case Failed(e) => Processed(state, 1, Some(e))
      case Handled(next) =>
        var rest := ProcessMessage(next, frames[1..], handler);
        Processed(rest.state, rest.read + 1, rest.error)
  }

  /** Once a handler has failed, frames after the failing one are never looked at. */
  lemma {:induction false} ProcessMessageStops<S>(state: S, frames: seq<Frame>, more: seq<Frame>,
                                                  handler: (S, Frame) -> Handled<S>)
    requires ProcessMessage(state, frames, handler).error.Some?
    ensures ProcessMessage(state, frames + more, handler) == ProcessMessage(state, frames, handler)
  {
    assert (frames + more)[0] == frames[0];
    assert (frames + more)[1..] == frames[1..] + more;
    match handler(state, frames[0])
    case Failed(_) =>
    case Handled(next) => ProcessMessageStops(next, frames[1..], more, handler);
  }

  /** Iterating over a stream without error and then over more frames is iterating over both. */
  lemma {:induction false} ProcessMessageConcat<S>(state: S, frames: seq<Frame>, more: seq<Frame>,
                                                   handler: (S, Frame) -> Handled<S>)
    requires ProcessMessage(state, frames, handler).error.None?
    ensures var r := ProcessMessage(state, frames, handler);
            var r' := ProcessMessage(r.state, more, handler);
            ProcessMessage(state, frames + more, handler) == Processed(r'.state, r.read + r'.read, r'.error)
  {
    if frames == [] {
      assert frames + more == more;
    } else {
      assert (frames + more)[0] == frames[0];
      assert (frames + more)[1..] == frames[1..] + more;
      match handler(state, frames[0])
      case Handled(next) => ProcessMessageConcat(next, frames[1..], more, handler);
    }
  }
}
