/**
 * The part of the pipeline description (`msg.Instruction`) that carries this operator to a
 * worker: the instruction name and, for this operator, its key-column positions.
 */
module Msg {
  import opened Wrappers

  datatype LocalHashAndJoinWith = LocalHashAndJoinWith(indexes: seq<int>)

  /** One instruction of a pipeline description; only this operator's payload is modelled. */
  datatype Instruction = Instruction(name: string, localHashAndJoinWith: Option<LocalHashAndJoinWith>)
}
