/**
 * Vocabulary shared by the operators: optional values, the errors an
 * operator can report, the messages a register delivers, and the result
 * of one step of an operator.
 */
module Common {

  datatype Option<+T> = None | Some(value: T)

  /** The errors the modelled operators return or raise. */
  datatype Error =
    | Canceled                  // the context was cancelled before the step started
    | Upstream(code: nat)       // an error delivered by a register, passed on unchanged
    | InnerJoinHanging          // a resumed probe made no progress
    | WrongBuildBatch           // a build-side batch other than the last was not full (a panic in the code)
    | RecursionTooDeep          // the recursive CTE exceeded its recursion limit

  /** What a register delivers: a batch, or none (end of stream), and maybe an error. */
  datatype Message<+B> = Message(batch: Option<B>, err: Option<Error>)

  /** The status that accompanies a step's result. */
  datatype ExecStatus = ExecNext | ExecStop

  /** The result of one step: an optional batch and a status. */
  datatype CallResult<+B> = CallResult(batch: Option<B>, status: ExecStatus)

  /** The result a fresh step starts from: no batch, keep going. */
  function NewCallResult<B>(): CallResult<B>
  {
    CallResult(None, ExecNext)
  }

  /** The result of a step that observed cancellation. */
  function CancelResult<B>(): CallResult<B>
  {
    CallResult(None, ExecStop)
  }

  /**
   * A register is modelled as the scripted sequence of messages its
   * producers deliver; once the script is used up, the register is closed
   * and every further receive yields end of stream.
   */
  function At<B>(script: seq<Message<B>>, pos: nat): (m: Message<B>)
    ensures pos < |script| ==> m == script[pos]
    ensures pos >= |script| ==> m.batch.None? && m.err.None?
  {
    if pos < |script| then script[pos] else Message(None, None)
  }

  /** The read position after a receive at `pos`: a closed register does not advance. */
  function Next<B>(script: seq<Message<B>>, pos: nat): (p: nat)
    ensures pos < |script| ==> p == pos + 1
    ensures pos >= |script| ==> p == pos
  {
    if pos < |script| then pos + 1 else pos
  }
}
