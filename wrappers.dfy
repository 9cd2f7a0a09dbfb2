/** Failure-compatible result types for the forward computation.

    Every way a forward call of the Q-networks can raise (a tensor of the wrong
    width reaching a linear layer, an empty list handed to `torch.cat`, a
    missing `data['t']`, a scatter index out of range) is an `Error` value
    here instead of an exception. The entries `data['state']` and
    `data['prev_action']` are always present in a `Row`.
 */
module Wrappers {

  datatype Option<+T> = None | Some(value: T)

  /** The kinds of failure a forward call can end in. */
  datatype Error =
    | ShapeMismatch   // a tensor whose width disagrees with the configuration,
                      // or a label scatter with more index rows than target rows
    | MissingField    // a batch entry the active mode reads is absent
    | EmptyHistory    // an empty list of timesteps reaches cat/stack/[-1]
    | IndexOutOfRange // a scatter index outside the width of its one-hot row

  datatype Result<+T> = Ok(value: T) | Err(error: Error) {

    predicate IsFailure() {
      Err?
    }

    function PropagateFailure<U>(): Result<U>
      requires Err?
    {
      Err(error)
    }

    function Extract(): T
      requires Ok?
    {
      value
    }
  }
}
