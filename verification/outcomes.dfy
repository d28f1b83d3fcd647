/** Failure-compatible results and the error taxonomy of the solution object.
    Every exception the Python code raises on a path that is modelled becomes
    one constructor of `Error`. */
module Outcomes {

  datatype Error =
    | IndexOutOfRange                      // IndexError: indexing an empty list or array
    | NotStrictlyIncreasing                // "Solution time vector must be strictly increasing"
    | NothingToConcatenate                 // np.concatenate of an empty list of segments
    | TypeMismatch                         // "Only a Solution or None can be added to a Solution"
    | MissingTiming                        // TypeError from summing a timing that is still None
    | UnknownVariable(name: string)        // KeyError from a model's variable registry
    | EmptyData                            // "Solution does not have any data"
    | InvalidIdentifier(character: char, name: string)
    | NotZeroDimensional(name: string, dimension: nat)
    | NotTabular                           // pd.DataFrame: columns of different lengths, or scalars only
    | UnknownFormat(format: string)
    | EmptyArray                           // np.min / np.max of an empty array
    | AuxiliarySolveFailed                 // the electrode state-of-health solve failed
    | MissingKey(key: string)              // KeyError from a plain dictionary lookup

  datatype Option<+T> = None | Some(value: T) {
    function GetOr(default: T): T {
      match this
      case Some(v) => v
      case None => default
    }
  }

  datatype Result<+T> = Ok(value: T) | Err(error: Error) {
    predicate IsFailure() {
      Err?
    }

    function PropagateFailure<U>(): Result<U>
      requires Err?
    {
      Err(error)
    }

    function Extract(): T
      requires Ok?
    {
      value
    }
  }
}
