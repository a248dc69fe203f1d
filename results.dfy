/** Failure-compatible wrappers and the errors the status-file parser can raise. */
module Results {

  /** The exceptions `DAGstatus.py` lets escape from `process`, one constructor each. */
  datatype ParseError =
    | MalformedLine(line: string)      // IndexError: `parts[1]` on a body line without '='
    | MissingKey(key: string)          // KeyError: `contents[key]` for a key the block lacks
    | UnknownBlockType(typeName: string) // KeyError("Unknown block Type")
    | NotAnInteger(text: string)       // ValueError: `int(text)`
    | FloatOverflow                    // OverflowError: a count too large to become a float
    | ZeroNodesTotal                   // ZeroDivisionError computing `nodes_done_percent`
    | NoDagStatus                      // AttributeError: `dag_status` is still None at the end

  datatype Result<+T> = Ok(value: T) | Err(error: ParseError) {

    predicate IsFailure() {
      Err?
    }

    function PropagateFailure<U>(): Result<U>
      requires Err?
    {
      Err(error)
    }

    function Extract(): T
      requires Ok?
    {
      value
    }
  }

  datatype Option<+T> = None | Some(value: T)
}
