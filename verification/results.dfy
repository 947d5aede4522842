/** Failure-carrying wrappers shared by every reader, and the reasons a parse aborts. */
module Results {

  /** A value that may be absent; the tokenizer's `None` when a line is used up. */
  datatype Option<+T> = None | Some(value: T)

  /** Every fatal condition of the component reader. Each case stands for an
      exception the converter raises; none of them is ever recovered from. */
  datatype Error =
    | BadComponentType(pos: nat, got: Option<string>)    // tag is not <...Component>
    | BadBool(pos: nat, got: Option<string>)             // token is not one of the six spellings
    | BadInt(got: Option<string>)                        // int() rejects the token
    | BadFloat(got: Option<string>)                      // float() rejects the token
    | ExpectedOpenBracket(pos: nat, got: Option<string>) // vector or matrix does not start with [
    | EofInVector                                        // lines ran out before ]
    | EofInMatrix                                        // lines ran out before ]
    | EofInAttributes                                    // lines ran out before a terminating tag
    | RaggedMatrix                                       // rows of unequal length
    | MissingAttribute(key: string)                      // attribute lookup without the key
    | BroadcastMismatch                                  // numpy cannot broadcast two operands' shapes

  /** Either a value or the error that aborted the parse. */
  datatype Result<+T> = Ok(value: T) | Err(error: Error) {

    predicate IsFailure() {
      Err?
    }

    function PropagateFailure<U>(): Result<U>
      requires Err?
    {
      Err(error)
    }

    function Extract(): T
      requires Ok?
    {
      value
    }
  }
}
