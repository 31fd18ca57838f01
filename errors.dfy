/** The three ways inference can fail, and the result type that carries them
    in place of an exception. */
module Errors {
  import opened Types

  datatype TypeError =
    | UnboundVariable(name: string)
    | UnificationFailure(left: Type, right: Type)
    | OccursCheckFailure(varName: string, t: Type)

  datatype Result<T> = Ok(value: T) | Err(error: TypeError)
}
