/** Failure-carrying values shared by the whole model.

    The Java code signals a missing value with `null` and a broken input with a
    runtime exception. Here `Option` stands for a nullable reference and
    `Result` for a computation that may throw.
 */
module Results {

  datatype Option<+T> = None | Some(value: T)

  /** The runtime exceptions the modelled Java code can raise. */
  datatype Error =
    | UnknownDegree(token: string)   // degree number missing from the half-step table
    | NumberFormat(token: string)    // a digit run too long for `Integer.parseInt`
    | MissingRoot                    // a null root note is dereferenced
    | MissingScale                   // a null scale is dereferenced
    | IndexOutOfBounds               // an array index outside its bounds
    | DivisionByZero                 // an integer `%` by zero

  datatype Result<+T> = Ok(value: T) | Err(error: Error)
}
