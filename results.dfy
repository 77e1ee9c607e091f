/** Outcomes shared by the calldata parsers: a JavaScript exception thrown while
    parsing becomes an `Err` value instead of escaping. */
module Results {

  /** The exceptions the marshalling code can raise. */
  datatype Error =
    | BigIntSyntaxError(token: string)   // BigInt(token) rejected the string
    | JsonSyntaxError(text: string)      // JSON.parse(text) did not yield an array of strings
    | JsonOfUndefined                    // JSON.parse(undefined): the field was missing

  datatype Result<T> = Ok(value: T) | Err(error: Error)

  datatype Option<T> = None | Some(value: T)
}
