/** The failure-carrying results that stand for Go's (value, error) returns and nil-able values. */
module Results {

  datatype Option<+T> = None | Some(value: T)

  datatype Result<+T, +E> = Ok(value: T) | Err(error: E)
}
