/** Failure-carrying return values, standing in for the exceptions the
    Python code raises (ValueError, KeyError, StartGreaterThanEndError). */
module Results {

  datatype Option<+T> = None | Some(value: T)

  datatype Result<+T, +E> = Ok(value: T) | Err(error: E)
}
