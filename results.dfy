/** Failure-carrying return values shared by the modules of this model: a C++
    exception or a Python `raise` becomes an `Err`. */
module Results {

  datatype Option<+T> = None | Some(value: T)

  datatype Result<+T, +E> = Ok(value: T) | Err(error: E)
}
