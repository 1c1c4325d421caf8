/** Option and Result values used for absent fields, failed lookups and thrown errors. */
module Results {

  datatype Option<+T> = None | Some(value: T)

  datatype Result<+T, +E> = Ok(value: T) | Err(error: E)
}
