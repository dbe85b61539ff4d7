module Results {
  /** A value, or the `ValueError` raised instead of it. */
  datatype Result<+T> = Ok(value: T) | ValueError
}
