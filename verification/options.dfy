/** A value that may be absent: SQL NULL, a nil pointer, `pgx.ErrNoRows`. */
module Options {
  datatype Option<+T> = None | Some(value: T)
}
