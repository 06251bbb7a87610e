/** An optional value: Java's nullable references and "no result" returns. */
module Optional {
  datatype Option<+T> = None | Some(value: T)
}
