/** An optional value: the model of `std::optional`, of a pointer that may be
    null and of a "find" that may come back empty. */
module Optional {

  datatype Option<+T> = None | Some(value: T)
}
