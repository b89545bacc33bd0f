/** A text field of a book that may be `null` or `undefined` is an Option here:
    both read as None, since such fields are only read through `?.`, `||` and `===`
    against a string, which treat them alike. */
module Options {
  datatype Option<+T> = None | Some(value: T)
}
