/** An optional value: JavaScript's `undefined` result of a lookup that finds nothing. */
module Options {

  datatype Option<T> = None | Some(value: T)

}
