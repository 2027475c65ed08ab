/** An optional value: `None` stands for JavaScript's null, undefined or
    NaN where a result may be missing. */
module Options {
  datatype Option<+T> = None | Some(value: T)
}
