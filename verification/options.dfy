/** The optional value used wherever the timer's inputs or readings may be absent. */
module Options {

  /** `None` stands for a value that is not there (an unparsable field, a rejected reading). */
  datatype Option<+T> = None | Some(value: T)
}
