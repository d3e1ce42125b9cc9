/** The usual optional value; `None` stands for the source's NO_MEM and for a failed search. */
module Options {
  datatype Option<+T> = None | Some(value: T)
}
