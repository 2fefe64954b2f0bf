/** Small wrapper types shared by the other modules. */
module Base {

  datatype Option<+T> = None | Some(value: T)

  /** The result of a computation that may raise: `Crash` stands for a Python
      exception (the only one the modelled code can raise is the IndexError
      of an empty acronym part in the name scorer). */
  datatype Outcome<+T> = Ok(value: T) | Crash
}
