/** Outcome of a call into a collaborator that may raise. */
module Results {

  /** `None` stands for "the call raised"; `Some(v)` carries the returned value. */
  datatype Option<+T> = None | Some(value: T)
}
