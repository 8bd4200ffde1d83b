/** Values shared by every module of the model. */
module Common {

  /** A JavaScript value that may be `undefined` (or `null`): `None` stands for
      the absent value, `Some(v)` for a present one. */
  datatype Option<+T> = None | Some(value: T)
}
