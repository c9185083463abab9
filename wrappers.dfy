/** A C# reference that may be null, modelled as a value. */
module Wrappers {

  /** `Null` stands for a C# null reference, `Some(v)` for a non-null one. */
  datatype Option<+T> = Null | Some(value: T)
}
