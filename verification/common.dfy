/** Small value types shared by the engine model. */
module Common {

  /** A `const char*` as the engine uses it: either null or an address.
      Registries key their maps by the pointer itself, so two keywords are
      the same key exactly when their addresses are equal. */
  datatype CStr = NullPtr | Ptr(address: nat)

  /** A nullable pointer to a `T`. */
  datatype Option<+T> = Nothing | Some(value: T)

  /** The result of an operation whose source may follow a null pointer:
      either it completes with a new value, or it dereferences null. */
  datatype Outcome<+T> = Done(value: T) | NullDereference
}
