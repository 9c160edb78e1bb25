/** Optional values, the library's exceptions, and results that carry either. */
module Outcomes {

  datatype Option<+T> = None | Some(value: T) {
    function GetOr(default: T): T {
      match this
      case Some(v) => v
      case None => default
    }
  }

  /** The exceptions the trace engine raises, by cause. */
  datatype Error =
    | TypeError            // a value of the wrong PHP type reached a typed parameter
    | ClassRequired        // a '::' or '->' record without a class
    | NamespaceRequired    // a namespaced function without namespace
    | InvalidFunctionType  // a record whose `type` is neither '::' nor '->' (and no closure name)
    | EmptyStack           // trace assembly kept no frame
    | ImmutableTrace       // an indexed write to a constructed trace
    | ReflectionFailure    // `ReflectionException`: reflection of a class or namespaced function PHP does not know

  datatype Result<+T> = Ok(value: T) | Err(error: Error)
}
