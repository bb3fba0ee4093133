/** Values for the two ways a C# accessor can fail to give a plain answer:
    a reference that may be null becomes an Option, and an accessor that may
    throw returns a Result naming the .NET exception it raises. */
module Results {

  /** A C# reference that may be null. */
  datatype Option<+T> = None | Some(value: T) {
    function GetOr(fallback: T): T {
      match this
      case Some(v) => v
      case None => fallback
    }
  }

  /** The exceptions the modelled accessors can raise. */
  datatype Exception =
    | ArgumentException            // ParameterDeclaration.Type on a kind without a type
    | ArgumentNullException        // MethodDeclaration.Name on a kind without an identifier
    | ArgumentOutOfRangeException  // String.Substring or a list indexer out of range
    | NullReferenceException       // member access on an absent (null) syntax node
    | NotImplementedException      // the MethodDeclaration.Name setter

  /** The outcome of an accessor that either returns a value or throws. */
  datatype Result<+T> = Ok(value: T) | Throws(exception: Exception)
}
