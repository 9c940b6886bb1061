/** A nullable value: the model's reading of a TypeScript `T | null`. */
module Optional {

  datatype Option<+T> = None | Some(value: T) {

    /** The wrapped value, or `fallback` when there is none (TypeScript `??`). */
    function OrElse(fallback: T): T
    {
      match this
      case Some(v) => v
      case None => fallback
    }
  }
}
