/** Optional values, standing in for the `null` / `undefined` of the client code. */
module Wrappers {

  datatype Option<+T> = None | Some(value: T) {

    /** The wrapped value, or `default` when there is none (the `??` operator). */
    function GetOr(default: T): T {
      match this
      case Some(v) => v
      case None => default
    }
  }

  /**
   * The outcome of an asynchronous call the client awaits: it resolved with a
   * value, or it rejected with a message (or with nothing usable).
   */
  datatype Remote<+T> = Resolved(data: T) | Rejected(message: Option<string>)
}
