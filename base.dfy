/** Optional values and results, standing in for Java's null and exceptions. */
module Wrappers {

  /** `None` plays the part of a Java `null`. */
  datatype Option<+T> = None | Some(value: T)

  /** `Err` plays the part of an exception thrown by the callee. */
  datatype Result<+T, +E> = Ok(value: T) | Err(error: E)
}

/** The objects a cache stores. */
module CacheValues {

  /**
   * A cached object. `Prevent` is the process-wide anti-penetration
   * placeholder ("known absent"); it is a constructor of its own, so no
   * legitimate value can be mistaken for it, whatever its payload
   * (an empty string included).
   */
  datatype CacheValue = Prevent | Plain(payload: string)
  {
    /** The identity test against the placeholder. */
    predicate IsPrevent() { Prevent? }
  }
}
