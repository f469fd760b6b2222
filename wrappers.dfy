/** Optional values, results, and the exceptions the bridge can raise. */
module Wrappers {

  /** A Java reference that may be null, or a java.util.Optional. */
  datatype Option<+T> = None | Some(value: T) {
    /** The value, or `default` in place of null. */
    function GetOr(default: T): T {
      if Some? then value else default
    }
  }

  /** The outcome of an operation that may throw. */
  datatype Result<+T, +E> = Ok(value: T) | Err(error: E)

  /** The exceptions and errors raised by the bridge, named after what causes them. */
  datatype Failure =
      /** IllegalArgumentException: more than one Micronaut bean matches. */
    | TooManyCandidates
      /** IllegalArgumentException: no Micronaut bean matches. */
    | NoCandidate
      /** IllegalStateException: the processor ran before the Spring environment was set. */
    | EnvironmentNotSet
      /** NullPointerException: the processor ran before the Spring context was set. */
    | SpringContextNotSet
      /** NoClassDefFoundError: a class needed by a bean could not be loaded. */
    | ClassNotFound(className: string)
      /** IllegalStateException from Collectors.toMap: two importers declare the same bean name. */
    | DuplicateKey(key: string)
      /** ClassCastException: a multilayer entry holds a plain value where a map is expected. */
    | NotAMap(key: string)
      /** ArrayIndexOutOfBoundsException: a key made only of dots splits into no segments. */
    | EmptyKeyPath(key: string)
}
