/** Option and Result, for the values PHP expresses with null, `??` and exceptions. */
module Wrappers {

  datatype Option<+T> = None | Some(value: T) {
    function GetOr(default: T): T {
      match this
      case Some(v) => v
      case None => default
    }
  }

  /** An error PHP would raise, ending the request. */
  datatype Fault =
    | MalformedVersion(version: string)   // arithmetic on a non-numeric version component
    | ArgumentCount(callee: string)       // an internal function called with too few arguments
    | ArgumentType(parameter: string)     // a value a typed parameter cannot accept
    | UndefinedMethod(name: string)       // a call to a method the object does not have
    | StringOffset(key: string)           // `$s['key']` read on a string: a TypeError since PHP 8

  datatype Result<+T> = Success(value: T) | Failure(error: Fault)
}
