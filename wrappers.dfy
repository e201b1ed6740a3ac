/** Optional values and error results shared by all modules.
    `None` stands for JavaScript's `undefined`/`null`/`NaN` where the source
    tests a value for absence; `Err` stands for a thrown error. */
module Wrappers {

  datatype Option<T> = None | Some(value: T) {
    /** `value || default` for a value that is falsy only when absent. */
    function GetOr(default: T): T {
      if Some? then value else default
    }
  }

  datatype Result<T> = Ok(value: T) | Err(message: string)
}
