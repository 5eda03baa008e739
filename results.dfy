/** Outcome types shared by the whole model. */
module Results {

  datatype Option<+T> = None | Some(value: T)

  /** An unchecked Java exception that escapes the code that raised it. */
  datatype Fault =
    | ArrayIndexOutOfBounds  // reading parts[1] of a split that found no delimiter
    | DateTimeParse          // LocalDateTime.parse on a corrupted stored field

  /**
   * What a core operation produces: a value, a ShinchanException carrying
   * its message (the recoverable error the user sees), or an unchecked
   * exception that the interpreter does not catch.
   */
  datatype Result<+T> = Ok(value: T) | Fail(message: string) | Crash(fault: Fault)

  /** A failure carried over unchanged to another result type, as an exception propagates. */
  function Propagate<T, U>(r: Result<T>): (p: Result<U>)
    requires !r.Ok?
    ensures !p.Ok? && p.Fail? == r.Fail?
    ensures p.Fail? ==> p.message == r.message
    ensures p.Crash? ==> p.fault == r.fault
  {
    if r.Fail? then Fail(r.message) else Crash(r.fault)
  }
}
