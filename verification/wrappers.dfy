/** Option and Result, used wherever the Java code returns null or throws. */
module Wrappers {

  /** `None` stands for a Java `null` result. */
  datatype Option<+T> = None | Some(value: T)

  /** `Err` stands for an exception the Java code throws; the payload names it. */
  datatype Result<+T> = Ok(value: T) | Err(error: string)
}
