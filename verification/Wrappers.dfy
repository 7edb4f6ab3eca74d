/** The two failure-carrying datatypes every other module uses. */
module Wrappers {

  datatype Option<+T> = None | Some(value: T)

  /** `Err` stands for every error return of the source; the message text is not modelled. */
  datatype Result<+T> = Ok(value: T) | Err
}
