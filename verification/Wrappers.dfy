/** Optional values, standing in for the nullable columns and absent form fields of the application. */
module Wrappers {

  /** `None` plays the role of SQL NULL / Python `None`. */
  datatype Option<+T> = None | Some(value: T)
}
