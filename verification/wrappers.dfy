/** The optional value used for every nullable thing the extractor reads: a
    query result that may be a null cursor, a column that may hold SQL NULL,
    a batch builder that may never have been created. */
module Wrappers {

  /** `None` plays the part of Java's `null`. */
  datatype Option<+T> = None | Some(value: T)
}
