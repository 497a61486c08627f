/** Optional values and the three-way shape of a JSON field. */
module Wrappers {

  datatype Option<+T> = None | Some(value: T)

  datatype Result<+T, +E> = Ok(value: T) | Err(error: E)

  /** A key of a JSON object as Python's dict.get sees it: absent, present with
      null, or present with a value. `d.get(k, default)` answers the default only
      for an absent key; a null comes back as None. */
  datatype Field<+T> = Missing | Null | Present(value: T)
}
