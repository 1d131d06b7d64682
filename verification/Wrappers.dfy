/**
 What several components share: the optional value used for null, undefined and a
 missing key, the fields of a partial update, and the shape of row ids.
 */
module Wrappers {
  datatype Option<+T> = None | Some(value: T)

  datatype Result<+R, +E> = Ok(value: R) | Err(error: E)

  /** A field of an update: left out, refused by its validator, or given. */
  datatype Field<+T> = Absent | Rejected | Given(value: T)

  function Pick<T>(field: Field<T>, current: T): T {
    if field.Given? then field.value else current
  }

  /** `validateId`: its second and third pattern are instances of the first. */
  predicate ValidId(id: string) {
    8 <= |id| <= 128 && forall i :: 0 <= i < |id| ==> IdChar(id[i])
  }

  predicate IdChar(c: char) {
    'A' <= c <= 'Z' || 'a' <= c <= 'z' || '0' <= c <= '9' || c == '_' || c == '-'
  }
}
