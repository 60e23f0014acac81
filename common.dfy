/** Types shared by every module of the model. */
module Common {

  /** Python 2 `str` values are byte strings. */
  type Byte = bv8
  type Bytes = seq<Byte>

  /** A file-system path, as the script builds it by string concatenation. */
  type Path = string

  datatype Option<+T> = None | Some(value: T)

  datatype Result<+T, +E> = Ok(value: T) | Err(error: E)

  /** No element occurs twice. */
  predicate Distinct<T(==)>(s: seq<T>) {
    forall i, j :: 0 <= i < j < |s| ==> s[i] != s[j]
  }
}
