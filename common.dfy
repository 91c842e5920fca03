/** Vocabulary shared by the modules of the conversion gateway. */
module Common {

  /** An optional value; also usable with `:-` to stop at the first missing one. */
  datatype Option<+T> = None | Some(value: T) {
    predicate IsFailure() { None? }

    function PropagateFailure<U>(): Option<U>
      requires None?
    {
      None
    }

    function Extract(): T
      requires Some?
    {
      value
    }
  }

  /** An octet of the response body. */
  newtype byte = x: int | 0 <= x < 256

  /** Python's `s.startswith(prefix)`. */
  predicate StartsWith(s: string, prefix: string) {
    |prefix| <= |s| && s[..|prefix|] == prefix
  }
}
