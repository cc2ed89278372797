/** The failures the generator can raise, and a failure-compatible result type. */
module Results {

  /** `get_python_type` indexes TYPE_MAPPING with a wire-type tag that has no
      entry (a KeyError); `key, value = fields` unpacks a map entry message
      that does not have exactly two fields (a ValueError). */
  datatype Error =
    | UnknownWireType(tag: int)
    | MapEntryNotPair(fieldCount: nat)

  datatype Result<+T> = Ok(value: T) | Err(error: Error) {

    predicate IsFailure() {
      Err?
    }

    function PropagateFailure<U>(): Result<U>
      requires Err?
    {
      Err(error)
    }

    function Extract(): T
      requires Ok?
    {
      value
    }
  }
}
