/** Optional values, the Java exceptions the modelled code can raise, and
    results that either return a value or carry the exception thrown. */
module Outcomes {

  datatype Option<T> = None | Some(value: T)

  /** The unchecked Java exceptions reachable in the modelled code. */
  datatype Exception = NullPointer | IndexOutOfBounds | ClassCast

  /** Either the value a Java call returns or the exception it throws instead. */
  datatype Result<T> = Ok(value: T) | Throw(exc: Exception)

  /** `map.get(k)` on an Integer map, with a missing key read as 0. */
  function GetOrZero<K>(m: map<K, int>, k: K): (v: int)
    ensures k in m ==> v == m[k]
    ensures k !in m ==> v == 0
  {
    if k in m then m[k] else 0
  }
}
