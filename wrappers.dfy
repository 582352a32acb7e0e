/** Optional values, results and the Java exceptions the core can raise. */
module Wrappers {

  /** A Java reference that may be null. */
  datatype Option<+T> = None | Some(value: T)

  /** A value, or the exception a Java method would have thrown instead. */
  datatype Result<+R, +E> = Success(value: R) | Failure(error: E)

  /** The unchecked exceptions that can escape the registry's operations. */
  datatype JavaException = StringIndexOutOfBounds | NullPointer

  /** How a void Java method ended: normally, or by throwing. */
  datatype Outcome = Normal | Threw(exception: JavaException)

  /** `Map.get`: the value under `k`, or null. */
  function Get<K, V>(m: map<K, V>, k: K): (r: Option<V>)
    ensures r.Some? <==> k in m
    ensures r.Some? ==> r.value == m[k]
  {
    if k in m then Some(m[k]) else None
  }
}
