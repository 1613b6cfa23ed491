/** Value wrappers shared by the whole model. */
module Wrappers {

  /** JavaScript's `undefined`/`null` versus a present value. */
  datatype Option<+T> = None | Some(value: T)

  /** The outcome of a getter that may dereference a missing config entry:
      JavaScript raises a TypeError there instead of returning. */
  datatype Outcome<+T> = Returns(value: T) | ThrowsTypeError

  /** Looking a key up in a dictionary object: `obj[key]`. */
  function Get<K, V>(m: map<K, V>, k: K): (r: Option<V>)
    ensures r.Some? <==> k in m
    ensures r.Some? ==> r.value == m[k]
  {
    if k in m then Some(m[k]) else None
  }
}
