/**
 * Shared vocabulary of the model: keys, optional values, and the Python
 * exceptions that the modelled code raises, as results instead of control flow.
 */
module Prelude {

  /** Cache keys are Python `str`. */
  type Key = string

  datatype Option<T> = None | Some(value: T)

  /** The exceptions the modelled code can raise. */
  datatype PyError =
    | KeyError
    | TypeError
    | AttributeError
    | AssertionError
    | ValueError
    | IndexError
    | ExpiredKeyError

  /** The value a Python call returns, or the exception it raises. */
  datatype Result<T> = Ok(value: T) | Err(error: PyError)

  /** A Python call that returns nothing, or the exception it raises. */
  datatype Outcome = Done | Raised(error: PyError)

  /** `d.get(key, default)` on a Python dict. */
  function Lookup<V>(m: map<Key, V>, key: Key, default: Option<V>): (r: Option<V>)
    ensures key in m ==> r == Some(m[key])
    ensures key !in m ==> r == default
  {
    if key in m then Some(m[key]) else default
  }
}
