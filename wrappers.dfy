/** Option and Result, used for the values a Python call may fail to produce
    and for the exceptions the modelled code raises, and `dict.get`. */
module Wrappers {

  datatype Option<+T> = None | Some(value: T)

  datatype Result<+T, +E> = Ok(value: T) | Err(error: E)

  /** `d.get(key, default)`. */
  function Get<V>(m: map<string, V>, key: string, default: V): V {
    if key in m then m[key] else default
  }
}
