/** Option and Result values used where the JavaScript code returns
    `null`/`undefined` or throws. */
module Wrappers {

  datatype Option<+T> = None | Some(value: T)

  /** `Err` carries the text the thrown error converts to with `String(error)`. */
  datatype Result<+T> = Ok(value: T) | Err(error: string)

  /** The values of a sequence in which every element is present. */
  function Unwrap<T>(xs: seq<Option<T>>): (r: seq<T>)
    requires forall i :: 0 <= i < |xs| ==> xs[i].Some?
    ensures |r| == |xs| && forall i :: 0 <= i < |xs| ==> r[i] == xs[i].value
  {
    if |xs| == 0 then [] else [xs[0].value] + Unwrap(xs[1..])
  }
}
