/** Value types shared by every part of the model: optional values, results
    and the byte buffers that carry images. */
module Basics {

  /** One octet of a Node `Buffer` or an `ArrayBuffer`. */
  newtype byte = x: int | 0 <= x < 256

  /** Binary payload of an image (JPEG, PNG, GIF, ...) as raw octets. */
  type Bytes = seq<byte>

  /** A JavaScript value that may be `null` or `undefined` (`None`). */
  datatype Option<+T> = None | Some(value: T) {
    function GetOr(default: T): T {
      match this
      case Some(v) => v
      case None => default
    }
  }

  /** The outcome of an operation that either resolves or throws. */
  datatype Result<+T, +E> = Success(value: T) | Failure(error: E)

  /** A JavaScript `Error` object; only its message is observable. */
  datatype Error = Error(message: string)

  /** `get(name)` on an ordered list of name/value pairs, as `URLSearchParams`
      and `FormData` implement it: the value of the first pair named `name`. */
  function FirstValue<V>(entries: seq<(string, V)>, name: string): (r: Option<V>)
    ensures r.Some? <==> exists i :: 0 <= i < |entries| && entries[i].0 == name
    ensures r.Some? ==> exists i :: 0 <= i < |entries| && entries[i] == (name, r.value)
                          && forall j :: 0 <= j < i ==> entries[j].0 != name
    decreases |entries|
  {
    if entries == [] then None
    else if entries[0].0 == name then Some(entries[0].1)
    else
      var rest := FirstValue(entries[1..], name);
      assert forall i :: 1 <= i < |entries| ==> entries[i] == entries[1..][i - 1];
      rest
  }
}
