/** Types shared by every module: bytes, options and results. */
module Prelude {
  type byte = b: nat | b < 256
  type Bytes = seq<byte>

  datatype Option<+T> = None | Some(value: T)

  datatype Result<+T, +E> = Ok(value: T) | Err(error: E)

  /** A result appended to what was collected before it; an error stays an error. */
  function Onto<T, E>(out: seq<T>, r: Result<seq<T>, E>): Result<seq<T>, E> {
    match r
    case Err(e) => Err(e)
    case Ok(s) => Ok(out + s)
  }

  lemma OntoNothing<T, E>(r: Result<seq<T>, E>)
    ensures Onto([], r) == r
  {
    if r.Ok? {
      assert [] + r.value == r.value;
    }
  }

  lemma OntoTwice<T, E>(out: seq<T>, first: seq<T>, r: Result<seq<T>, E>)
    ensures Onto(out, Onto(first, r)) == Onto(out + first, r)
  {
    if r.Ok? {
      assert out + (first + r.value) == out + first + r.value;
    }
  }
}
