/** Optional values and the failure outcomes of Python operations. */
module Wrappers {

  /** A value that may be Python's `None`. */
  datatype Option<T> = None | Some(value: T)

  /** The Python exception classes the modelled code can raise. */
  datatype Error =
    | IndexError      // sequence index out of range
    | KeyError        // dictionary key missing
    | ValueError      // malformed text for int()/fromhex(), wrong number of fields
    | TypeError       // arithmetic or comparison on None
    | AttributeError  // attribute access on None
    | DecodeError     // base64 payload rejected by the decoder
    | StructError     // struct.unpack given the wrong number of bytes
    | IOError         // the hub connection failed
    | Unsupported     // input whose Python behaviour the model does not follow

  /** Either a value or the exception that stopped the computation. */
  datatype Result<T> = Ok(value: T) | Err(error: Error) {
    predicate IsFailure() { Err? }

    function PropagateFailure<U>(): Result<U>
      requires Err?
    {
      Err(error)
    }

    function Extract(): T
      requires Ok?
    {
      value
    }
  }

  /** Turns a missing value into the given exception. */
  function Need<T>(o: Option<T>, e: Error): (r: Result<T>)
    ensures r.Ok? <==> o.Some?
    ensures r.Ok? ==> r.value == o.value
  {
    match o
    case Some(v) => Ok(v)
    case None => Err(e)
  }
}
