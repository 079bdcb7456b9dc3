/** Types shared by the framing unit and the validation unit: optional values,
    results, the `{code, note}` error pair and the width of `size_t`. */
module Shared {

  datatype Option<+T> = None | Some(value: T)

  datatype Result<+R, +E> = Success(value: R) | Failure(error: E)

  /** `default_error_t`: a signed code and a short note. Transport codes
      (-206, -400, -405) and JSON-RPC codes (-32600, -32601, -32700) share it. */
  datatype ProtocolError = ProtocolError(code: int, note: string)

  /** Number of values of a 64-bit `size_t`; arithmetic on it wraps modulo this. */
  const Size64: nat := 0x1_0000_0000_0000_0000
}
