/** The Python exceptions the manifold constructors and operators raise, and
    the result type of an operation that may raise one of them. */
module Errors {

  datatype Error =
    | ValueError(message: string)
    | TypeError(message: string)
    | AttributeError(message: string)
    | AssertionError

  datatype Result<T> = Ok(value: T) | Err(error: Error)

  function Digit(d: nat): char
    requires d < 10
  {
    "0123456789"[d]
  }

  function NatToString(n: nat): string
  {
    if n < 10 then [Digit(n)] else NatToString(n / 10) + [Digit(n % 10)]
  }

  /** Python's `str` of an integer, as an f-string formats it. */
  function IntToString(i: int): string
  {
    if i < 0 then "-" + NatToString(-i) else NatToString(i)
  }
}
