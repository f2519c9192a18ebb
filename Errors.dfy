/** Optional values and the failures the services raise. */
module Errors {

  datatype Option<+T> = None | Some(value: T)

  /** The exception kinds the C# services throw, with the key or message text they carry. */
  datatype Error =
    | InputError(text: string)    // InputException: a caller-supplied value is missing or out of range
    | LogicError(key: string)     // LogicException(key, message): a business rule refuses the call
    | Unauthorized(text: string)  // UnauthorizedException: the caller may not touch this row
    | NotFound                    // NotFoundException: no row has the given id
    | ArgumentError(text: string) // ArgumentException: raised by the services for unknown rows and OTP refusals
    | NullReference               // dereferencing a row the repository did not find

  /** Result of an operation that returns a value or throws. */
  datatype Result<+T> = Ok(value: T) | Failure(error: Error)

  /** Result of an operation that returns nothing or throws. */
  datatype Outcome = Done | Fail(error: Error)

  /** The decimal text of a count, as string interpolation writes it. */
  function NatText(n: nat): (r: string)
    ensures |r| >= 1 && forall i :: 0 <= i < |r| ==> '0' <= r[i] <= '9'
    ensures n < 10 <==> |r| == 1
  {
    var digit := ['0', '1', '2', '3', '4', '5', '6', '7', '8', '9'][n % 10];
    if n < 10 then [digit] else NatText(n / 10) + [digit]
  }
}
