/**
 * Absence and failure. Ruby's `nil` becomes `None`; each exception the
 * parser raises or rescues becomes an `Error` carried by `Err`.
 */
module Outcomes {

  datatype Option<+T> = None | Some(value: T)

  datatype Error =
    | CompilationFailed(formatString: string)  // Format::CompilationFailed
    | NoCaptures                               // TypeError from `captures[nil, 8]`
    | WrongArity                               // ArgumentError: `process` given too few values
    | MeridianHour                             // ArgumentError raised by `full_hour`
    | NilReceiver                              // NoMethodError: a method called on nil
    | FormatNotFound(formatString: string)     // raised by `remove_formats`
    | FormatIncluded(formatString: string)     // raised by `add_formats`
    | BeforeNotFound(formatString: string)     // raised by `add_formats` for `:before`

  datatype Result<+T> = Ok(value: T) | Err(error: Error)

  /** An array of `n` nils. */
  function Nones<T>(n: nat): (r: seq<Option<T>>)
    ensures |r| == n && forall i :: 0 <= i < n ==> r[i].None?
  {
    seq(n, _ => None)
  }

  /** Every value present, in order. */
  function Somes<T>(xs: seq<T>): (r: seq<Option<T>>)
    ensures |r| == |xs| && forall i :: 0 <= i < |xs| ==> r[i] == Some(xs[i])
  {
    seq(|xs|, i requires 0 <= i < |xs| => Some(xs[i]))
  }
}
