/** Optional values, and the outcome of a Python call that may raise. */
module Outcomes {

  datatype Option<+T> = None | Some(value: T)

  /** The exceptions the modelled code can raise: `ValueError` from `int`,
      `float` and `datetime.date`, `OverflowError` from `datetime.date` given
      a number wider than a C `int`, `IndexError` from list indexing, and
      `csv.Error` from the CSV reader. */
  datatype Fault = ValueError | OverflowError | IndexError | CsvError

  /** Either the value a call returned or the exception it raised. */
  datatype Result<+T> = Ok(value: T) | Raise(fault: Fault) {
    predicate IsFailure() { Raise? }

    function PropagateFailure<U>(): Result<U>
      requires Raise?
    {
      Raise(fault)
    }

    function Extract(): T
      requires Ok?
    {
      value
    }
  }

  /** Turns a missing value into a raised `ValueError`. */
  function OrValueError<T>(o: Option<T>): (r: Result<T>)
    ensures r.Ok? <==> o.Some?
    ensures r.Ok? ==> r.value == o.value
    ensures r.Raise? ==> r.fault == ValueError
  {
    match o
    case Some(v) => Ok(v)
    case None => Raise(ValueError)
  }
}
