/** The ways the statistics engine can fail. The engine raises a Python
    exception in each case; the model returns it as a tagged result. */
module Outcomes {

  /** The exception the engine raises:
      - DivisionByZero: `ZeroDivisionError` (N = 0, N - 1 = 0, s = 0, mean = 0,
        zero bin count or zero bin width);
      - EmptySequence: `ValueError` from `min` of an empty list;
      - IndexOutOfRange: `IndexError` on the empty count list when the bin
        count is negative. */
  datatype Fault = DivisionByZero | EmptySequence | IndexOutOfRange

  datatype Result<T> = Success(value: T) | Failure(error: Fault)
}
