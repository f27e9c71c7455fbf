/**
 Failure-carrying result types for the cleaning pipeline.

 The Python code reports failure by raising exceptions; here every raising
 path becomes an `Err` value naming the exception the code would raise.
 */
module Outcomes {

  /** `None` plays the role of a missing entry (pandas NaN, a missing dict key). */
  datatype Option<+T> = None | Some(value: T) {
    function GetOr(default: T): T {
      match this
      case Some(v) => v
      case None => default
    }
  }

  /** The exceptions the modelled code raises. */
  datatype Error =
    | UnknownSymbol(symbol: string)            // get_symbol_info / get_table_name ValueError
    | UnknownTimeframe(timeframe: string)      // get_table_name ValueError
    | SymbolTypeUnknown(symbol: string)        // get_table_name fallback ValueError
    | NaiveIndex                               // _convert_to_local_time ValueError
    | MissingColumns(columns: seq<string>)     // _validate_ohlc ValueError
    | ColumnNotFound(columns: seq<string>)     // pandas KeyError on a column selection
    | ShapeMismatch                            // pandas ValueError building a frame of the wrong length
    | EmptyIndex                               // pandas IndexError on index[-1] of an empty frame
    | ZeroDivision                             // Python ZeroDivisionError on a float division by zero
    | AttributeMissing                         // Python AttributeError: a value lacks the attribute asked for
    | NotCallable                              // Python TypeError: a module object is called
    | ModuleMissing                            // Python ImportError: scikit-learn is not installed

  datatype Result<+T> = Ok(value: T) | Err(error: Error) {
    predicate IsFailure() {
      Err?
    }

    function PropagateFailure<U>(): Result<U>
      requires Err?
    {
      Err(error)
    }

    function Extract(): T
      requires Ok?
    {
      value
    }
  }
}
