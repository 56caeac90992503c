/** Optional values, results and the failures the two feed endpoints report. */
module Outcomes {

  /** A value that may be absent: JavaScript's `null`/`undefined` on one side, a number on the other. */
  datatype Option<+T> = None | Some(value: T)

  /** The outcome of an endpoint or of a step that can throw. */
  datatype Result<+T> = Ok(value: T) | Err(error: Failure)

  /** Every modelled way a request can end in `{ success: false, error }`. */
  datatype Failure =
    | SheetNotFound          // the workbook has no "Projections" sheet
    | HeaderRowMissing       // fewer than seven rows: `rawData[6]` is undefined
    | RequiredColumnsMissing // the header check rejected row 7
    | InvalidTimeValue       // `toISOString` on a Date outside the time range
    | CsvParseError(message: string) // csv-parse rejected the CSV text

  /** The `error` text of the failure response (V8's wording for the two runtime errors). */
  function Message(f: Failure): string
  {
    match f
    case SheetNotFound => "Sheet 'Projections' not found"
    case HeaderRowMissing => "Cannot read properties of undefined (reading 'indexOf')"
    case RequiredColumnsMissing => "Required columns not found in row 7"
    case InvalidTimeValue => "Invalid time value"
    case CsvParseError(msg) => msg
  }

  /** The four fixed failures report four different texts. */
  lemma MessagesDistinct(f: Failure, g: Failure)
    requires !f.CsvParseError? && !g.CsvParseError? && f != g
    ensures Message(f) != Message(g)
  {
    var n := |Message(f)|;
    // The texts differ in length: 29, 55, 35 and 18 characters.
    match f
    case SheetNotFound => assert n == 29;
    case HeaderRowMissing => assert n == 55;
    case RequiredColumnsMissing => assert n == 35;
    case InvalidTimeValue => assert n == 18;
  }
}
