/** Datatypes shared by the modules of this model: optional values, results and the errors the code can raise. */
module Wrappers {

  /** A value that may be absent; in the regularised series `None` is pandas' NaN. */
  datatype Option<+T> = None | Some(value: T)

  /** The outcome of an operation that the source lets raise. */
  datatype Result<+T, +E> = Ok(value: T) | Err(error: E)

  /** The outcome of an operation that raises or returns nothing of interest. */
  datatype Outcome<+E> = Pass | Fail(error: E)

  /** The exceptions the modelled code can raise. */
  datatype Error =
    | NoSuchColumn(column: string)  // pandas' KeyError for a missing column
    | NoSuchPalette(size: nat)      // KeyError from the palette table lookup
}
