/** Optional values, results and the exceptions the legend generator raises. */
module Errors {

  datatype Option<+T> = None | Some(value: T)

  /** A value, or the exception that interrupted its computation. */
  datatype Result<+T> = Ok(value: T) | Err(error: Error)

  /** The Python exceptions the core can raise, each with the text it carries. */
  datatype Error =
    | LegendaryError(message: string)      // MapnikLegendaryError
    | KeyError(key: string)                // a required mapping key is missing
    | TypeError(message: string)
    | IndexError(message: string)
    | FileNotFoundError(path: string)      // an image file that cannot be opened
    | ValueError(colour: string)           // a colour text PIL cannot parse
    | RendererError(message: string)       // any renderer exception, re-raised unchanged
}
