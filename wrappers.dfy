/** Optional values and fallible results, used for the bot's std::optional
    fields and for decoders that throw on malformed input. */
module Wrappers {

  datatype Option<+T> = None | Some(value: T)

  /** `Err` carries the message of the exception the bot would throw. */
  datatype Result<+T> = Ok(value: T) | Err(message: string)
}
