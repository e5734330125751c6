/** Optional values, the exceptions the plugin's code can raise, and results that carry them. */
module Wrappers {

  datatype Option<T> = None | Some(value: T)

  /** The Python exceptions the modelled code lets escape:
      IndexError for `text[0]` on an empty text or a bad list index,
      PatternError for `re.error` raised by an invalid search pattern,
      AttributeError for reading `potential_files` before it was ever assigned. */
  datatype Error = IndexError | PatternError | AttributeError

  datatype Result<T> = Ok(value: T) | Err(error: Error)
}
