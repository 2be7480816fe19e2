/** Values shared by every part of the model: an optional value, a result that is
    either a value or one of the errors the Python code raises. */
module Common {

  datatype Option<+T> = None | Some(value: T)

  datatype Result<+T> = Ok(value: T) | Err(error: Error)

  /** The exceptions the core raises, one constructor per kind. */
  datatype Error =
    | InvalidRequirement(pin: string)    // packaging's InvalidRequirement, re-raised by split_pin
    | NoLowerBound(pin: string)          // ValueError: no '>=' specifier found
    | MissingKey(key: string)            // KeyError from a document or mapping lookup
    | MissingSection(section: string)    // KeyError raised while loading the groups
    | ConfigNotATable                    // ValueError: [tool.pinnochio] must be a table
    | InvalidPinningStrategy(value: string) // ValueError: Invalid pinning-strategy '...'
}
