/** Values that may be absent, and results of code that may step outside its buffers. */
module Wrappers {

  datatype Option<+T> = None | Some(value: T)

  /** `OutOfBounds` where a load or store leaves its buffer: what follows is not defined. */
  datatype Access<+T> = InBounds(value: T) | OutOfBounds
}
