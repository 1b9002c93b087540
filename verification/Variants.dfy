/** Where the code does not do what its own asserts or documentation say, the model holds both. */
module Variants {
  /** The code as it stands, or with the smallest repair. */
  datatype Variant = AsWritten | Repaired
}
