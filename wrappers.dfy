/** Optional values, results and the failures the solvers can raise. */
module Wrappers {

  /** A value that may be absent; Java's nullable reference. */
  datatype Option<+T> = None | Some(value: T)

  /**
   * The ways an operation of the core can fail. In the Java program each is
   * an exception: the first three are IllegalArgumentException with different
   * messages, the last is ArrayIndexOutOfBoundsException.
   */
  datatype Error =
    | InvalidRange      // a Subarray with end < start or start < 0
    | InvalidExtension  // extend to an index that is not beyond the current end
    | EmptyInput        // a solver given an array with no elements
    | IndexOutOfBounds  // an array read outside 0 .. length - 1

  /** Either a value or the failure that prevented computing it. */
  datatype Result<+T> = Ok(value: T) | Err(error: Error)
}
