/** Optional values and results used where the Java code returns null or throws. */
module Outcomes {

  datatype Option<T> = None | Some(value: T)

  datatype Result<T, E> = Success(value: T) | Failure(error: E)

  /** The Java exceptions that the modelled code lets escape. */
  datatype JavaException =
    | IndexOutOfBounds  // ArrayIndexOutOfBoundsException or StringIndexOutOfBoundsException
    | NumberFormat      // NumberFormatException from Integer.parseInt
    | NoSuchElement     // NoSuchElementException from Optional.get on an empty stream
}
