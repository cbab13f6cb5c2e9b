/** Optional values and the exceptions the pathfinding code can raise. */
module Outcomes {
  datatype Option<T> = None | Some(value: T)

  /** The .NET exceptions thrown by the modelled code, by kind. */
  datatype Error =
    | ArgumentOutOfRange    // a neighbour too distant for a travel weight
    | InvalidOperation      // Dequeue on an empty queue
    | InvalidDestination    // GetPath's "Destination is not valid" exception
    | NullReference         // a null location or cell dereferenced
    | EmptyGrid             // EmptyGridException
    | IndexOutOfRange       // an array read or written past its end

  datatype Result<T> = Ok(value: T) | Err(error: Error)
}
