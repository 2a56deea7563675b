/** Optional form values, and the result of the modelled part of a request
    with the two errors it can end in: the frame count is rejected by the
    angle schedule, or the frame list is empty when the animation is written. */
module Results {

  datatype Error =
    | NegativeFrameCount   // the angle schedule refuses a negative sample count
    | NoFrames             // the first frame of an empty frame list was asked for

  datatype Option<T> = None | Some(value: T)

  /** Usable with `:-`: an error stops the computation and is passed on. */
  datatype Result<T> = Ok(value: T) | Err(error: Error) {

    predicate IsFailure() {
      Err?
    }

    function PropagateFailure<U>(): Result<U>
      requires Err?
    {
      Err(error)
    }

    function Extract(): T
      requires Ok?
    {
      value
    }
  }
}
