/** Result types shared by the whole model. */
module Wrappers {

  datatype Option<+T> = None | Some(value: T)

  datatype Result<+T, +E> = Success(value: T) | Failure(error: E)

  /** Every error the program returns is a formatted message. */
  type Error = string
}

/** Instants, to the nanosecond. */
module Times {
  datatype Time = Time(second: int, nanosecond: nat)

  const NANOS_PER_SECOND := 1_000_000_000

  function Nanoseconds(t: Time): int {
    t.second * NANOS_PER_SECOND + t.nanosecond
  }
}
