/** Types shared by the models. */
module Common {
  datatype Option<+T> = None | Some(value: T)

  /** The result of a lookup: the tuple with its version and whether it is the newest one, or an error code. */
  datatype Outcome = Tuple(data: seq<int>, version: nat, newest: bool) | NotFound | NotInSnapshot

  /** The error code of a lookup that finds nothing it may read. */
  function Missing(newest: bool): Outcome {
    if newest then NotFound else NotInSnapshot
  }
}
