/** Shared value types: the payloads the toolkit passes around as Go's
    `interface{}`, and the conventional Option used for "no value" results. */
module Values {

  datatype Option<+T> = None | Some(value: T)

  /** A value passed through a queue or fired to a waiter. `Nil` is Go's nil;
      `Duration` is a `time.Duration` in nanoseconds; `Error` is the value
      built by `errors.New`; `ItemState` carries a stateful item's tag. */
  datatype Value =
    | Nil
    | Bool(b: bool)
    | Int(i: int)
    | Text(s: string)
    | Duration(nanos: int)
    | Error(msg: string)
    | ItemState(code: int)

  function Min(a: int, b: int): int
  {
    if a <= b then a else b
  }
}
