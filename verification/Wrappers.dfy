/** An optional value: Python's `None` or a value. */
module Wrappers {
  datatype Maybe<+T> = Nothing | Just(value: T)
}
