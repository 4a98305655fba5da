/** Option and Result datatypes shared by the game engine and the shopping evaluator. */
module Wrappers {

  /** An optional value; `None` stands for Python's `None` where a value may be absent. */
  datatype Option<T> = None | Some(value: T)

  /** A value or the exception the Python code raises instead of returning one. */
  datatype Result<T, E> = Success(value: T) | Failure(error: E)
}
