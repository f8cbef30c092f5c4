/** What every module shares. */
module Base {
  datatype Option<+T> = None | Some(value: T)

  /** A Go `(value, error)` pair: a value, or the text of the error. */
  datatype Result<+T> = Ok(value: T) | Err(text: string)

  lemma Regroup<T>(a: seq<T>, b: seq<T>, c: seq<T>)
    ensures a + (b + c) == a + b + c
  {
  }
}
