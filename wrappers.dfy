/** Small value types shared by every module of the model. */
module Wrappers {

  /** A value that may be absent: JavaScript's `null` / `undefined`. */
  datatype Option<+T> = None | Some(value: T)

  /** A notification shown by a page ("toast"); the text is the page's own message. */
  datatype Toast = Success(text: string) | Error(text: string)

  /** `value || []`: a missing array is read as the empty one. */
  function OrEmpty<T>(data: Option<seq<T>>): (r: seq<T>)
    ensures data.None? ==> r == []
    ensures data.Some? ==> r == data.value
  {
    match data
    case None => []
    case Some(rows) => rows
  }
}
