/** Go's `error` values as the two packages use them: a fixed text made by
    `errors.New` (or handed back by a library), and the wrapping that
    `fmt.Errorf("<prefix>%v", err)` performs. */
module Errors {

  datatype Option<T> = None | Some(value: T)

  datatype Error =
    | Text(text: string)                    // errors.New(text), or a library's own error
    | Wrapped(prefix: string, cause: Error)  // fmt.Errorf(prefix + "%v", cause)

  datatype Result<T> = Ok(value: T) | Err(error: Error)

  /** What `err.Error()` returns. */
  function Message(e: Error): string
  {
    match e
    case Text(t) => t
    case Wrapped(p, c) => p + Message(c)
  }

  /** The innermost error that a chain of wrappings was built around. */
  function Root(e: Error): (r: Error)
    ensures r.Text?
  {
    match e
    case Text(_) => e
    case Wrapped(_, c) => Root(c)
  }

  /** Wrapping never hides the root message: it is always the tail of the text. */
  lemma {:induction false} MessageEndsWithRoot(e: Error)
    ensures |Message(Root(e))| <= |Message(e)|
    ensures Message(e)[|Message(e)| - |Message(Root(e))|..] == Message(Root(e))
  {
    match e
    case Text(_) =>
    case Wrapped(p, c) =>
      MessageEndsWithRoot(c);
      var m := Message(c);
      assert Message(e) == p + m;
      assert (p + m)[|p + m| - |Message(Root(c))|..] == m[|m| - |Message(Root(c))|..];
  }
}
