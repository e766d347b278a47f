/** Python's `None`-or-value, used for `update_timer` and the canvas image. */
module Optional {

  datatype Option<T> = None | Some(value: T)

  /** The values held by an option, as a set (empty for `None`). */
  function Elements<T>(o: Option<T>): (s: set<T>)
    ensures o.None? <==> s == {}
    ensures o.Some? ==> s == {o.value}
  {
    match o
    case None => {}
    case Some(v) => {v}
  }
}
