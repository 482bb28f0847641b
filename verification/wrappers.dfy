/** A Java reference that may be null, as an explicit Some/None value. */
module Wrappers {

  datatype Option<+T> = None | Some(value: T)

  /** The set of values an option holds: empty for None, a singleton for Some. */
  function Held<T>(o: Option<T>): (s: set<T>)
    ensures |s| <= 1
    ensures o.None? <==> s == {}
  {
    match o
    case None => {}
    case Some(v) => {v}
  }
}
