/** A value that may be absent: a missing link, a failed search, a loader or an allocator that gave up. */
module Options {
  datatype Option<+T> = None | Some(value: T)

  function GetOr<T>(x: Option<T>, other: T): T { if x.Some? then x.value else other }
}
