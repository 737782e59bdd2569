/** An optional value: the source's "no result" returns (a failed parse, a
    search that finds nothing, a `nil` service). */
module Options {
  datatype Option<T> = None | Some(value: T)
}
