/** Outcomes of the host's HTTP calls and of JSON field lookups, as the pipeline sees them. */
module Fetching {

  /** A JSON field that may be absent, read with `.get(key, default)`. */
  datatype Option<+T> = None | Some(value: T) {

    /** The value, or `default` when the field is absent. */
    function GetOr(default: T): T {
      match this
      case Some(v) => v
      case None => default
    }
  }

  /** The outcome of one authenticated GET: a request exception (transport error,
      non-2xx status raised by `raise_for_status`, undecodable JSON) or the parsed payload. */
  datatype Fetch<+T> = Failed | Fetched(value: T)
}
