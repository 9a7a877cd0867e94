/** Optional values: a payload field that may be absent, a search that may find nothing. */
module Wrappers {

  datatype Option<+T> = None | Some(value: T) {

    /** What an object spread leaves in a field: the carried value, or the
        `fallback` already there when nothing is carried. */
    function ValueOr(fallback: T): T
    {
      if Some? then value else fallback
    }
  }
}
