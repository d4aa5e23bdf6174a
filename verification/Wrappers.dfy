/** What several of the other modules use: an optional value, and a count that is never zero. */
module Wrappers {
  datatype Option<T> = None | Some(value: T) {
    function Or(default: T): T {
      if Some? then value else default
    }
  }

  /** `max(n, 1)`. */
  function AtLeastOne(n: nat): nat {
    if n == 0 then 1 else n
  }
}
