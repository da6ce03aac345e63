/** Small shared vocabulary. */
module Prelude {
  datatype Option<+T> = None | Some(value: T)

  /** A ruling on a body. */
  datatype Verdict = Pass | Fail | NeedsUser

  function Min(x: nat, y: nat): nat { if x <= y then x else y }

  function Init<T>(s: seq<T>): seq<T>
    requires s != []
  {
    s[..|s| - 1]
  }

  function Last<T>(s: seq<T>): T
    requires s != []
  {
    s[|s| - 1]
  }
}
