/** How single operations outside the program's control end. */
module Faults {
  /** How much of its effect an operation that did not succeed left behind. */
  datatype Extent = Nothing | Torn(length: nat) | Whole

  /** The operation succeeds, it reports an error, or the process dies in it. */
  datatype Fate = Ok | Fail(left: Extent) | Crash(left: Extent)

  /** The whole effect took place, whatever was reported. */
  predicate Took(f: Fate) {
    f.Ok? || f.left.Whole?
  }
}
