/** What becomes of a save: it succeeds, it fails, or the process dies before or after it. */
module Saves {
  datatype Outcome = Saved | Failed | DiedBefore | DiedAfter

  // Whether the disk has what was saved.
  predicate Reached(o: Outcome) { o.Saved? || o.DiedAfter? }

  predicate Died(o: Outcome) { o.DiedBefore? || o.DiedAfter? }
}
