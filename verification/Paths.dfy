/** Slash separated paths. */
module Paths {
  /** `f` lies in the directory `d`. */
  predicate Under(d: string, f: string) {
    d + "/" <= f
  }
}
