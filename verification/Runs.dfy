/** Where a schedule of an interleaving machine leads. */
module Runs {
  datatype Outcome<S> = Stuck | At(s: S)
}
