/** Optional values: a velocity that music21 leaves unset, and a CSV cell that pandas reads as NaN. */
module Wrappers {
  datatype Option<+T> = None | Some(value: T)
}
