/** Pointers into statically allocated arrays. */
module Pointers {

  /** A pointer to an array slot: the slot's index, or `NULL`. */
  type Ptr = int

  const NULL: Ptr := -1
}
