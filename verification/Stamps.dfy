module Stamps {
  /** A stored time: empty, unreadable, or an instant. */
  datatype Stamp = Blank | Malformed | At(t: int)
}
