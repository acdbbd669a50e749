/** Scatter lists. */
module Iovec {
  /** A piece of memory. */
  datatype Iov = Iov(base: nat, len: nat)
}
