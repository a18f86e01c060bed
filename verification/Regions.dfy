/** Stretches of memory. */
module Regions {

  /** Two stretches share no byte. */
  predicate Apart(p: nat, size: nat, q: nat, otherSize: nat) {
    p + size <= q || q + otherSize <= p
  }
}
