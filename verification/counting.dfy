/** Truth values as numbers, for counting. */
module Counting {
  function Bit(b: bool): nat {
    if b then 1 else 0
  }
}
