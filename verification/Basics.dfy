/** What several modules share. */
module Basics {

  datatype Option<+T> = None | Some(value: T)

  function Pow2(s: nat): (p: nat)
    ensures p > 0
  {
    if s == 0 then 1 else 2 * Pow2(s - 1)
  }
}
