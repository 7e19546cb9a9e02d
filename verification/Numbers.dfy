/** The little arithmetic the modules share. */
module Numbers {

  function Min(a: nat, b: nat): nat {
    if a < b then a else b
  }

  function Max(a: nat, b: nat): nat {
    if a < b then b else a
  }

  /** Two to the power of `shift`: how a backoff grows. */
  function Doublings(shift: nat): (factor: nat)
    ensures factor >= 1
  {
    if shift == 0 then 1 else 2 * Doublings(shift - 1)
  }
}
