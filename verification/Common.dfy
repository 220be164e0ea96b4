/** What several parts share. */
module Common {

  datatype Option<+T> = None | Some(value: T)

  /** A byte as a number. */
  type octet = x: nat | x < 256

  function Power2(k: nat): (p: nat)
    ensures p >= 1
  {
    if k == 0 then 1 else 2 * Power2(k - 1)
  }
}
