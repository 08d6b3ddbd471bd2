/** Small functions on numbers. */
module Numbers {

  /** A limit below one acts as one where it is compared with a count that is at least one. */
  function AtLeastOne(n: int): (r: nat)
    ensures r >= 1 && r >= n && (r == 1 || r == n)
  {
    if n < 1 then 1 else n
  }
}
