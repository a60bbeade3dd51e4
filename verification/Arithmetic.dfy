/** Small facts about integers that several modules share. */
module Arithmetic {

  function Max(a: int, b: int): int {
    if a < b then b else a
  }

  lemma Commute(a: int, b: int)
    ensures a * b == b * a
  {
  }

  lemma NextProduct(n: nat, d: nat)
    ensures (n + 1) * d == n * d + d
  {
  }
}
