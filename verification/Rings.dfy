/** Neighbours around a ring of n places: what the ranks' and threads' modulo arithmetic comes to. */
module Rings {
  import Products

  function Next(n: nat, x: nat): nat { if x + 1 < n then x + 1 else 0 }
  function Prev(n: nat, x: nat): nat { if x > 0 then x - 1 else if n > 0 then n - 1 else 0 }

  lemma Wrap(n: nat, x: nat)
    requires x < n
    ensures (x + 1) % n == Next(n, x)
    ensures (x + n - 1) % n == Prev(n, x)
    ensures Prev(n, Next(n, x)) == x && Next(n, Prev(n, x)) == x
  {
    if x + 1 < n { Products.Remainder(x + 1, 0, x + 1, n); } else { Products.Remainder(n, 1, 0, n); }
    if x > 0 { Products.Remainder(x + n - 1, 1, x - 1, n); } else { Products.Remainder(n - 1, 0, n - 1, n); }
  }
}
