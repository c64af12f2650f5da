/** Doubling delays with a cap, as both pollers use them. */
module Backoff {
  import opened Wrappers

  function Pow2(n: nat): nat { if n == 0 then 1 else 2 * Pow2(n - 1) }

  function Doubled(base: nat, doublings: nat, cap: nat): nat {
    Min(cap, base * Pow2(doublings))
  }

  lemma {:induction false} Pow2Grows(a: nat, b: nat)
    requires a <= b
    ensures 1 <= Pow2(a) <= Pow2(b)
    decreases b
  {
    if a < b { Pow2Grows(a, b - 1); } else if 0 < a { Pow2Grows(a - 1, b - 1); }
  }

  /** More doublings never wait less, and nothing waits longer than the cap. */
  lemma DoubledGrows(base: nat, a: nat, b: nat, cap: nat)
    requires a <= b
    ensures Doubled(base, a, cap) <= Doubled(base, b, cap) <= cap
    ensures 0 < base && 0 < cap ==> 0 < Doubled(base, a, cap)
  {
    Pow2Grows(a, b);
    var p, q := Pow2(a), Pow2(b);
    assert base * p <= base * q;
    assert 0 < base ==> base <= base * p;
  }
}
