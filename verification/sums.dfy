/**
 Sums of sizes.
 */
module Sums {

  function Sum(sizes: seq<nat>): nat {
    if |sizes| == 0 then 0 else Sum(sizes[..|sizes| - 1]) + sizes[|sizes| - 1]
  }

  lemma SumUpTo(sizes: seq<nat>, n: nat)
    requires n < |sizes|
    ensures Sum(sizes[..n + 1]) == Sum(sizes[..n]) + sizes[n]
    ensures Sum(sizes[..0]) == 0
  {
    assert sizes[..n + 1][..n] == sizes[..n];
  }

  lemma {:induction false} SumGrows(sizes: seq<nat>, n: nat, m: nat)
    requires n <= m <= |sizes|
    ensures Sum(sizes[..n]) <= Sum(sizes[..m])
    ensures (exists i :: n <= i < m && sizes[i] > 0) <==> Sum(sizes[..n]) < Sum(sizes[..m])
    decreases m - n
  {
    if n < m {
      SumGrows(sizes, n, m - 1);
      SumUpTo(sizes, m - 1);
    }
  }
}
