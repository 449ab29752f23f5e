/** Recorded values: how many are at most a bound, and their sum. */
module Samples {
  function CountAtMost(obs: seq<real>, le: real): nat {
    if obs == [] then 0
    else CountAtMost(obs[..|obs| - 1], le) + if obs[|obs| - 1] <= le then 1 else 0
  }

  function Sum(obs: seq<real>): real {
    if obs == [] then 0.0 else Sum(obs[..|obs| - 1]) + obs[|obs| - 1]
  }

  lemma {:induction false} ConcatTotals(a: seq<real>, b: seq<real>, le: real)
    ensures CountAtMost(a + b, le) == CountAtMost(a, le) + CountAtMost(b, le)
    ensures Sum(a + b) == Sum(a) + Sum(b)
    decreases |b|
  {
    if b == [] {
      assert a + b == a;
    } else {
      assert (a + b)[..|a + b| - 1] == a + b[..|b| - 1];
      ConcatTotals(a, b[..|b| - 1], le);
    }
  }

  lemma {:induction false} CountBounds(obs: seq<real>, le: real, higher: real)
    requires le <= higher
    ensures CountAtMost(obs, le) <= CountAtMost(obs, higher) <= |obs|
  {
    if obs != [] {
      CountBounds(obs[..|obs| - 1], le, higher);
    }
  }
}
