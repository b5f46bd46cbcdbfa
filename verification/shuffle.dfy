/** The Fisher-Yates shuffle used by both implementations of the draw.

    The random source is replaced by an oracle of swap indices: for every
    position i the oracle names the index js[i] in [0, i] that position i is
    swapped with. The pass runs i = n-1 down to 1 (js[0] is never consulted).
    Nothing is claimed about how the random source picks the indices. */
module Shuffle {

  /** The oracle supplies one admissible swap index per position of an n-element list. */
  predicate IsSwapOracle(n: nat, js: seq<nat>) {
    |js| == n && forall i | 0 <= i < n :: js[i] <= i
  }

  /** Exchanges the elements at positions i and j; everything else stays put. */
  function Swap<T>(s: seq<T>, i: nat, j: nat): (r: seq<T>)
    requires i < |s| && j < |s|
    ensures |r| == |s| && r[i] == s[j] && r[j] == s[i]
    ensures forall k | 0 <= k < |s| && k != i && k != j :: r[k] == s[k]
    ensures multiset(r) == multiset(s)
  {
    s[i := s[j]][j := s[i]]
  }

  /** The part of the pass that still has to run: positions hi-1 down to 1. */
  function ShuffleBelow<T>(s: seq<T>, js: seq<nat>, hi: nat): (r: seq<T>)
    requires IsSwapOracle(|s|, js) && hi <= |s|
    ensures |r| == |s|
    ensures multiset(r) == multiset(s)
    ensures r[hi..] == s[hi..]
    decreases hi
  {
    if hi <= 1 then s
    else ShuffleBelow(Swap(s, hi - 1, js[hi - 1]), js, hi - 1)
  }

  /** The shuffled list: the whole downward pass over s. */
  function Shuffled<T>(s: seq<T>, js: seq<nat>): (r: seq<T>)
    requires IsSwapOracle(|s|, js)
    ensures |r| == |s|
    ensures multiset(r) == multiset(s)
  {
    ShuffleBelow(s, js, |s|)
  }

  /** The in-place loop over a copy of the input, as the shuffle is written:
      its result is the shuffled list, a permutation of the input. */
  method ShuffleArray<T>(teams: seq<T>, js: seq<nat>) returns (shuffled: seq<T>)
    requires IsSwapOracle(|teams|, js)
    ensures shuffled == Shuffled(teams, js)
    ensures multiset(shuffled) == multiset(teams)
  {
    shuffled := teams;
    var i: int := |teams| - 1;
    while i > 0
      invariant -1 <= i < |teams|
      invariant |shuffled| == |teams|
      invariant ShuffleBelow(shuffled, js, i + 1) == Shuffled(teams, js)
    {
      var j := js[i];
      shuffled := Swap(shuffled, i, j);
      i := i - 1;
    }
  }

  /** An oracle that never moves anything: every position is "swapped" with itself. */
  predicate IdentityOracle(js: seq<nat>) {
    forall i | 0 <= i < |js| :: js[i] == i
  }

  /** With the identity oracle the shuffle leaves the order unchanged. */
  lemma {:induction false} IdentityShuffleBelow<T>(s: seq<T>, js: seq<nat>, hi: nat)
    requires IsSwapOracle(|s|, js) && IdentityOracle(js) && hi <= |s|
    ensures ShuffleBelow(s, js, hi) == s
    decreases hi
  {
    if hi > 1 {
      assert Swap(s, hi - 1, js[hi - 1]) == s;
      IdentityShuffleBelow(s, js, hi - 1);
    }
  }

  lemma IdentityShuffle<T>(s: seq<T>, js: seq<nat>)
    requires IsSwapOracle(|s|, js) && IdentityOracle(js)
    ensures Shuffled(s, js) == s
  {
    IdentityShuffleBelow(s, js, |s|);
  }
}
