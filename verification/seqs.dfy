/** Generic facts about sequences used by the draw: no element repeated,
    no element shared, and how multiplicities see those two properties. */
module Seqs {

  /** No element occurs twice. */
  predicate Distinct<T(==)>(s: seq<T>) {
    forall i, j | 0 <= i < j < |s| :: s[i] != s[j]
  }

  /** No element of a occurs in b. */
  predicate Disjoint<T(==)>(a: seq<T>, b: seq<T>) {
    forall i, j | 0 <= i < |a| && 0 <= j < |b| :: a[i] != b[j]
  }

  /** Without repetitions, equal elements sit at equal positions. */
  lemma DistinctAt<T>(s: seq<T>, i: nat, j: nat)
    requires Distinct(s) && i < |s| && j < |s|
    ensures s[i] == s[j] <==> i == j
  {
    if i < j {
      assert s[i] != s[j];
    } else if j < i {
      assert s[j] != s[i];
    }
  }

  /** Without repetitions every element occurs at most once. */
  lemma {:induction false} DistinctAtMostOnce<T>(s: seq<T>)
    requires Distinct(s)
    ensures forall x :: multiset(s)[x] <= 1
  {
    if |s| > 0 {
      var rest := s[1..];
      assert s == [s[0]] + rest;
      assert Distinct(rest) by {
        forall i, j | 0 <= i < j < |rest| ensures rest[i] != rest[j] {
          assert rest[i] == s[i + 1] && rest[j] == s[j + 1];
        }
      }
      DistinctAtMostOnce(rest);
      assert s[0] !in rest by {
        forall j | 0 <= j < |rest| ensures rest[j] != s[0] {
          assert rest[j] == s[j + 1];
        }
      }
      assert multiset(s) == multiset{s[0]} + multiset(rest);
    }
  }

  /** An element at two different positions occurs at least twice. */
  lemma TwiceAtTwoPositions<T>(s: seq<T>, i: nat, j: nat)
    requires i < j < |s| && s[i] == s[j]
    ensures multiset(s)[s[i]] >= 2
  {
    var x := s[i];
    assert s == s[..i] + [x] + s[i + 1..j] + [x] + s[j + 1..];
    assert multiset(s) == multiset(s[..i]) + multiset{x} + multiset(s[i + 1..j])
                          + multiset{x} + multiset(s[j + 1..]);
  }

  /** A sequence has no repeated element exactly when every multiplicity is at most one. */
  lemma DistinctMultiplicity<T>(s: seq<T>)
    ensures Distinct(s) <==> forall x :: multiset(s)[x] <= 1
  {
    if Distinct(s) {
      DistinctAtMostOnce(s);
    }
    if forall x :: multiset(s)[x] <= 1 {
      forall i, j | 0 <= i < j < |s| ensures s[i] != s[j] {
        if s[i] == s[j] {
          TwiceAtTwoPositions(s, i, j);
        }
      }
    }
  }

  /** Reordering keeps a sequence free of repetitions. */
  lemma PermutationKeepsDistinct<T>(s: seq<T>, t: seq<T>)
    requires multiset(s) == multiset(t)
    requires Distinct(s)
    ensures Distinct(t)
  {
    DistinctMultiplicity(s);
    DistinctMultiplicity(t);
  }

  /** A slice that lies inside the left part of a concatenation. */
  lemma SliceLeft<T>(x: seq<T>, y: seq<T>, i: nat, j: nat)
    requires i <= j <= |x|
    ensures (x + y)[i..j] == x[i..j]
  {
  }

  /** A slice that lies inside the right part of a concatenation. */
  lemma SliceRight<T>(x: seq<T>, y: seq<T>, i: nat, j: nat)
    requires |x| <= i <= j <= |x| + |y|
    ensures (x + y)[i..j] == y[i - |x|..j - |x|]
  {
  }

  /** Indexing into a slice is indexing into the sequence. */
  lemma SliceAt<T>(s: seq<T>, i: nat, j: nat, k: nat)
    requires i <= j <= |s| && k < j - i
    ensures s[i..j][k] == s[i + k]
  {
  }

  /** A sequence cut at two positions is the concatenation of its three pieces. */
  lemma SplitTwice<T>(s: seq<T>, i: nat, j: nat)
    requires i <= j <= |s|
    ensures s == s[..i] + s[i..][..j - i] + s[i..][j - i..]
  {
    assert s[i..] == s[i..][..j - i] + s[i..][j - i..];
    assert s == s[..i] + s[i..];
  }
}
