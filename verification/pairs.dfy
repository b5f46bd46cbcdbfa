/** The two match generators of the draw.

    Intra-bucket: a bucket is read as three consecutive triples; triple (x, y, z)
    gives the matches x-y, z-x, y-z, so nine matches per bucket.

    Cross-bucket: for buckets a and b, position i of a meets position i of b and
    then position (i + 1) mod 9 of b (listed first), so eighteen matches. */
module Pairs {

  import opened Types
  import opened Seqs

  /** The names taking part in a list of matches, two per match, in order. */
  function Players(ms: seq<TeamPair>): (r: seq<Team>)
    ensures |r| == 2 * |ms|
  {
    if |ms| == 0 then [] else [ms[0].teamA, ms[0].teamB] + Players(ms[1..])
  }

  lemma {:induction false} PlayersConcat(xs: seq<TeamPair>, ys: seq<TeamPair>)
    ensures Players(xs + ys) == Players(xs) + Players(ys)
    decreases |xs|
  {
    if |xs| == 0 {
      assert xs + ys == ys;
    } else {
      assert (xs + ys)[1..] == xs[1..] + ys;
      PlayersConcat(xs[1..], ys);
    }
  }

  /** The players of a match list that starts with m. */
  lemma PlayersCons(m: TeamPair, rest: seq<TeamPair>)
    ensures Players([m] + rest) == [m.teamA, m.teamB] + Players(rest)
  {
    assert ([m] + rest)[1..] == rest;
  }

  /** Number of matches in which team t plays. */
  function Fixtures(ms: seq<TeamPair>, t: Team): (n: nat)
    ensures n <= |ms|
  {
    if |ms| == 0 then 0 else (if Involves(ms[0], t) then 1 else 0) + Fixtures(ms[1..], t)
  }

  /** Where no match pairs a team with itself, a team plays as many matches
      as its name occurs among the players. */
  lemma {:induction false} FixturesArePlayers(ms: seq<TeamPair>, t: Team)
    requires forall p | 0 <= p < |ms| :: !SelfPair(ms[p])
    ensures Fixtures(ms, t) == multiset(Players(ms))[t]
    decreases |ms|
  {
    if |ms| > 0 {
      FixturesArePlayers(ms[1..], t);
      assert Players(ms) == [ms[0].teamA, ms[0].teamB] + Players(ms[1..]);
    }
  }

  // ---------------------------------------------------------------- intra-bucket

  /** The three matches of the triple (x, y, z), in emitted order. */
  function TriplePairs(x: Team, y: Team, z: Team): seq<TeamPair> {
    [TeamPair(x, y), TeamPair(z, x), TeamPair(y, z)]
  }

  /** Bucket positions of the first and second team of intra-bucket match p:
      match p belongs to triple p / 3 and is its edge number p % 3. */
  function IntraHome(p: nat): (i: nat)
    requires p < 9
    ensures i < 9
  {
    var edge := p % 3;
    3 * (p / 3) + (if edge == 0 then 0 else if edge == 1 then 2 else 1)
  }

  function IntraAway(p: nat): (j: nat)
    requires p < 9
    ensures j < 9
  {
    var edge := p % 3;
    3 * (p / 3) + (if edge == 0 then 1 else if edge == 1 then 0 else 2)
  }

  /** Different intra-bucket matches join different pairs of bucket positions. */
  lemma IntraSlotsDiffer(p: nat, q: nat)
    requires p < 9 && q < 9 && p != q
    ensures IntraHome(p) != IntraAway(p)
    ensures !(IntraHome(p) == IntraHome(q) && IntraAway(p) == IntraAway(q))
    ensures !(IntraHome(p) == IntraAway(q) && IntraAway(p) == IntraHome(q))
  {
    assert p == 3 * (p / 3) + p % 3 && q == 3 * (q / 3) + q % 3;
  }

  /** The matches of triples k, k+1, ..., 2 of bucket b. */
  function BucketPairsFrom(b: Bucket, k: nat): (r: seq<TeamPair>)
    requires k <= 3
    ensures |r| == 3 * (3 - k)
    decreases 3 - k
  {
    if k == 3 then []
    else
      var group := b[k * 3..(k + 1) * 3];
      TriplePairs(group[0], group[1], group[2]) + BucketPairsFrom(b, k + 1)
  }

  /** The nine intra-bucket matches of a bucket. */
  function BucketPairs(b: Bucket): (r: seq<TeamPair>)
    ensures |r| == 9
  {
    BucketPairsFrom(b, 0)
  }

  /** Match p of triples k.. pairs the positions IntraHome and IntraAway of 3k + p. */
  lemma {:induction false} BucketPairsFromAt(b: Bucket, k: nat, p: nat)
    requires k <= 3 && p < 3 * (3 - k)
    ensures BucketPairsFrom(b, k)[p] == TeamPair(b[IntraHome(3 * k + p)], b[IntraAway(3 * k + p)])
    decreases 3 - k
  {
    var group := b[k * 3..(k + 1) * 3];
    var head := TriplePairs(group[0], group[1], group[2]);
    assert BucketPairsFrom(b, k) == head + BucketPairsFrom(b, k + 1);
    if p >= 3 {
      BucketPairsFromAt(b, k + 1, p - 3);
    }
  }

  /** Match p of a bucket pairs the bucket's teams at positions IntraHome(p)
      and IntraAway(p), two different positions of the same triple p / 3. */
  lemma BucketPairsAt(b: Bucket, p: nat)
    requires p < 9
    ensures BucketPairs(b)[p] == TeamPair(b[IntraHome(p)], b[IntraAway(p)])
    ensures IntraHome(p) != IntraAway(p) && IntraHome(p) / 3 == p / 3 == IntraAway(p) / 3
  {
    BucketPairsFromAt(b, 0, p);
  }

  /** The match that pairs the bucket positions i and j of one triple. */
  function IntraSlot(i: nat, j: nat): (p: nat)
    requires i < 9 && j < 9 && i != j && i / 3 == j / 3
    ensures p < 9
    ensures (IntraHome(p) == i && IntraAway(p) == j) || (IntraHome(p) == j && IntraAway(p) == i)
  {
    3 * (i / 3) + i % 3 + j % 3 - 1
  }

  /** Every pair of different teams of one triple meets in the bucket's matches. */
  lemma TripleCovered(b: Bucket, i: nat, j: nat)
    requires i < 9 && j < 9 && i != j && i / 3 == j / 3
    ensures SameFixture(BucketPairs(b)[IntraSlot(i, j)], TeamPair(b[i], b[j]))
  {
    BucketPairsAt(b, IntraSlot(i, j));
  }

  /** Two different intra-bucket matches of a bucket without repeated names. */
  lemma IntraMatchesDiffer(b: Bucket, p: nat, q: nat)
    requires Distinct(b)
    requires p < 9 && q < 9 && p != q
    ensures !SelfPair(BucketPairs(b)[p])
    ensures !SameFixture(BucketPairs(b)[p], BucketPairs(b)[q])
  {
    var r := BucketPairs(b);
    IntraSlotsDiffer(p, q);
    var i1, j1, i2, j2 := IntraHome(p), IntraAway(p), IntraHome(q), IntraAway(q);
    BucketPairsAt(b, p);
    BucketPairsAt(b, q);
    DistinctAt(b, i1, j1);
    DistinctAt(b, i1, i2);
    DistinctAt(b, i1, j2);
    DistinctAt(b, j1, i2);
    DistinctAt(b, j1, j2);
  }

  /** With nine different names, no intra-bucket match is a self-pair and no two
      of the nine matches are between the same two teams. */
  lemma IntraNoRepeat(b: Bucket)
    requires Distinct(b)
    ensures forall p | 0 <= p < 9 :: !SelfPair(BucketPairs(b)[p])
    ensures forall p, q | 0 <= p < q < 9 :: !SameFixture(BucketPairs(b)[p], BucketPairs(b)[q])
  {
    forall p | 0 <= p < 9 ensures !SelfPair(BucketPairs(b)[p]) {
      IntraMatchesDiffer(b, p, (p + 1) % 9);
    }
    forall p, q | 0 <= p < q < 9 ensures !SameFixture(BucketPairs(b)[p], BucketPairs(b)[q]) {
      IntraMatchesDiffer(b, p, q);
    }
  }

  /** The players of the triple's matches, in order. */
  lemma TriplePlayersInOrder(x: Team, y: Team, z: Team)
    ensures Players(TriplePairs(x, y, z)) == [x, y, z, x, y, z]
  {
    var m0, m1, m2 := TeamPair(x, y), TeamPair(z, x), TeamPair(y, z);
    assert TriplePairs(x, y, z) == [m0] + ([m1] + ([m2] + []));
    PlayersCons(m2, []);
    PlayersCons(m1, [m2]);
    PlayersCons(m0, [m1, m2]);
  }

  /** Each team of a triple is among the players of the triple's matches twice. */
  lemma TriplePlayers(x: Team, y: Team, z: Team)
    ensures multiset(Players(TriplePairs(x, y, z))) == multiset([x, y, z]) + multiset([x, y, z])
  {
    TriplePlayersInOrder(x, y, z);
  }

  /** One step of the loop over triples. */
  lemma BucketPairsStep(b: Bucket, k: nat)
    requires k < 3
    ensures BucketPairsFrom(b, k)
            == TriplePairs(b[3 * k], b[3 * k + 1], b[3 * k + 2]) + BucketPairsFrom(b, k + 1)
    ensures b[3 * k..] == [b[3 * k], b[3 * k + 1], b[3 * k + 2]] + b[3 * k + 3..]
  {
  }

  /** The players of the matches of triples k..2 are those triples' teams, twice over. */
  lemma {:induction false} IntraPlayersFrom(b: Bucket, k: nat)
    requires k <= 3
    ensures multiset(Players(BucketPairsFrom(b, k))) == multiset(b[3 * k..]) + multiset(b[3 * k..])
    decreases 3 - k
  {
    if k < 3 {
      IntraPlayersFrom(b, k + 1);
      IntraPlayersStep(b, k);
    }
  }

  lemma IntraPlayersStep(b: Bucket, k: nat)
    requires k < 3
    requires multiset(Players(BucketPairsFrom(b, k + 1)))
             == multiset(b[3 * k + 3..]) + multiset(b[3 * k + 3..])
    ensures multiset(Players(BucketPairsFrom(b, k))) == multiset(b[3 * k..]) + multiset(b[3 * k..])
  {
    var x, y, z := b[3 * k], b[3 * k + 1], b[3 * k + 2];
    BucketPairsStep(b, k);
    PlayersConcat(TriplePairs(x, y, z), BucketPairsFrom(b, k + 1));
    TriplePlayers(x, y, z);
  }

  /** Every team of the bucket appears twice among the players of the
      intra-bucket matches, and nobody else appears. */
  lemma IntraPlayers(b: Bucket)
    ensures multiset(Players(BucketPairs(b))) == multiset(b) + multiset(b)
  {
    IntraPlayersFrom(b, 0);
    assert b[0..] == b;
  }

  // ---------------------------------------------------------------- cross-bucket

  /** The cross-bucket matches for positions i, i+1, ..., 8 of a: for each
      position k, the aligned match a[k]-b[k], then the offset match
      b[(k+1) mod 9]-a[k]. */
  function CrossPairsFrom(a: Bucket, b: Bucket, i: nat): (r: seq<TeamPair>)
    requires i <= 9
    ensures |r| == 2 * (9 - i)
    decreases 9 - i
  {
    if i == |a| then []
    else [TeamPair(a[i], b[i]), TeamPair(b[(i + 1) % |b|], a[i])] + CrossPairsFrom(a, b, i + 1)
  }

  /** The eighteen cross-bucket matches of a against b. */
  function CrossBucketPairs(a: Bucket, b: Bucket): (r: seq<TeamPair>)
    ensures |r| == 18
  {
    CrossPairsFrom(a, b, 0)
  }

  /** Matches 2(k-i) and 2(k-i)+1 of the positions i.. are those of position k. */
  lemma {:induction false} CrossPairsFromAt(a: Bucket, b: Bucket, i: nat, k: nat)
    requires i <= k < 9
    ensures CrossPairsFrom(a, b, i)[2 * (k - i)] == TeamPair(a[k], b[k])
    ensures CrossPairsFrom(a, b, i)[2 * (k - i) + 1] == TeamPair(b[(k + 1) % 9], a[k])
    decreases k - i
  {
    var head := [TeamPair(a[i], b[i]), TeamPair(b[(i + 1) % 9], a[i])];
    assert CrossPairsFrom(a, b, i) == head + CrossPairsFrom(a, b, i + 1);
    if k > i {
      CrossPairsFromAt(a, b, i + 1, k);
    }
  }

  /** Cross-bucket match p, addressed by its own index: matches 2i and 2i+1
      are a[i]-b[i] and b[(i+1) mod 9]-a[i]. */
  lemma CrossAt(a: Bucket, b: Bucket, p: nat)
    requires p < 18
    ensures p % 2 == 0 ==> CrossBucketPairs(a, b)[p] == TeamPair(a[p / 2], b[p / 2])
    ensures p % 2 == 1 ==> CrossBucketPairs(a, b)[p] == TeamPair(b[(p / 2 + 1) % 9], a[p / 2])
  {
    var i := p / 2;
    CrossPairsFromAt(a, b, 0, i);
    assert p == 2 * i + p % 2;
  }

  /** The team at position i of a plays in cross-bucket match p exactly when p / 2 == i. */
  lemma CrossInvolvesFirst(a: Bucket, b: Bucket, p: nat, i: nat)
    requires Distinct(a) && Disjoint(a, b)
    requires p < 18 && i < 9
    ensures Involves(CrossBucketPairs(a, b)[p], a[i]) <==> p / 2 == i
  {
    CrossAt(a, b, p);
    var k := p / 2;
    DistinctAt(a, k, i);
    if p % 2 == 0 {
      assert a[i] != b[k];
    } else {
      assert a[i] != b[(k + 1) % 9];
    }
  }

  /** The team at position j of b plays in cross-bucket match p exactly when p is
      the aligned match of position j or the offset match of the position before j. */
  lemma CrossInvolvesSecond(a: Bucket, b: Bucket, p: nat, j: nat)
    requires Distinct(b) && Disjoint(a, b)
    requires p < 18 && j < 9
    ensures Involves(CrossBucketPairs(a, b)[p], b[j]) <==>
              (p % 2 == 0 && p / 2 == j) || (p % 2 == 1 && (p / 2 + 1) % 9 == j)
  {
    CrossAt(a, b, p);
    var k := p / 2;
    assert a[k] != b[j];
    if p % 2 == 0 {
      DistinctAt(b, k, j);
    } else {
      DistinctAt(b, (k + 1) % 9, j);
    }
  }

  /** With eighteen different names across a and b: a[i] plays exactly in
      matches 2i and 2i+1; b[j] plays exactly in the aligned match of position j
      and the offset match of the position before it. */
  lemma CrossPartners(a: Bucket, b: Bucket)
    requires Distinct(a) && Distinct(b) && Disjoint(a, b)
    ensures forall p, i | 0 <= p < 18 && 0 <= i < 9 ::
              Involves(CrossBucketPairs(a, b)[p], a[i]) <==> p / 2 == i
    ensures forall p, j | 0 <= p < 18 && 0 <= j < 9 ::
              Involves(CrossBucketPairs(a, b)[p], b[j]) <==>
                (p % 2 == 0 && p / 2 == j) || (p % 2 == 1 && (p / 2 + 1) % 9 == j)
  {
    forall p, i | 0 <= p < 18 && 0 <= i < 9
      ensures Involves(CrossBucketPairs(a, b)[p], a[i]) <==> p / 2 == i
      ensures Involves(CrossBucketPairs(a, b)[p], b[i]) <==>
                (p % 2 == 0 && p / 2 == i) || (p % 2 == 1 && (p / 2 + 1) % 9 == i)
    {
      CrossInvolvesFirst(a, b, p, i);
      CrossInvolvesSecond(a, b, p, i);
    }
  }

  /** The two opponents of a[i], b[i] and b[(i+1) mod 9], differ; so do the two
      opponents of b[i], a[i] and a[(i-1) mod 9]. */
  lemma CrossOpponentsDiffer(a: Bucket, b: Bucket, i: nat)
    requires Distinct(a) && Distinct(b)
    requires i < 9
    ensures CrossBucketPairs(a, b)[2 * i].teamB != CrossBucketPairs(a, b)[2 * i + 1].teamA
    ensures CrossBucketPairs(a, b)[2 * i].teamA != CrossBucketPairs(a, b)[2 * ((i + 8) % 9) + 1].teamB
  {
    NextOpponentDiffers(a, b, i);
    PreviousOpponentDiffers(a, b, i);
  }

  lemma NextOpponentDiffers(a: Bucket, b: Bucket, i: nat)
    requires Distinct(b)
    requires i < 9
    ensures CrossBucketPairs(a, b)[2 * i].teamB != CrossBucketPairs(a, b)[2 * i + 1].teamA
  {
    var next := if i == 8 then 0 else i + 1;
    assert next == (i + 1) % 9;
    CrossPairsFromAt(a, b, 0, i);
    DistinctAt(b, i, next);
  }

  lemma PreviousOpponentDiffers(a: Bucket, b: Bucket, i: nat)
    requires Distinct(a)
    requires i < 9
    ensures CrossBucketPairs(a, b)[2 * i].teamA != CrossBucketPairs(a, b)[2 * ((i + 8) % 9) + 1].teamB
  {
    var prev := if i == 0 then 8 else i - 1;
    assert prev == (i + 8) % 9;
    CrossPairsFromAt(a, b, 0, i);
    CrossPairsFromAt(a, b, 0, prev);
    DistinctAt(a, i, prev);
  }

  /** Two cross-bucket matches between the same teams belong to the same position of a. */
  lemma CrossSamePosition(a: Bucket, b: Bucket, p: nat, q: nat)
    requires Distinct(a) && Disjoint(a, b)
    requires p < 18 && q < 18
    ensures SameFixture(CrossBucketPairs(a, b)[p], CrossBucketPairs(a, b)[q]) ==> p / 2 == q / 2
  {
    CrossInvolvesFirst(a, b, p, p / 2);
    CrossInvolvesFirst(a, b, q, p / 2);
  }

  /** The aligned and the offset match of one position are between different teams. */
  lemma CrossPositionMatchesDiffer(a: Bucket, b: Bucket, i: nat)
    requires Distinct(a) && Distinct(b) && Disjoint(a, b)
    requires i < 9
    ensures !SameFixture(CrossBucketPairs(a, b)[2 * i], CrossBucketPairs(a, b)[2 * i + 1])
    ensures !SameFixture(CrossBucketPairs(a, b)[2 * i + 1], CrossBucketPairs(a, b)[2 * i])
  {
    var next := if i == 8 then 0 else i + 1;
    assert next == (i + 1) % 9;
    CrossPairsFromAt(a, b, 0, i);
    DistinctAt(b, i, next);
    assert a[i] != b[next];
  }

  /** No cross-bucket match pairs a team with itself when a and b share no team. */
  lemma CrossNotSelf(a: Bucket, b: Bucket, p: nat)
    requires Disjoint(a, b)
    requires p < 18
    ensures !SelfPair(CrossBucketPairs(a, b)[p])
  {
    CrossAt(a, b, p);
    var i := p / 2;
    assert a[i] != b[i] && a[i] != b[(i + 1) % 9];
  }

  /** Two different cross-bucket matches of buckets with eighteen different names. */
  lemma CrossMatchesDiffer(a: Bucket, b: Bucket, p: nat, q: nat)
    requires Distinct(a) && Distinct(b) && Disjoint(a, b)
    requires p < 18 && q < 18 && p != q
    ensures !SameFixture(CrossBucketPairs(a, b)[p], CrossBucketPairs(a, b)[q])
  {
    var i := p / 2;
    CrossSamePosition(a, b, p, q);
    if q / 2 == i {
      if p % 2 == 0 {
        assert p == 2 * i && q == 2 * i + 1;
      } else {
        assert p == 2 * i + 1 && q == 2 * i;
      }
      CrossPositionMatchesDiffer(a, b, i);
    }
  }

  /** With eighteen different names across a and b, no cross-bucket match is a
      self-pair and no two of the eighteen are between the same two teams. */
  lemma CrossNoRepeat(a: Bucket, b: Bucket)
    requires Distinct(a) && Distinct(b) && Disjoint(a, b)
    ensures forall p | 0 <= p < 18 :: !SelfPair(CrossBucketPairs(a, b)[p])
    ensures forall p, q | 0 <= p < q < 18 ::
              !SameFixture(CrossBucketPairs(a, b)[p], CrossBucketPairs(a, b)[q])
  {
    forall p | 0 <= p < 18 ensures !SelfPair(CrossBucketPairs(a, b)[p]) {
      CrossNotSelf(a, b, p);
    }
    forall p, q | 0 <= p < q < 18
      ensures !SameFixture(CrossBucketPairs(a, b)[p], CrossBucketPairs(a, b)[q])
    {
      CrossMatchesDiffer(a, b, p, q);
    }
  }

  /** b with its first team moved to the end: position i holds b[(i+1) mod 9]. */
  function Rotate(b: Bucket): (r: seq<Team>)
    ensures |r| == 9 && multiset(r) == multiset(b)
    ensures forall i | 0 <= i < 9 :: r[i] == b[(i + 1) % 9]
  {
    assert b == [b[0]] + b[1..];
    b[1..] + [b[0]]
  }

  /** One step of the loop over positions of a. */
  lemma CrossPairsStep(a: Bucket, b: Bucket, i: nat)
    requires i < 9
    ensures CrossPairsFrom(a, b, i)
            == [TeamPair(a[i], b[i]), TeamPair(Rotate(b)[i], a[i])] + CrossPairsFrom(a, b, i + 1)
  {
  }

  /** The players of the two matches of one step. */
  lemma StepPlayers(x: Team, y: Team, z: Team)
    ensures Players([TeamPair(x, y), TeamPair(z, x)]) == [x, y, z, x]
  {
    var m0, m1 := TeamPair(x, y), TeamPair(z, x);
    assert [m0, m1] == [m0] + ([m1] + []);
    PlayersCons(m1, []);
    PlayersCons(m0, [m1]);
  }

  /** Multiset bookkeeping of one step: the players x, y, z, x are the heads of
      the three sequences whose tails account for the rest. */
  lemma StepBookkeeping<T>(x: T, y: T, z: T, p: seq<T>, q: seq<T>, sa: seq<T>, sb: seq<T>, sr: seq<T>)
    requires |sa| > 0 && |sb| > 0 && |sr| > 0 && sa[0] == x && sb[0] == y && sr[0] == z
    requires p == [x, y, z, x] + q
    requires multiset(q) == multiset(sa[1..]) + multiset(sa[1..]) + multiset(sb[1..]) + multiset(sr[1..])
    ensures multiset(p) == multiset(sa) + multiset(sa) + multiset(sb) + multiset(sr)
  {
    assert sa == [x] + sa[1..];
    assert sb == [y] + sb[1..];
    assert sr == [z] + sr[1..];
  }

  lemma CrossPlayersStep(a: Bucket, b: Bucket, i: nat)
    requires i < 9
    requires multiset(Players(CrossPairsFrom(a, b, i + 1)))
             == multiset(a[i + 1..]) + multiset(a[i + 1..]) + multiset(b[i + 1..])
                + multiset(Rotate(b)[i + 1..])
    ensures multiset(Players(CrossPairsFrom(a, b, i)))
            == multiset(a[i..]) + multiset(a[i..]) + multiset(b[i..]) + multiset(Rotate(b)[i..])
  {
    var rb := Rotate(b);
    var x, y, z := a[i], b[i], rb[i];
    var rest := CrossPairsFrom(a, b, i + 1);
    CrossPairsStep(a, b, i);
    PlayersConcat([TeamPair(x, y), TeamPair(z, x)], rest);
    StepPlayers(x, y, z);
    var sa: seq<Team> := a[i..];
    var sb: seq<Team> := b[i..];
    var sr: seq<Team> := rb[i..];
    assert sa[1..] == a[i + 1..] && sb[1..] == b[i + 1..] && sr[1..] == rb[i + 1..];
    StepBookkeeping(x, y, z, Players(CrossPairsFrom(a, b, i)), Players(rest), sa, sb, sr);
  }

  /** The players of the matches for positions i..8 of a: those positions of a
      twice, and of b once aligned and once offset by one. */
  lemma {:induction false} CrossPlayersFrom(a: Bucket, b: Bucket, i: nat)
    requires i <= 9
    ensures multiset(Players(CrossPairsFrom(a, b, i)))
            == multiset(a[i..]) + multiset(a[i..]) + multiset(b[i..]) + multiset(Rotate(b)[i..])
    decreases 9 - i
  {
    if i < 9 {
      CrossPlayersFrom(a, b, i + 1);
      CrossPlayersStep(a, b, i);
    }
  }

  /** Every team of a and every team of b appears twice among the players of
      the cross-bucket matches, and nobody else appears. */
  lemma CrossPlayers(a: Bucket, b: Bucket)
    ensures multiset(Players(CrossBucketPairs(a, b)))
            == multiset(a) + multiset(a) + multiset(b) + multiset(b)
  {
    CrossPlayersFrom(a, b, 0);
    assert a[0..] == a && b[0..] == b && Rotate(b)[0..] == Rotate(b);
  }
}
