/** The draw as the command-line tool runs it: read the buckets, then list the
    intra-bucket matches of A, B, C, D, then the cross-bucket matches of the six
    bucket pairs (A,B), (A,C), (A,D), (B,C), (B,D), (C,D), the first-listed bucket
    always in the first role. Nothing is reordered or removed afterwards. */
module Draw {

  import opened Types
  import opened Results
  import opened Seqs
  import opened Shuffle
  import opened Input
  import opened Pairs

  /** Bucket indices of the six bucket pairs, in the order they are played:
      (A,B), (A,C), (A,D), (B,C), (B,D), (C,D). */
  function Home(c: nat): (g: nat)
    requires c < 6
    ensures g < Away(c) < 4
  {
    if c < 3 then 0 else if c < 5 then 1 else 2
  }

  function Away(c: nat): (h: nat)
    requires c < 6
    ensures h < 4
  {
    if c < 3 then c + 1 else if c < 5 then c - 1 else 3
  }

  /** The six bucket pairs themselves. */
  function BucketPairings(bs: Buckets): (r: seq<(Bucket, Bucket)>)
    ensures |r| == 6
    ensures forall c | 0 <= c < 6 :: r[c] == (bs[Home(c)], bs[Away(c)])
  {
    var a, b, c, d := bs[0], bs[1], bs[2], bs[3];
    [(a, b), (a, c), (a, d), (b, c), (b, d), (c, d)]
  }

  /** The intra-bucket matches of a list of buckets, one bucket after the other. */
  function IntraRounds(bs: seq<Bucket>): (r: seq<TeamPair>)
    ensures |r| == 9 * |bs|
  {
    if |bs| == 0 then [] else BucketPairs(bs[0]) + IntraRounds(bs[1..])
  }

  /** The cross-bucket matches of a list of bucket pairs, one pair after the other. */
  function CrossRounds(pairs: seq<(Bucket, Bucket)>): (r: seq<TeamPair>)
    ensures |r| == 18 * |pairs|
  {
    if |pairs| == 0 then [] else CrossBucketPairs(pairs[0].0, pairs[0].1) + CrossRounds(pairs[1..])
  }

  /** The full match list of a draw. */
  function GenerateMatches(bs: Buckets): (r: seq<TeamPair>)
    ensures |r| == 144
  {
    IntraRounds(bs) + CrossRounds(BucketPairings(bs))
  }

  /** Block g of the intra-bucket part is the matches of the g-th bucket. */
  lemma {:induction false} IntraRoundsAt(bs: seq<Bucket>, g: nat)
    requires g < |bs|
    ensures IntraRounds(bs)[9 * g..9 * g + 9] == BucketPairs(bs[g])
    decreases g
  {
    var head := BucketPairs(bs[0]);
    var tail := IntraRounds(bs[1..]);
    assert IntraRounds(bs) == head + tail;
    if g == 0 {
      SliceLeft(head, tail, 0, 9);
      assert head[0..9] == head;
    } else {
      IntraRoundsAt(bs[1..], g - 1);
      SliceRight(head, tail, 9 * g, 9 * g + 9);
    }
  }

  /** Block c of the cross-bucket part is the matches of the c-th pair. */
  lemma {:induction false} CrossRoundsAt(pairs: seq<(Bucket, Bucket)>, c: nat)
    requires c < |pairs|
    ensures CrossRounds(pairs)[18 * c..18 * c + 18] == CrossBucketPairs(pairs[c].0, pairs[c].1)
    decreases c
  {
    var head := CrossBucketPairs(pairs[0].0, pairs[0].1);
    var tail := CrossRounds(pairs[1..]);
    assert CrossRounds(pairs) == head + tail;
    if c == 0 {
      SliceLeft(head, tail, 0, 18);
      assert head[0..18] == head;
    } else {
      CrossRoundsAt(pairs[1..], c - 1);
      SliceRight(head, tail, 18 * c, 18 * c + 18);
    }
  }

  /** The match list opens with the intra-bucket blocks: matches 9g .. 9g+8
      are exactly bucket g's nine intra-bucket matches. */
  lemma IntraBlock(bs: Buckets, g: nat)
    requires g < 4
    ensures GenerateMatches(bs)[9 * g..9 * g + 9] == BucketPairs(bs[g])
  {
    var intra := IntraRounds(bs);
    var cross := CrossRounds(BucketPairings(bs));
    IntraRoundsAt(bs, g);
    SliceLeft(intra, cross, 9 * g, 9 * g + 9);
  }

  /** After them come the cross-bucket blocks in the fixed pair order:
      matches 36+18c .. 53+18c are exactly the eighteen matches of pair c. */
  lemma CrossBlock(bs: Buckets, c: nat)
    requires c < 6
    ensures GenerateMatches(bs)[36 + 18 * c..54 + 18 * c]
            == CrossBucketPairs(bs[Home(c)], bs[Away(c)])
  {
    var intra := IntraRounds(bs);
    var cross := CrossRounds(BucketPairings(bs));
    CrossRoundsAt(BucketPairings(bs), c);
    SliceRight(intra, cross, 36 + 18 * c, 54 + 18 * c);
  }

  // ---------------------------------------------------------------- rounds

  /** The ten blocks ("rounds") of the match list: the buckets spanned by round j. */
  function Span(j: nat): (s: (nat, nat))
    requires j < 10
    ensures s.0 < 4 && s.1 < 4
  {
    if j < 4 then (j, j) else (Home(j - 4), Away(j - 4))
  }

  function RoundLength(j: nat): nat {
    if j < 4 then 9 else 18
  }

  function RoundStart(j: nat): nat {
    if j < 4 then 9 * j else 36 + 18 * (j - 4)
  }

  /** The matches of round j. */
  function Round(bs: Buckets, j: nat): (r: seq<TeamPair>)
    requires j < 10
    ensures |r| == RoundLength(j)
  {
    if j < 4 then BucketPairs(bs[j]) else CrossBucketPairs(bs[Span(j).0], bs[Span(j).1])
  }

  /** The round that holds match p. */
  function RoundOf(p: nat): (j: nat)
    requires p < 144
    ensures j < 10 && RoundStart(j) <= p < RoundStart(j) + RoundLength(j)
  {
    if p < 36 then p / 9 else 4 + (p - 36) / 18
  }

  /** Match k of block g, for a bucket g. */
  lemma IntraMatchAt(bs: Buckets, g: nat, k: nat)
    requires g < 4 && k < 9
    ensures GenerateMatches(bs)[9 * g + k] == BucketPairs(bs[g])[k]
  {
    IntraBlock(bs, g);
    SliceAt(GenerateMatches(bs), 9 * g, 9 * g + 9, k);
  }

  /** Match k of the block of bucket pair c. */
  lemma CrossMatchAt(bs: Buckets, c: nat, k: nat)
    requires c < 6 && k < 18
    ensures GenerateMatches(bs)[36 + 18 * c + k] == CrossBucketPairs(bs[Home(c)], bs[Away(c)])[k]
  {
    CrossBlock(bs, c);
    SliceAt(GenerateMatches(bs), 36 + 18 * c, 54 + 18 * c, k);
  }

  /** Place p of the list is place k of round j. */
  lemma Locate(p: nat) returns (j: nat, k: nat)
    requires p < 144
    ensures j < 10 && k < RoundLength(j) && p == RoundStart(j) + k
  {
    j := RoundOf(p);
    k := p - RoundStart(j);
  }

  /** Match k of round j sits at place RoundStart(j) + k of the list. */
  lemma RoundMatchAt(bs: Buckets, j: nat, k: nat)
    requires j < 10 && k < RoundLength(j)
    ensures GenerateMatches(bs)[RoundStart(j) + k] == Round(bs, j)[k]
  {
    if j < 4 {
      assert RoundStart(j) == 9 * j && Round(bs, j) == BucketPairs(bs[j]);
      IntraMatchAt(bs, j, k);
    } else {
      var c := j - 4;
      assert RoundStart(j) == 36 + 18 * c;
      assert Round(bs, j) == CrossBucketPairs(bs[Home(c)], bs[Away(c)]);
      CrossMatchAt(bs, c, k);
    }
  }

  /** Match p of the list is match k of its round j. */
  lemma MatchAt(bs: Buckets, p: nat) returns (j: nat, k: nat)
    requires p < 144
    ensures j < 10 && k < RoundLength(j) && p == RoundStart(j) + k
    ensures GenerateMatches(bs)[p] == Round(bs, j)[k]
  {
    j, k := Locate(p);
    RoundMatchAt(bs, j, k);
  }

  /** Every match of round j is between a team of bucket Span(j).0 and a team of
      bucket Span(j).1, in either order. */
  lemma RoundSpans(bs: Buckets, j: nat, k: nat)
    requires j < 10 && k < RoundLength(j)
    ensures var m := Round(bs, j)[k];
            (m.teamA in bs[Span(j).0] && m.teamB in bs[Span(j).1])
            || (m.teamA in bs[Span(j).1] && m.teamB in bs[Span(j).0])
  {
    if j >= 4 {
      CrossAt(bs[Span(j).0], bs[Span(j).1], k);
    }
  }

  /** Different rounds span different (unordered) pairs of buckets. */
  lemma SpansDiffer(j1: nat, j2: nat)
    requires j1 < 10 && j2 < 10 && j1 != j2
    ensures !(Span(j1).0 == Span(j2).0 && Span(j1).1 == Span(j2).1)
    ensures !(Span(j1).0 == Span(j2).1 && Span(j1).1 == Span(j2).0)
  {
  }

  /** With no repeated name in the draw, a name sits in one bucket only. */
  lemma OneBucket(bs: Buckets, t: Team, g: nat, h: nat)
    requires Distinct(Concat(bs))
    requires g < 4 && h < 4 && t in bs[g] && t in bs[h]
    ensures g == h
  {
    BucketsPartition(bs);
    var i :| 0 <= i < 9 && bs[g][i] == t;
    var k :| 0 <= k < 9 && bs[h][k] == t;
  }

  /** With no repeated name in the draw, two matches between the same teams
      span the same buckets. */
  lemma SameFixtureSameSpan(bs: Buckets, m: TeamPair, n: TeamPair, g1: nat, h1: nat, g2: nat, h2: nat)
    requires Distinct(Concat(bs))
    requires g1 < 4 && h1 < 4 && g2 < 4 && h2 < 4
    requires (m.teamA in bs[g1] && m.teamB in bs[h1]) || (m.teamA in bs[h1] && m.teamB in bs[g1])
    requires (n.teamA in bs[g2] && n.teamB in bs[h2]) || (n.teamA in bs[h2] && n.teamB in bs[g2])
    requires SameFixture(m, n)
    ensures (g1 == g2 && h1 == h2) || (g1 == h2 && h1 == g2)
  {
    var ga := if m.teamA in bs[g1] && m.teamB in bs[h1] then g1 else h1;
    var gb := if ga == g1 then h1 else g1;
    var na := if n.teamA in bs[g2] && n.teamB in bs[h2] then g2 else h2;
    var nb := if na == g2 then h2 else g2;
    if m.teamA == n.teamA {
      OneBucket(bs, m.teamA, ga, na);
      OneBucket(bs, m.teamB, gb, nb);
    } else {
      OneBucket(bs, m.teamA, ga, nb);
      OneBucket(bs, m.teamB, gb, na);
    }
  }

  /** No match of a round pairs a team with itself, when no name repeats in the draw. */
  lemma RoundNotSelf(bs: Buckets, j: nat, k: nat)
    requires Distinct(Concat(bs))
    requires j < 10 && k < RoundLength(j)
    ensures !SelfPair(Round(bs, j)[k])
  {
    DistinctBuckets(bs);
    if j < 4 {
      IntraMatchesDiffer(bs[j], k, (k + 1) % 9);
    } else {
      CrossNotSelf(bs[Span(j).0], bs[Span(j).1], k);
    }
  }

  /** Two different matches of one round, when no name repeats in the draw. */
  lemma SameRoundDiffer(bs: Buckets, j: nat, k1: nat, k2: nat)
    requires Distinct(Concat(bs))
    requires j < 10 && k1 < RoundLength(j) && k2 < RoundLength(j) && k1 != k2
    ensures !SameFixture(Round(bs, j)[k1], Round(bs, j)[k2])
  {
    DistinctBuckets(bs);
    if j < 4 {
      IntraMatchesDiffer(bs[j], k1, k2);
    } else {
      CrossMatchesDiffer(bs[Span(j).0], bs[Span(j).1], k1, k2);
    }
  }

  /** Matches of two different rounds, when no name repeats in the draw. */
  lemma OtherRoundsDiffer(bs: Buckets, j1: nat, k1: nat, j2: nat, k2: nat)
    requires Distinct(Concat(bs))
    requires j1 < 10 && j2 < 10 && j1 != j2 && k1 < RoundLength(j1) && k2 < RoundLength(j2)
    ensures !SameFixture(Round(bs, j1)[k1], Round(bs, j2)[k2])
  {
    var m, n := Round(bs, j1)[k1], Round(bs, j2)[k2];
    RoundSpans(bs, j1, k1);
    RoundSpans(bs, j2, k2);
    SpansDiffer(j1, j2);
    if SameFixture(m, n) {
      SameFixtureSameSpan(bs, m, n, Span(j1).0, Span(j1).1, Span(j2).0, Span(j2).1);
    }
  }

  /** No match of the list pairs a team with itself, when no name repeats in the draw. */
  lemma MatchNotSelf(bs: Buckets, p: nat)
    requires Distinct(Concat(bs))
    requires p < 144
    ensures !SelfPair(GenerateMatches(bs)[p])
  {
    var j, k := MatchAt(bs, p);
    RoundNotSelf(bs, j, k);
  }

  /** Two matches at different places of the rounds, when no name repeats in the draw. */
  lemma RoundsDiffer(bs: Buckets, j1: nat, k1: nat, j2: nat, k2: nat)
    requires Distinct(Concat(bs))
    requires j1 < 10 && j2 < 10 && k1 < RoundLength(j1) && k2 < RoundLength(j2)
    requires j1 != j2 || k1 != k2
    ensures !SameFixture(Round(bs, j1)[k1], Round(bs, j2)[k2])
  {
    if j1 == j2 {
      SameRoundDiffer(bs, j1, k1, k2);
    } else {
      OtherRoundsDiffer(bs, j1, k1, j2, k2);
    }
  }

  /** Two different matches of the list, when no name repeats in the draw. */
  lemma MatchesDiffer(bs: Buckets, p: nat, q: nat)
    requires Distinct(Concat(bs))
    requires p < 144 && q < 144 && p != q
    ensures !SameFixture(GenerateMatches(bs)[p], GenerateMatches(bs)[q])
  {
    var jp, kp := MatchAt(bs, p);
    var jq, kq := MatchAt(bs, q);
    RoundsDiffer(bs, jp, kp, jq, kq);
  }

  /** With no repeated name in the draw, no match pairs a team with itself and
      no two of the 144 matches are between the same two teams. */
  lemma NoRepeatedFixture(bs: Buckets)
    requires Distinct(Concat(bs))
    ensures forall p | 0 <= p < 144 :: !SelfPair(GenerateMatches(bs)[p])
    ensures forall p, q | 0 <= p < q < 144 :: !SameFixture(GenerateMatches(bs)[p], GenerateMatches(bs)[q])
  {
    forall p | 0 <= p < 144 ensures !SelfPair(GenerateMatches(bs)[p]) {
      MatchNotSelf(bs, p);
    }
    forall p, q | 0 <= p < q < 144
      ensures !SameFixture(GenerateMatches(bs)[p], GenerateMatches(bs)[q])
    {
      MatchesDiffer(bs, p, q);
    }
  }

  // ---------------------------------------------------------------- appearances

  /** Each bucket of the list once. */
  function Weight(bs: seq<Bucket>): multiset<Team> {
    if |bs| == 0 then multiset{} else multiset(bs[0]) + Weight(bs[1..])
  }

  /** Both buckets of each pair of the list once. */
  function PairWeight(pairs: seq<(Bucket, Bucket)>): multiset<Team> {
    if |pairs| == 0 then multiset{}
    else multiset(pairs[0].0) + multiset(pairs[0].1) + PairWeight(pairs[1..])
  }

  /** Every team of the listed buckets appears twice among the players of their
      intra-bucket matches. */
  lemma {:induction false} IntraRoundsPlayers(bs: seq<Bucket>)
    ensures multiset(Players(IntraRounds(bs))) == Weight(bs) + Weight(bs)
    decreases |bs|
  {
    if |bs| > 0 {
      IntraRoundsPlayers(bs[1..]);
      PlayersConcat(BucketPairs(bs[0]), IntraRounds(bs[1..]));
      IntraPlayers(bs[0]);
    }
  }

  /** Every team of each listed pair's buckets appears twice among the players
      of that pair's cross-bucket matches. */
  lemma {:induction false} CrossRoundsPlayers(pairs: seq<(Bucket, Bucket)>)
    ensures multiset(Players(CrossRounds(pairs))) == PairWeight(pairs) + PairWeight(pairs)
    decreases |pairs|
  {
    if |pairs| > 0 {
      CrossRoundsPlayers(pairs[1..]);
      PlayersConcat(CrossBucketPairs(pairs[0].0, pairs[0].1), CrossRounds(pairs[1..]));
      CrossPlayers(pairs[0].0, pairs[0].1);
    }
  }

  lemma WeightStep(bs: seq<Bucket>, k: nat)
    requires k < |bs|
    ensures Weight(bs[k..]) == multiset(bs[k]) + Weight(bs[k + 1..])
  {
    assert bs[k..][1..] == bs[k + 1..];
  }

  lemma PairWeightStep(pairs: seq<(Bucket, Bucket)>, k: nat)
    requires k < |pairs|
    ensures PairWeight(pairs[k..]) == multiset(pairs[k].0) + multiset(pairs[k].1) + PairWeight(pairs[k + 1..])
  {
    assert pairs[k..][1..] == pairs[k + 1..];
  }

  /** The four buckets once each are the draw's teams. */
  lemma BucketsWeight(bs: Buckets)
    ensures Weight(bs) == multiset(Concat(bs))
  {
    WeightStep(bs, 0);
    WeightStep(bs, 1);
    WeightStep(bs, 2);
    WeightStep(bs, 3);
    assert bs[0..] == bs;
    BucketsPartition(bs);
  }

  /** The pairs of bucket A, then the rest. */
  lemma PairingsFront(bs: Buckets)
    ensures PairWeight(BucketPairings(bs))
            == multiset(bs[0]) + multiset(bs[1]) + multiset(bs[0]) + multiset(bs[2])
               + multiset(bs[0]) + multiset(bs[3]) + PairWeight(BucketPairings(bs)[3..])
  {
    var ps := BucketPairings(bs);
    PairWeightStep(ps, 0);
    PairWeightStep(ps, 1);
    PairWeightStep(ps, 2);
    assert ps[0..] == ps;
  }

  /** The pairs without bucket A. */
  lemma PairingsBack(bs: Buckets)
    ensures PairWeight(BucketPairings(bs)[3..])
            == multiset(bs[1]) + multiset(bs[2]) + multiset(bs[1]) + multiset(bs[3])
               + multiset(bs[2]) + multiset(bs[3])
  {
    var ps := BucketPairings(bs);
    PairWeightStep(ps, 3);
    PairWeightStep(ps, 4);
    PairWeightStep(ps, 5);
  }

  /** Every bucket is in three of the six pairs, so the pairs hold the draw's
      teams three times over. */
  lemma PairingsWeight(bs: Buckets)
    ensures PairWeight(BucketPairings(bs))
            == multiset(Concat(bs)) + multiset(Concat(bs)) + multiset(Concat(bs))
  {
    PairingsFront(bs);
    PairingsBack(bs);
    BucketsPartition(bs);
  }

  /** Among the players of the whole match list every team of the draw appears
      eight times for each time it is in the draw: twice in its own bucket's
      matches and twice in each of the three bucket pairs its bucket is part of. */
  lemma DrawPlayers(bs: Buckets)
    ensures forall t :: multiset(Players(GenerateMatches(bs)))[t] == 8 * multiset(Concat(bs))[t]
  {
    var ps := BucketPairings(bs);
    PlayersConcat(IntraRounds(bs), CrossRounds(ps));
    IntraRoundsPlayers(bs);
    CrossRoundsPlayers(ps);
    BucketsWeight(bs);
    PairingsWeight(bs);
  }

  /** With no repeated name in the draw, every team of the draw plays exactly
      eight matches, and a name not in the draw plays none. */
  lemma EightMatchesEach(bs: Buckets)
    requires Distinct(Concat(bs))
    ensures forall t :: Fixtures(GenerateMatches(bs), t) == if t in Concat(bs) then 8 else 0
  {
    NoRepeatedFixture(bs);
    DrawPlayers(bs);
    DistinctMultiplicity(Concat(bs));
    forall t ensures Fixtures(GenerateMatches(bs), t) == if t in Concat(bs) then 8 else 0 {
      FixturesArePlayers(GenerateMatches(bs), t);
    }
  }

  // ---------------------------------------------------------------- the run

  /** What one run produces: the four buckets and the ordered match list. */
  datatype DrawResult = DrawResult(buckets: Buckets, matches: seq<TeamPair>)

  /** One run of the tool on the given input lines: an input error stops the run
      before any match is generated; otherwise the draw and its 144 matches,
      in the block order stated by IntraBlock and CrossBlock. */
  function Run(lines: seq<string>, js: seq<nat>): (r: Result<DrawResult, DrawError>)
    requires IsSwapOracle(DrawSize, js)
    ensures r.Failure? <==> |NonEmpty(lines)| != DrawSize
    ensures r.Failure? ==> r.error == WrongTeamCount(|NonEmpty(lines)|)
    ensures r.Success? ==> |r.value.matches| == 144
    ensures r.Success? ==> Concat(r.value.buckets) == Shuffled(NonEmpty(lines), js)
    ensures r.Success? ==> r.value.matches == GenerateMatches(r.value.buckets)
  {
    match ReadInput(lines, js)
    case Failure(e) => Failure(e)
    case Success(bs) => Success(DrawResult(bs, GenerateMatches(bs)))
  }

  /** End to end: when the kept lines are 36 different names, whatever the
      shuffle does, every one of them plays exactly eight matches, no other
      name plays, and no two matches are between the same two teams. */
  lemma RunFairness(lines: seq<string>, js: seq<nat>)
    requires IsSwapOracle(DrawSize, js)
    requires |NonEmpty(lines)| == DrawSize && Distinct(NonEmpty(lines))
    ensures Run(lines, js).Success?
    ensures forall t :: Fixtures(Run(lines, js).value.matches, t) == if t in NonEmpty(lines) then 8 else 0
    ensures forall p, q | 0 <= p < q < 144 ::
              !SameFixture(Run(lines, js).value.matches[p], Run(lines, js).value.matches[q])
  {
    var bs := Run(lines, js).value.buckets;
    var teams := NonEmpty(lines);
    assert multiset(Concat(bs)) == multiset(teams);
    PermutationKeepsDistinct(teams, Concat(bs));
    EightMatchesEach(bs);
    NoRepeatedFixture(bs);
    forall t ensures t in teams <==> t in Concat(bs) {
      assert t in teams <==> t in multiset(teams);
      assert t in Concat(bs) <==> t in multiset(Concat(bs));
    }
  }

  /** With the identity shuffle and no empty line, the buckets are the input
      lines in order, nine per bucket. */
  lemma RunBucketsWithoutShuffle(lines: seq<string>, js: seq<nat>)
    requires IsSwapOracle(DrawSize, js) && IdentityOracle(js)
    requires |lines| == DrawSize && forall k | 0 <= k < |lines| :: lines[k] != []
    ensures Run(lines, js).Success?
    ensures Concat(Run(lines, js).value.buckets) == lines
    ensures forall g, i | 0 <= g < 4 && 0 <= i < 9 :: Run(lines, js).value.buckets[g][i] == lines[9 * g + i]
  {
    NonEmptyKeepsTeams(lines);
    IdentityShuffle(lines, js);
  }

  /** The draw opens with the first triple of bucket A: x - y, z - x, y - z. */
  lemma FirstMatches(bs: Buckets)
    ensures GenerateMatches(bs)[0] == TeamPair(bs[0][0], bs[0][1])
    ensures GenerateMatches(bs)[1] == TeamPair(bs[0][2], bs[0][0])
    ensures GenerateMatches(bs)[2] == TeamPair(bs[0][1], bs[0][2])
  {
    IntraMatchAt(bs, 0, 0);
    IntraMatchAt(bs, 0, 1);
    IntraMatchAt(bs, 0, 2);
    BucketPairsAt(bs[0], 0);
    BucketPairsAt(bs[0], 1);
    BucketPairsAt(bs[0], 2);
  }

  /** End to end with the identity shuffle: the first three matches are the
      first triple's: line 1 - line 2, line 3 - line 1, line 2 - line 3. */
  lemma RunWithoutShuffle(lines: seq<string>, js: seq<nat>)
    requires IsSwapOracle(DrawSize, js) && IdentityOracle(js)
    requires |lines| == DrawSize && forall k | 0 <= k < |lines| :: lines[k] != []
    ensures Run(lines, js).Success?
    ensures Run(lines, js).value.matches[0] == TeamPair(lines[0], lines[1])
    ensures Run(lines, js).value.matches[1] == TeamPair(lines[2], lines[0])
    ensures Run(lines, js).value.matches[2] == TeamPair(lines[1], lines[2])
  {
    RunBucketsWithoutShuffle(lines, js);
    var r := Run(lines, js).value;
    FirstMatches(r.buckets);
  }
}
