/** The pure part of reading the draw input: keep the non-empty lines,
    insist on exactly 36 of them, shuffle, and cut the result into the four
    buckets A..D of nine. Opening and scanning the file is not modelled; the
    input arrives as the sequence of lines the scanner would return. */
module Input {

  import opened Types
  import opened Results
  import opened Shuffle
  import opened Seqs
  import Decimal

  /** Number of teams a draw needs: four buckets of nine. */
  const DrawSize: nat := 36

  /** Why a draw could not be made: the number of teams kept from the input. */
  datatype DrawError = WrongTeamCount(got: nat)

  /** The start of the error text; the count follows in base ten. */
  const CountPrefix: string := "expected 36 teams, got "

  /** The text of the error as the command-line tool reports it. */
  function ErrorText(e: DrawError): (text: string)
    ensures |text| > |CountPrefix| && text[..|CountPrefix|] == CountPrefix
    ensures forall k | 0 <= k < |text[|CountPrefix|..]| :: Decimal.IsDigit(text[|CountPrefix|..][k])
    ensures Decimal.Value(text[|CountPrefix|..]) == e.got
    ensures |text| == |CountPrefix| + 1 || text[|CountPrefix|] != '0'
  {
    Decimal.WithCount(CountPrefix, e.got)
  }

  /** The lines kept as teams: every non-empty line, in input order. */
  function NonEmpty(lines: seq<string>): (teams: seq<Team>)
    ensures |teams| <= |lines|
    ensures multiset(teams) == multiset(lines)[[] := 0]
    ensures forall k | 0 <= k < |teams| :: teams[k] != []
  {
    if |lines| == 0 then []
    else
      assert lines == [lines[0]] + lines[1..];
      (if lines[0] == [] then [] else [lines[0]]) + NonEmpty(lines[1..])
  }

  /** Filtering works line by line: the kept lines of a concatenation are the
      kept lines of each part, one after the other, so relative order is preserved. */
  lemma {:induction false} NonEmptyConcat(xs: seq<string>, ys: seq<string>)
    ensures NonEmpty(xs + ys) == NonEmpty(xs) + NonEmpty(ys)
    decreases |xs|
  {
    if |xs| > 0 {
      var head := if xs[0] == [] then [] else [xs[0]];
      assert (xs + ys)[0] == xs[0] && (xs + ys)[1..] == xs[1..] + ys;
      assert NonEmpty(xs + ys) == head + NonEmpty(xs[1..] + ys);
      assert NonEmpty(xs) == head + NonEmpty(xs[1..]);
      NonEmptyConcat(xs[1..], ys);
    } else {
      assert xs + ys == ys;
    }
  }

  /** Input without empty lines is kept as it is. */
  lemma {:induction false} NonEmptyKeepsTeams(lines: seq<string>)
    requires forall k | 0 <= k < |lines| :: lines[k] != []
    ensures NonEmpty(lines) == lines
    decreases |lines|
  {
    if |lines| > 0 {
      NonEmptyKeepsTeams(lines[1..]);
      assert lines == [lines[0]] + lines[1..];
    }
  }

  /** Cuts 36 teams into four buckets: team i goes to bucket i / 9, position i % 9. */
  function Fill(teams: seq<Team>): (bs: Buckets)
    requires |teams| == DrawSize
    ensures forall i | 0 <= i < DrawSize :: bs[i / 9][i % 9] == teams[i]
  {
    [teams[0..9], teams[9..18], teams[18..27], teams[27..36]]
  }

  /** Place i of bucket g holds team 9g + i. */
  lemma FillAt(teams: seq<Team>, g: nat, i: nat)
    requires |teams| == DrawSize && g < 4 && i < 9
    ensures Fill(teams)[g][i] == teams[9 * g + i]
  {
    assert (9 * g + i) / 9 == g && (9 * g + i) % 9 == i;
  }

  /** The four buckets read one after the other. */
  function Concat(bs: Buckets): (teams: seq<Team>)
    ensures |teams| == DrawSize
    ensures forall g, i | 0 <= g < 4 && 0 <= i < 9 :: teams[9 * g + i] == bs[g][i]
  {
    var a: seq<Team> := bs[0];
    a + bs[1] + bs[2] + bs[3]
  }

  /** Filling and reading back are inverse to each other. */
  lemma ConcatFill(teams: seq<Team>)
    requires |teams| == DrawSize
    ensures Concat(Fill(teams)) == teams
  {
    var r := Concat(Fill(teams));
    forall i | 0 <= i < DrawSize ensures r[i] == teams[i] {
      assert r[9 * (i / 9) + i % 9] == Fill(teams)[i / 9][i % 9];
    }
  }

  lemma FillConcat(bs: Buckets)
    ensures Fill(Concat(bs)) == bs
  {
    var r := Fill(Concat(bs));
    forall g | 0 <= g < 4 ensures r[g] == bs[g] {
      forall i | 0 <= i < 9 ensures r[g][i] == bs[g][i] {
        assert (9 * g + i) / 9 == g && (9 * g + i) % 9 == i;
      }
    }
  }

  /** The buckets split the list: together they hold every team exactly as often
      as the list does; and when no name repeats, each bucket has nine different
      teams and no team sits in two buckets. */
  lemma BucketsPartition(bs: Buckets)
    ensures multiset(bs[0]) + multiset(bs[1]) + multiset(bs[2]) + multiset(bs[3])
            == multiset(Concat(bs))
    ensures Distinct(Concat(bs)) ==>
              forall g, i, h, k | 0 <= g < 4 && 0 <= h < 4 && 0 <= i < 9 && 0 <= k < 9 ::
                bs[g][i] == bs[h][k] ==> g == h && i == k
  {
    if Distinct(Concat(bs)) {
      var s := Concat(bs);
      forall g, i, h, k | 0 <= g < 4 && 0 <= h < 4 && 0 <= i < 9 && 0 <= k < 9 && bs[g][i] == bs[h][k]
        ensures g == h && i == k
      {
        assert s[9 * g + i] == s[9 * h + k];
      }
    }
  }

  /** When the list has no repeated name, every bucket has none and no two buckets share a team. */
  lemma DistinctBuckets(bs: Buckets)
    requires Distinct(Concat(bs))
    ensures forall g | 0 <= g < 4 :: Distinct(bs[g])
    ensures forall g, h | 0 <= g < 4 && 0 <= h < 4 && g != h :: Disjoint(bs[g], bs[h])
  {
    BucketsPartition(bs);
  }

  /** The buckets of a draw: the error when the kept line count is not 36
      (decided before anything is shuffled), otherwise the shuffled teams cut
      into four buckets of nine. */
  function ReadInput(lines: seq<string>, js: seq<nat>): (r: Result<Buckets, DrawError>)
    requires IsSwapOracle(DrawSize, js)
    ensures r.Failure? <==> |NonEmpty(lines)| != DrawSize
    ensures r.Failure? ==> r.error == WrongTeamCount(|NonEmpty(lines)|)
    ensures r.Success? ==> Concat(r.value) == Shuffled(NonEmpty(lines), js)
    ensures r.Success? ==> multiset(Concat(r.value)) == multiset(lines)[[] := 0]
  {
    var teams := NonEmpty(lines);
    if |teams| != DrawSize then Failure(WrongTeamCount(|teams|))
    else
      var shuffled := Shuffled(teams, js);
      ConcatFill(shuffled);
      Success(Fill(shuffled))
  }
}
