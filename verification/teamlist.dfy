/** The browser version of the draw: a team list edited one name at a time,
    and a draw generated from it. Each operation maps the old state to the new
    one; an operation that throws leaves the state as it was, which the model
    expresses by returning a failure instead of a new state. */
module TeamList {

  import opened Types
  import opened Results
  import opened Seqs
  import opened Shuffle
  import opened Input
  import opened Pairs
  import opened Draw
  import opened Report
  import Decimal

  // ---------------------------------------------------------------- trimming

  /** The code points JavaScript's String.prototype.trim removes: the WhiteSpace
      and LineTerminator characters of ECMA-262 (sections 12.2 and 12.3 of the
      2023 edition), the WhiteSpace set taking in every Unicode "Zs" character. */
  predicate IsSpace(c: char) {
    c == '\t' || c == '\n' || c == '\U{B}' || c == '\U{C}' || c == '\r' || c == ' '
    || c == '\U{A0}' || c == '\U{1680}' || ('\U{2000}' <= c <= '\U{200A}')
    || c == '\U{2028}' || c == '\U{2029}' || c == '\U{202F}' || c == '\U{205F}'
    || c == '\U{3000}' || c == '\U{FEFF}'
  }

  /** Every character is white space (the empty string included). */
  predicate AllSpace(s: string) {
    forall k | 0 <= k < |s| :: IsSpace(s[k])
  }

  /** Neither end of s is white space. */
  predicate Trimmed(s: string) {
    s == [] || (!IsSpace(s[0]) && !IsSpace(s[|s| - 1]))
  }

  /** Number of white-space characters at the start of s. */
  function LeadingSpace(s: string): (n: nat)
    ensures n <= |s|
    ensures forall k | 0 <= k < n :: IsSpace(s[k])
    ensures n < |s| ==> !IsSpace(s[n])
    decreases |s|
  {
    if |s| > 0 && IsSpace(s[0]) then 1 + LeadingSpace(s[1..]) else 0
  }

  /** Number of white-space characters at the end of s. */
  function TrailingSpace(s: string): (n: nat)
    ensures n <= |s|
    ensures forall k | |s| - n <= k < |s| :: IsSpace(s[k])
    ensures n < |s| ==> !IsSpace(s[|s| - 1 - n])
    decreases |s|
  {
    if |s| > 0 && IsSpace(s[|s| - 1]) then 1 + TrailingSpace(s[..|s| - 1]) else 0
  }

  /** s without white space at either end: the leading white space goes
      first, then the trailing white space of what is left. */
  function Trim(s: string): (r: string)
    ensures Trimmed(r)
    ensures |r| <= |s|
  {
    var t := s[LeadingSpace(s)..];
    t[..|t| - TrailingSpace(t)]
  }

  /** Trimming only cuts white space off the ends: s is a white-space prefix,
      the trimmed name, and a white-space suffix. */
  lemma TrimDecompose(s: string) returns (pre: string, post: string)
    ensures AllSpace(pre) && AllSpace(post)
    ensures s == pre + Trim(s) + post
  {
    var a := LeadingSpace(s);
    var t := s[a..];
    var b := TrailingSpace(t);
    Seqs.SplitTwice(s, a, |s| - b);
    pre, post := s[..a], t[|t| - b..];
  }

  /** The white space before a name that does not start with white space. */
  lemma LeadingSpacePadded(pre: string, s: string)
    requires AllSpace(pre) && (s == [] || !IsSpace(s[0]))
    ensures LeadingSpace(pre + s) == |pre|
  {
    var u := pre + s;
    assert forall k | 0 <= k < |pre| :: u[k] == pre[k];
    if s != [] {
      assert u[|pre|] == s[0];
    }
  }

  /** The white space after a name that does not end with white space. */
  lemma TrailingSpacePadded(s: string, post: string)
    requires AllSpace(post) && (s == [] || !IsSpace(s[|s| - 1]))
    ensures TrailingSpace(s + post) == |post|
  {
    var u := s + post;
    assert forall k | |s| <= k < |u| :: u[k] == post[k - |s|];
    if s != [] {
      assert u[|s| - 1] == s[|s| - 1];
    }
  }

  /** Conversely, a name without white space at its ends, padded with white
      space on either side, trims back to itself. */
  lemma TrimPadded(pre: string, s: string, post: string)
    requires AllSpace(pre) && AllSpace(post) && Trimmed(s)
    ensures Trim(pre + s + post) == s
  {
    var u := pre + s + post;
    if s == [] {
      assert u == pre + post;
      if |post| > 0 {
        LeadingSpacePadded(pre + post, []);
        assert pre + post + [] == pre + post;
      } else {
        LeadingSpacePadded(pre, []);
        assert pre + [] == u;
      }
    } else {
      assert u == pre + (s + post);
      LeadingSpacePadded(pre, s + post);
      assert u[|pre|..] == s + post;
      TrailingSpacePadded(s, post);
    }
  }

  /** Trimming twice is trimming once. */
  lemma TrimIdempotent(s: string)
    ensures Trim(Trim(s)) == Trim(s)
  {
    var r := Trim(s);
    TrimPadded([], r, []);
    assert [] + r + [] == r;
  }

  /** A name trims to nothing exactly when it is all white space. */
  lemma TrimEmpty(s: string)
    ensures Trim(s) == [] <==> AllSpace(s)
  {
    if AllSpace(s) {
      TrimPadded(s, [], []);
      assert s + [] + [] == s;
    }
    if Trim(s) == [] {
      var pre, post := TrimDecompose(s);
      assert s == pre + post;
      forall k | 0 <= k < |s| ensures IsSpace(s[k]) {
        if k < |pre| {
          assert s[k] == pre[k];
        } else {
          assert s[k] == post[k - |pre|];
        }
      }
    }
  }

  // ---------------------------------------------------------------- the state

  /** The browser-side draw: the team list, the four groups and the match list. */
  datatype FootballDraw = FootballDraw(teams: seq<Team>, buckets: Groups, matches: seq<TeamPair>)

  /** A fresh draw: no teams, four empty groups, no matches. */
  function NewDraw(): (d: FootballDraw)
    ensures d.teams == [] && d.matches == []
    ensures forall g | 0 <= g < 4 :: d.buckets[g] == []
  {
    FootballDraw([], [[], [], [], []], [])
  }

  /** Every listed team is a non-empty name without white space at its ends. */
  predicate Valid(d: FootballDraw) {
    forall k | 0 <= k < |d.teams| :: d.teams[k] != [] && Trimmed(d.teams[k])
  }

  /** Adds the trimmed name, unless it is all white space. */
  function AddTeam(d: FootballDraw, name: string): (r: FootballDraw)
    ensures AllSpace(name) ==> r == d
    ensures !AllSpace(name) ==> r.teams == d.teams + [Trim(name)] && Trim(name) != []
    ensures r.buckets == d.buckets && r.matches == d.matches
  {
    TrimEmpty(name);
    if Trim(name) != [] then d.(teams := d.teams + [Trim(name)]) else d
  }

  /** Removes the team at the index; an index outside the list changes nothing. */
  function RemoveTeam(d: FootballDraw, index: int): (r: FootballDraw)
    ensures !(0 <= index < |d.teams|) ==> r == d
    ensures 0 <= index < |d.teams| ==>
              |r.teams| == |d.teams| - 1
              && (forall k | 0 <= k < index :: r.teams[k] == d.teams[k])
              && (forall k | index <= k < |r.teams| :: r.teams[k] == d.teams[k + 1])
              && multiset(r.teams) + multiset{d.teams[index]} == multiset(d.teams)
    ensures r.buckets == d.buckets && r.matches == d.matches
  {
    if 0 <= index < |d.teams| then
      var teams := d.teams[..index] + d.teams[index + 1..];
      assert d.teams == d.teams[..index] + [d.teams[index]] + d.teams[index + 1..];
      d.(teams := teams)
    else d
  }

  /** Empties the team list; the last draw stays on display. */
  function ClearTeams(d: FootballDraw): (r: FootballDraw)
    ensures r.teams == []
    ensures r.buckets == d.buckets && r.matches == d.matches
  {
    d.(teams := [])
  }

  function TeamCount(d: FootballDraw): nat {
    |d.teams|
  }

  function IsValidTeamCount(d: FootballDraw): bool {
    |d.teams| == DrawSize
  }

  /** How each edit moves the count the draw checks: a name that is not all
      white space adds one, an index inside the list removes one, clearing
      leaves none; and the count check accepts exactly 36. */
  lemma TeamCountAfterEdits(d: FootballDraw, name: string, index: int)
    ensures TeamCount(AddTeam(d, name)) == TeamCount(d) + (if AllSpace(name) then 0 else 1)
    ensures TeamCount(RemoveTeam(d, index))
            == if 0 <= index < TeamCount(d) then TeamCount(d) - 1 else TeamCount(d)
    ensures TeamCount(ClearTeams(d)) == 0 && !IsValidTeamCount(ClearTeams(d))
    ensures IsValidTeamCount(d) <==> TeamCount(d) == DrawSize
  {
  }

  /** The start of the browser version's error text; the count follows. */
  const CountMessage: string := "Expected 36 teams, got "

  /** Makes the draw: with a team count other than 36, the error naming the
      count; otherwise the team list stays as it is, the shuffled copy fills the
      groups (team i to group i / 9, place i % 9), and the matches are generated
      from the groups. */
  function GenerateDraw(d: FootballDraw, js: seq<nat>): (r: Result<FootballDraw, string>)
    requires IsSwapOracle(DrawSize, js)
    ensures r.Failure? <==> TeamCount(d) != DrawSize
    ensures r.Failure? ==>
              |r.error| > |CountMessage| && r.error[..|CountMessage|] == CountMessage
              && (forall k | 0 <= k < |r.error[|CountMessage|..]| ::
                    Decimal.IsDigit(r.error[|CountMessage|..][k]))
              && Decimal.Value(r.error[|CountMessage|..]) == TeamCount(d)
              && (|r.error| == |CountMessage| + 1 || r.error[|CountMessage|] != '0')
    ensures r.Success? ==> r.value.teams == d.teams
    ensures r.Success? ==> |r.value.matches| == 144
  {
    if !IsValidTeamCount(d) then Failure(Decimal.WithCount(CountMessage, TeamCount(d)))
    else
      var bs := Fill(Shuffled(d.teams, js));
      Success(FootballDraw(d.teams, bs, GenerateMatches(bs)))
  }

  // ---------------------------------------------------------------- properties

  lemma GenerateDrawBuckets(d: FootballDraw, js: seq<nat>)
    requires IsSwapOracle(DrawSize, js) && IsValidTeamCount(d)
    ensures GenerateDraw(d, js).Success?
    ensures GenerateDraw(d, js).value.buckets == Fill(Shuffled(d.teams, js))
  {
  }

  /** A successful draw fills every group with nine teams: place i of group g
      holds team 9g + i of the shuffled list. */
  lemma GenerateDrawFills(d: FootballDraw, js: seq<nat>)
    requires IsSwapOracle(DrawSize, js) && IsValidTeamCount(d)
    ensures GenerateDraw(d, js).Success?
    ensures forall g | 0 <= g < 4 :: |GenerateDraw(d, js).value.buckets[g]| == 9
    ensures forall g, i | 0 <= g < 4 && 0 <= i < 9 ::
              GenerateDraw(d, js).value.buckets[g][i] == Shuffled(d.teams, js)[9 * g + i]
  {
    GenerateDrawBuckets(d, js);
    FilledGroups(GenerateDraw(d, js).value.buckets, Shuffled(d.teams, js));
  }

  lemma FilledGroups(groups: Groups, teams: seq<Team>)
    requires |teams| == DrawSize && groups == Fill(teams)
    ensures forall g | 0 <= g < 4 :: |groups[g]| == 9
    ensures forall g, i | 0 <= g < 4 && 0 <= i < 9 :: groups[g][i] == teams[9 * g + i]
  {
    forall g, i | 0 <= g < 4 && 0 <= i < 9 ensures groups[g][i] == teams[9 * g + i] {
      FillAt(teams, g, i);
    }
  }

  /** Every operation keeps the team list made of trimmed, non-empty names. */
  lemma NewDrawValid()
    ensures Valid(NewDraw())
  {
  }

  lemma AddTeamValid(d: FootballDraw, name: string)
    requires Valid(d)
    ensures Valid(AddTeam(d, name))
  {
    var r := AddTeam(d, name);
    if !AllSpace(name) {
      assert r.teams[|d.teams|] == Trim(name);
    }
  }

  lemma RemoveTeamValid(d: FootballDraw, index: int)
    requires Valid(d)
    ensures Valid(RemoveTeam(d, index))
  {
  }

  lemma ClearTeamsValid(d: FootballDraw)
    ensures Valid(ClearTeams(d))
  {
  }

  lemma GenerateDrawValid(d: FootballDraw, js: seq<nat>)
    requires Valid(d) && IsSwapOracle(DrawSize, js)
    ensures GenerateDraw(d, js).Success? ==> Valid(GenerateDraw(d, js).value)
  {
  }

  /** The draw can be made exactly when the count check says so. */
  lemma GenerateDrawWhenValid(d: FootballDraw, js: seq<nat>)
    requires IsSwapOracle(DrawSize, js)
    ensures GenerateDraw(d, js).Success? <==> IsValidTeamCount(d)
  {
  }

  /** Where the two versions part: the command-line tool keeps a line of
      spaces as a team, the browser version does not add it. */
  lemma WhiteSpaceLine(d: FootballDraw)
    ensures NonEmpty(["   "]) == ["   "]
    ensures AddTeam(d, "   ") == d
  {
    assert AllSpace("   ");
  }

  /** The browser version and the command-line tool agree: on the same list of
      trimmed, non-empty names and the same swap indices both fail on a count
      other than 36 (reporting that count), or both make the same groups and
      the same 144 matches. */
  lemma SameDrawAsTool(d: FootballDraw, js: seq<nat>)
    requires Valid(d) && IsSwapOracle(DrawSize, js)
    ensures GenerateDraw(d, js).Failure? <==> Run(d.teams, js).Failure?
    ensures Run(d.teams, js).Failure? ==> Run(d.teams, js).error == WrongTeamCount(TeamCount(d))
    ensures GenerateDraw(d, js).Success? ==>
              GenerateDraw(d, js).value.buckets == Run(d.teams, js).value.buckets
              && GenerateDraw(d, js).value.matches == Run(d.teams, js).value.matches
  {
    NonEmptyKeepsTeams(d.teams);
    if IsValidTeamCount(d) {
      var bs := Run(d.teams, js).value.buckets;
      FillConcat(bs);
    }
  }

  /** End to end in the browser: with 36 different names on the list, every
      one of them plays exactly eight matches and no two matches are between
      the same two teams. */
  lemma BrowserDrawFairness(d: FootballDraw, js: seq<nat>)
    requires Valid(d) && IsSwapOracle(DrawSize, js)
    requires IsValidTeamCount(d) && Distinct(d.teams)
    ensures GenerateDraw(d, js).Success?
    ensures forall t :: Fixtures(GenerateDraw(d, js).value.matches, t) == if t in d.teams then 8 else 0
    ensures forall p, q | 0 <= p < q < 144 ::
              !SameFixture(GenerateDraw(d, js).value.matches[p], GenerateDraw(d, js).value.matches[q])
  {
    NonEmptyKeepsTeams(d.teams);
    SameDrawAsTool(d, js);
    RunFairness(d.teams, js);
  }
}
