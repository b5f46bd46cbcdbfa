/** The value types of the draw: teams, buckets of nine, and ordered team pairs
    together with their one-line rendering "A - B". */
module Types {

  import opened Results

  /** A team is known only by its name, one input line. */
  type Team = string

  /** A bucket (group) holds exactly nine teams; later steps address them by position. */
  type Bucket = s: seq<Team> | |s| == 9
    witness ["", "", "", "", "", "", "", "", ""]

  /** The four buckets A, B, C, D of one draw, in that order. */
  type Buckets = s: seq<Bucket> | |s| == 4
    witness [["", "", "", "", "", "", "", "", ""], ["", "", "", "", "", "", "", "", ""],
             ["", "", "", "", "", "", "", "", ""], ["", "", "", "", "", "", "", "", ""]]

  /** One scheduled match. The pair is ordered: teamA is listed first. */
  datatype TeamPair = TeamPair(teamA: Team, teamB: Team)

  /** The team takes part in the match, on either side. */
  predicate Involves(m: TeamPair, t: Team) {
    m.teamA == t || m.teamB == t
  }

  /** A team paired with itself. */
  predicate SelfPair(m: TeamPair) {
    m.teamA == m.teamB
  }

  /** Two matches between the same two teams, whichever side each is listed on. */
  predicate SameFixture(m: TeamPair, n: TeamPair) {
    (m.teamA == n.teamA && m.teamB == n.teamB) || (m.teamA == n.teamB && m.teamB == n.teamA)
  }

  /** The separator placed between the two names of a rendered match. */
  const Separator: string := " - "

  /** The rendered match: first name, separator, second name, and nothing else. */
  function Render(m: TeamPair): (line: string)
    ensures |line| == |m.teamA| + 3 + |m.teamB|
    ensures line[..|m.teamA|] == m.teamA
    ensures line[|m.teamA|..|m.teamA| + 3] == Separator
    ensures line[|m.teamA| + 3..] == m.teamB
  {
    m.teamA + Separator + m.teamB
  }

  /** The separator starts at index k of s. */
  predicate SeparatorAt(s: string, k: nat) {
    k + 3 <= |s| && s[k..k + 3] == Separator
  }

  /** Index of the first separator of s, if any. */
  function FindSeparator(s: string, from: nat): (r: Option<nat>)
    requires from <= |s|
    decreases |s| - from
    ensures r.Some? ==> from <= r.value && SeparatorAt(s, r.value)
    ensures r.Some? ==> forall k | from <= k < r.value :: !SeparatorAt(s, k)
    ensures r.None? ==> forall k | from <= k <= |s| :: !SeparatorAt(s, k)
  {
    if from + 3 > |s| then None
    else if s[from..from + 3] == Separator then Some(from)
    else FindSeparator(s, from + 1)
  }

  /** Reads a rendered match back, splitting at the first separator: the first
      name holds no separator, not even one running into the split point. */
  function ParsePair(line: string): (r: Option<TeamPair>)
    ensures r.Some? ==> Render(r.value) == line
    ensures r.Some? ==> forall k | 0 <= k < |r.value.teamA| :: !SeparatorAt(line, k)
    ensures r.None? <==> forall k | 0 <= k <= |line| :: !SeparatorAt(line, k)
  {
    match FindSeparator(line, 0)
    case None => None
    case Some(k) =>
      assert line == line[..k] + Separator + line[k + 3..];
      Some(TeamPair(line[..k], line[k + 3..]))
  }

  /** Rendering is undone by parsing whenever the first name cannot be mistaken for
      the start of a separator: neither it nor it followed by " -" contains " - ". */
  lemma {:induction false} ParseRender(m: TeamPair)
    requires forall k | 0 <= k <= |m.teamA| + 2 :: !SeparatorAt(m.teamA + " -", k)
    ensures ParsePair(Render(m)) == Some(m)
  {
    var line := Render(m);
    var head := m.teamA + " -";
    assert line[..|head|] == head;
    forall k | 0 <= k < |m.teamA|
      ensures !SeparatorAt(line, k)
    {
      assert !SeparatorAt(head, k);
      assert line[k..k + 3] == line[..|head|][k..k + 3] == head[k..k + 3];
    }
    assert SeparatorAt(line, |m.teamA|);
    var r := FindSeparator(line, 0);
    assert r == Some(|m.teamA|);
  }
}
