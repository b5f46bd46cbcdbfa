/** The text report of a draw as the browser version formats it: for each
    group A..D a header line "Group X:", one line per team and an empty line,
    then "Matches:" and one "teamA - teamB" line per match, every line ended
    by a newline. */
module Report {

  import opened Types
  import opened Results

  /** The four groups of the browser version (empty before the first draw). */
  type Groups = s: seq<seq<Team>> | |s| == 4 witness [[], [], [], []]

  /** Letters naming groups 0..3. */
  const GroupNames: string := "ABCD"

  /** The header line of group i. */
  function GroupHeader(i: nat): string
    requires i < 4
  {
    "Group " + [GroupNames[i]] + ":"
  }

  /** The lines of group i: its header, its members, an empty line. */
  function GroupBlock(i: nat, members: seq<Team>): seq<string>
    requires i < 4
  {
    [GroupHeader(i)] + members + [""]
  }

  /** The lines of the first n groups. */
  function GroupsLines(groups: Groups, n: nat): seq<string>
    requires n <= 4
  {
    if n == 0 then [] else GroupsLines(groups, n - 1) + GroupBlock(n - 1, groups[n - 1])
  }

  /** One rendered line per match, in order. */
  function MatchLines(ms: seq<TeamPair>): (ls: seq<string>)
    ensures |ls| == |ms|
    ensures forall p | 0 <= p < |ms| :: ls[p] == Render(ms[p])
  {
    seq(|ms|, p requires 0 <= p < |ms| => Render(ms[p]))
  }

  /** The line layout of the whole report. */
  function ReportLines(groups: Groups, ms: seq<TeamPair>): seq<string> {
    GroupsLines(groups, 4) + ["Matches:"] + MatchLines(ms)
  }

  // ---------------------------------------------------------------- lines of text

  /** Lines joined, each followed by a newline. */
  function Unlines(ls: seq<string>): (s: string)
    ensures |s| >= |ls|
  {
    if |ls| == 0 then "" else ls[0] + "\n" + Unlines(ls[1..])
  }

  lemma {:induction false} UnlinesSnoc(ls: seq<string>, l: string)
    ensures Unlines(ls + [l]) == Unlines(ls) + l + "\n"
    decreases |ls|
  {
    if |ls| == 0 {
      assert ls + [l] == [l];
    } else {
      assert (ls + [l])[1..] == ls[1..] + [l];
      UnlinesSnoc(ls[1..], l);
    }
  }

  /** Position of the first newline of s, if any. */
  function FirstNewline(s: string): (r: Option<nat>)
    ensures r.Some? ==> r.value < |s| && s[r.value] == '\n'
    ensures r.Some? ==> forall k | 0 <= k < r.value :: s[k] != '\n'
    ensures r.None? <==> forall k | 0 <= k < |s| :: s[k] != '\n'
  {
    if |s| == 0 then None
    else if s[0] == '\n' then Some(0)
    else match FirstNewline(s[1..])
      case None => None
      case Some(k) => Some(k + 1)
  }

  /** Text cut at its newlines; a final piece without newline is a line too. */
  function Lines(s: string): seq<string>
    decreases |s|
  {
    match FirstNewline(s)
    case None => if s == [] then [] else [s]
    case Some(k) => [s[..k]] + Lines(s[k + 1..])
  }

  /** Reading a report back line by line gives the lines it was made of, as
      long as no line holds a newline of its own. */
  lemma {:induction false} LinesUnlines(ls: seq<string>)
    requires forall i | 0 <= i < |ls| :: '\n' !in ls[i]
    ensures Lines(Unlines(ls)) == ls
    decreases |ls|
  {
    if |ls| > 0 {
      var l, rest := ls[0], Unlines(ls[1..]);
      var s := l + "\n" + rest;
      assert s[|l|] == '\n';
      forall k | 0 <= k < |l| ensures s[k] != '\n' {
        assert s[k] == l[k];
      }
      assert FirstNewline(s) == Some(|l|);
      assert s[..|l|] == l && s[|l| + 1..] == rest;
      LinesUnlines(ls[1..]);
    }
  }

  // ---------------------------------------------------------------- the report

  lemma {:induction false} UnlinesConcat(xs: seq<string>, ys: seq<string>)
    ensures Unlines(xs + ys) == Unlines(xs) + Unlines(ys)
    decreases |xs|
  {
    if |xs| == 0 {
      assert xs + ys == ys;
    } else {
      assert (xs + ys)[1..] == xs[1..] + ys;
      UnlinesConcat(xs[1..], ys);
    }
  }

  /** The text of one group: header, one line per member, empty line. */
  method FormatGroup(i: nat, members: seq<Team>) returns (text: string)
    requires i < 4
    ensures text == Unlines(GroupBlock(i, members))
  {
    text := GroupHeader(i) + "\n";
    ghost var lines: seq<string> := [GroupHeader(i)];
    assert Unlines(lines) == GroupHeader(i) + "\n" by {
      UnlinesSnoc([], GroupHeader(i));
      assert [] + [GroupHeader(i)] == lines;
    }
    var k := 0;
    while k < |members|
      invariant 0 <= k <= |members|
      invariant lines == [GroupHeader(i)] + members[..k]
      invariant text == Unlines(lines)
    {
      UnlinesSnoc(lines, members[k]);
      assert members[..k + 1] == members[..k] + [members[k]];
      text, lines := text + members[k] + "\n", lines + [members[k]];
      k := k + 1;
    }
    assert members[..k] == members;
    UnlinesSnoc(lines, "");
    text := text + "\n";
  }

  /** The text of the match list: one rendered line per match. */
  method FormatMatches(ms: seq<TeamPair>) returns (text: string)
    ensures text == Unlines(MatchLines(ms))
  {
    text := "";
    var p := 0;
    assert MatchLines(ms[..0]) == [];
    while p < |ms|
      invariant 0 <= p <= |ms|
      invariant text == Unlines(MatchLines(ms[..p]))
    {
      UnlinesSnoc(MatchLines(ms[..p]), Render(ms[p]));
      assert MatchLines(ms[..p + 1]) == MatchLines(ms[..p]) + [Render(ms[p])];
      text := text + Render(ms[p]) + "\n";
      p := p + 1;
    }
    assert ms[..p] == ms;
  }

  /** The report text, built piece by piece as the browser version does. */
  method FormatResults(groups: Groups, ms: seq<TeamPair>) returns (text: string)
    ensures text == Unlines(ReportLines(groups, ms))
  {
    text := "";
    var i := 0;
    while i < 4
      invariant 0 <= i <= 4
      invariant text == Unlines(GroupsLines(groups, i))
    {
      var block := FormatGroup(i, groups[i]);
      UnlinesConcat(GroupsLines(groups, i), GroupBlock(i, groups[i]));
      text := text + block;
      i := i + 1;
    }
    var matches := FormatMatches(ms);
    UnlinesConcat(GroupsLines(groups, 4), ["Matches:"]);
    UnlinesConcat(GroupsLines(groups, 4) + ["Matches:"], MatchLines(ms));
    UnlinesSnoc([], "Matches:");
    assert [] + ["Matches:"] == ["Matches:"];
    text := text + "Matches:\n" + matches;
  }

  /** With groups of nine, the first n groups take 11 lines each: header,
      nine teams, empty line. */
  lemma {:induction false} GroupsLinesAt(groups: Groups, n: nat)
    requires n <= 4
    requires forall g | 0 <= g < 4 :: |groups[g]| == 9
    ensures |GroupsLines(groups, n)| == 11 * n
    ensures forall g | 0 <= g < n :: GroupsLines(groups, n)[11 * g] == GroupHeader(g)
    ensures forall g, i | 0 <= g < n && 0 <= i < 9 :: GroupsLines(groups, n)[11 * g + 1 + i] == groups[g][i]
    ensures forall g | 0 <= g < n :: GroupsLines(groups, n)[11 * g + 10] == ""
  {
    if n > 0 {
      GroupsLinesAt(groups, n - 1);
      var members := groups[n - 1];
      var block := GroupBlock(n - 1, members);
      assert block[0] == GroupHeader(n - 1) && block[10] == "";
      assert forall i | 0 <= i < 9 :: block[1 + i] == members[i];
    }
  }

  /** The layout for four full groups of nine: group g takes lines 11g .. 11g+10
      (header, nine teams, empty line), "Matches:" is line 44, and match p is
      line 45 + p. */
  lemma ReportLayout(groups: Groups, ms: seq<TeamPair>)
    requires forall g | 0 <= g < 4 :: |groups[g]| == 9
    ensures |ReportLines(groups, ms)| == 45 + |ms|
    ensures forall g | 0 <= g < 4 :: ReportLines(groups, ms)[11 * g] == GroupHeader(g)
    ensures forall g, i | 0 <= g < 4 && 0 <= i < 9 :: ReportLines(groups, ms)[11 * g + 1 + i] == groups[g][i]
    ensures forall g | 0 <= g < 4 :: ReportLines(groups, ms)[11 * g + 10] == ""
    ensures ReportLines(groups, ms)[44] == "Matches:"
    ensures forall p | 0 <= p < |ms| :: ReportLines(groups, ms)[45 + p] == Render(ms[p])
  {
    GroupsLinesAt(groups, 4);
  }

  /** No line of the first n groups holds a newline when no team name does. */
  lemma {:induction false} GroupsLinesNoNewline(groups: Groups, n: nat)
    requires n <= 4
    requires forall g, i | 0 <= g < 4 && 0 <= i < |groups[g]| :: '\n' !in groups[g][i]
    ensures forall k | 0 <= k < |GroupsLines(groups, n)| :: '\n' !in GroupsLines(groups, n)[k]
  {
    if n > 0 {
      GroupsLinesNoNewline(groups, n - 1);
      var block := GroupBlock(n - 1, groups[n - 1]);
      assert forall k | 0 <= k < |block| :: '\n' !in block[k] by {
        forall k | 0 <= k < |block| ensures '\n' !in block[k] {
          if 0 < k < |block| - 1 {
            assert block[k] == groups[n - 1][k - 1];
          }
        }
      }
    }
  }

  lemma RenderNoNewline(m: TeamPair)
    requires '\n' !in m.teamA && '\n' !in m.teamB
    ensures '\n' !in Render(m)
  {
    assert Render(m) == m.teamA + Separator + m.teamB;
  }

  /** Read back line by line, the report of a draw gives its layout, provided
      no team name holds a newline. */
  lemma ReportReadBack(groups: Groups, ms: seq<TeamPair>)
    requires forall g, i | 0 <= g < 4 && 0 <= i < |groups[g]| :: '\n' !in groups[g][i]
    requires forall p | 0 <= p < |ms| :: '\n' !in ms[p].teamA && '\n' !in ms[p].teamB
    ensures Lines(Unlines(ReportLines(groups, ms))) == ReportLines(groups, ms)
  {
    var ls := ReportLines(groups, ms);
    GroupsLinesNoNewline(groups, 4);
    forall p | 0 <= p < |ms| ensures '\n' !in Render(ms[p]) {
      RenderNoNewline(ms[p]);
    }
    LinesUnlines(ls);
  }
}
