# Football draw — a Dafny model

This project models the tournament draw of `code-with-kids`:

- `cmd/draw`, the command-line tool, written in Go;
- `football-draw.js`, its port for the browser.

The draw works as follows:

1. It takes exactly 36 team names: the non-empty input lines.
2. It permutes them with a Fisher–Yates shuffle.
3. It cuts the result into four buckets A–D of nine teams.
4. It lists a fixed, ordered schedule of 144 matches:
   - Intra-bucket: each bucket is read as three triples, and every triple plays its three round-robin matches.
   - Cross-bucket: for the six bucket pairs (A,B), (A,C), (A,D), (B,C), (B,D), (C,D), position `i` of the first bucket meets positions `i` and `(i+1) mod 9` of the second.

The browser version adds a small mutable team list: add a trimmed name, remove by index, clear, count check. It also formats the result as text.

The two versions differ on white space. The tool drops only empty lines, so a line of spaces or tabs becomes a team, untrimmed. The browser version trims every name and refuses one that trims to nothing. The two versions therefore agree only on lists of trimmed, non-empty names (`TeamList.Valid`); `TeamList.SameDrawAsTool` assumes that, and `TeamList.WhiteSpaceLine` shows a line on which they part.

Modules, one per concern:

- `Types`: teams, buckets, ordered team pairs, and the `A - B` rendering (`types.go`).
- `Shuffle`: the Fisher–Yates pass.
  - The random source is a parameter: an oracle `js` with `js[i] <= i`, giving the index that position `i` is swapped with.
  - Both implementations run the pass from the last position down to 1.
- `Input`: the pure part of `ReadInput`. It keeps the non-empty lines, checks that there are 36 of them, shuffles, and fills the buckets. The error message is rendered by `Decimal`.
- `Pairs`: the two generators, `GenerateBucketPairs` and `GenerateCrossBucketsPairs`.
- `Draw`: `main` as the orchestrator, and the whole-draw properties:
  - block order;
  - no repeated fixture;
  - eight matches per team;
  - the run aborting on an input error.
- `Report`: the text of `formatResults`, and reading it back line by line.
- `TeamList`: the browser's `FootballDraw` object as an immutable state with pure operations. A thrown error is a `Failure` result, and the state is then left as it was.
- `Seqs`, `Results`: generic helpers (distinctness, multisets, slicing; `Option`/`Result`).

File and clock access (`os.Open`, `time.Now`, `Math.random`) become parameters: the input lines and the swap oracle.

## Model

| member | source | states |
|---|---|---|
| Types.Render | cmd/draw/types.go:12-14 | The rendered match is the first name, then " - ", then the second name: length `|A|+|B|+3`, it starts with A and ends with B. |
| Types.ParsePair | cmd/draw/types.go:12-14 | Splitting a line at its first " - " (the first name holds no separator) yields a pair that renders back to the line, and fails exactly when the line has no separator. |
| Types.ParseRender | cmd/draw/types.go:12-14 | Rendering is undone by parsing whenever the first name cannot be mistaken for the start of a separator. |
| Shuffle.Swap | cmd/draw/utils.go:40-42 | The swap closure exchanges exactly the two positions and keeps the multiset. |
| Shuffle.Shuffled | cmd/draw/utils.go:40-42 | For any admissible swap indices the shuffled list has the input's length and the same multiset: it is a permutation. |
| Shuffle.ShuffleArray | pkg/http/server/example/static/football-draw.js:41-48 | The downward loop over a copy computes the shuffled list, which is a permutation of the input; the input itself is a value and stays untouched. |
| Shuffle.IdentityShuffle | pkg/http/server/example/static/football-draw.js:43-46 | When every position is swapped with itself the order is unchanged, so the shuffle is the only source of reordering. |
| Decimal.ValueDigits | cmd/draw/utils.go:35 | The base-ten text printed for a count reads back as that count. |
| Decimal.DigitsInjective | cmd/draw/utils.go:35 | Different counts print differently. |
| Decimal.WithCount | cmd/draw/utils.go:35 | A message followed by a count keeps the message as its prefix, and the rest is digits without a leading zero whose value is the count, which fixes the text uniquely, as `%d` prints it. |
| Input.ErrorText | cmd/draw/utils.go:34-36 | The error text is "expected 36 teams, got " followed by the kept count in base ten, without leading zeros. |
| Input.NonEmpty | cmd/draw/utils.go:23-28 | The kept teams are the input lines with every empty line removed (as multisets), none of them empty. |
| Input.NonEmptyConcat | cmd/draw/utils.go:23-28 | Filtering works line by line, so kept lines stay in their input order. |
| Input.NonEmptyKeepsTeams | cmd/draw/utils.go:25-27 | Input without empty lines is kept unchanged. |
| Input.Fill | cmd/draw/utils.go:44-46 | Team i goes to bucket i / 9 at position i % 9. |
| Input.FillAt | cmd/draw/utils.go:44-46 | Position i of bucket g holds team 9g + i. |
| Input.ConcatFill | cmd/draw/utils.go:44-46 | Reading the four buckets one after the other gives back exactly the shuffled list. |
| Input.FillConcat | cmd/draw/utils.go:44-46 | Conversely, filling from the concatenated buckets gives the same buckets. |
| Input.BucketsPartition | cmd/draw/utils.go:44-46 | The four buckets together hold every team as often as the list does; with no repeated name, no team sits in two places. |
| Input.DistinctBuckets | cmd/draw/utils.go:44-46 | With no repeated name in the list, each bucket has nine different teams and no two buckets share one. |
| Input.ReadInput | cmd/draw/utils.go:23-48 | An error reporting the kept count exactly when that count is not 36, decided before shuffling; otherwise buckets whose concatenation is the shuffled kept lines, a permutation of the non-empty input lines. |
| Pairs.BucketPairs | cmd/draw/utils.go:76-89 | A bucket yields exactly nine intra-bucket matches. |
| Pairs.BucketPairsAt | cmd/draw/utils.go:79-86 | Match p pairs the bucket's teams at IntraHome(p) and IntraAway(p): for triple k the matches are (b[3k],b[3k+1]), (b[3k+2],b[3k]), (b[3k+1],b[3k+2]); both positions lie in triple p / 3 and differ. |
| Pairs.BucketPairsFromAt | cmd/draw/utils.go:79-86 | The loop over triples k..2 emits the positional pairs of those triples in order. |
| Pairs.IntraSlotsDiffer | cmd/draw/utils.go:80-85 | Different intra-bucket matches join different unordered pairs of positions. |
| Pairs.IntraSlot | cmd/draw/utils.go:80-85 | Every unordered pair of different positions of one triple is joined by some intra-bucket match. |
| Pairs.TripleCovered | cmd/draw/utils.go:80-85 | Every two different teams of one triple meet in the bucket's matches. |
| Pairs.IntraMatchesDiffer | cmd/draw/utils.go:80-85 | With nine different names, an intra-bucket match is never a self-pair and two different ones are never between the same teams. |
| Pairs.IntraNoRepeat | cmd/draw/utils.go:80-85 | With nine different names, no self-pair and no unordered pair twice among the nine matches. |
| Pairs.TriplePlayers | cmd/draw/utils.go:81-85 | Each team of a triple plays twice in the triple's three matches. |
| Pairs.IntraPlayers | cmd/draw/utils.go:79-86 | Every team of the bucket appears exactly twice among the players of its nine matches. |
| Pairs.CrossBucketPairs | cmd/draw/utils.go:91-100 | Two buckets yield exactly eighteen cross-bucket matches. |
| Pairs.CrossPairsFromAt | cmd/draw/utils.go:94-97 | The loop from position i emits, for each later position k, the pair (a[k], b[k]) and then the pair (b[(k+1) % 9], a[k]). |
| Pairs.CrossAt | cmd/draw/utils.go:94-97 | Match 2i is (a[i], b[i]) and match 2i+1 is (b[(i+1) % 9], a[i]). |
| Pairs.CrossInvolvesFirst | cmd/draw/utils.go:94-97 | With a's names distinct and not in b, a[i] plays in match p exactly when p / 2 == i. |
| Pairs.CrossInvolvesSecond | cmd/draw/utils.go:94-97 | With b's names distinct and not in a, b[j] plays in match p exactly when p is 2j, or p is odd with (p/2 + 1) % 9 == j. |
| Pairs.CrossPartners | cmd/draw/utils.go:94-97 | Both characterisations together, for all positions: every team of a and of b plays in exactly the cross matches named. |
| Pairs.CrossOpponentsDiffer | cmd/draw/utils.go:94-97 | The two opponents of a[i], b[i] and b[(i+1) % 9], differ, and so do the two opponents a[j] and a[(j-1) mod 9] of b[j]. |
| Pairs.NextOpponentDiffers | cmd/draw/utils.go:95-96 | With b's names distinct, a[i]'s aligned opponent differs from its offset opponent. |
| Pairs.PreviousOpponentDiffers | cmd/draw/utils.go:95-96 | With a's names distinct, b[j]'s two opponents differ. |
| Pairs.CrossSamePosition | cmd/draw/utils.go:94-97 | Two cross matches between the same teams belong to the same position of a. |
| Pairs.CrossPositionMatchesDiffer | cmd/draw/utils.go:95-96 | The aligned and the offset match of one position are not between the same teams. |
| Pairs.CrossNotSelf | cmd/draw/utils.go:94-97 | When a and b share no team, no cross match is a self-pair. |
| Pairs.CrossMatchesDiffer | cmd/draw/utils.go:94-97 | With eighteen different names, two different cross matches are never between the same teams. |
| Pairs.CrossNoRepeat | cmd/draw/utils.go:94-97 | With eighteen different names, no self-pair and no unordered pair twice among the eighteen matches. |
| Pairs.Rotate | cmd/draw/utils.go:96 | The offset partner sequence b[(i+1) % 9] is a rotation of b, hence a permutation of it. |
| Pairs.CrossPlayers | cmd/draw/utils.go:94-97 | Every team of a and every team of b appears exactly twice among the players of the eighteen matches. |
| Pairs.FixturesArePlayers | cmd/draw/main.go:23-32 | Where no match is a self-pair, a team's number of matches equals the number of times its name occurs among the players. |
| Draw.Home | cmd/draw/main.go:13-21 | The six bucket pairs are (A,B), (A,C), (A,D), (B,C), (B,D), (C,D): the first-listed bucket comes earlier than the second. |
| Draw.BucketPairings | cmd/draw/main.go:13-21 | Six bucket pairs; pair c is (bucket Home(c), bucket Away(c)), in the fixed order with the first-listed bucket first. |
| Draw.GenerateMatches | cmd/draw/main.go:23-32 | The final list has exactly 4×9 + 6×18 = 144 matches. |
| Draw.IntraRoundsAt | cmd/draw/main.go:24-27 | Block g of the intra part is bucket g's generator output. |
| Draw.CrossRoundsAt | cmd/draw/main.go:29-32 | Block c of the cross part is pair c's generator output. |
| Draw.IntraBlock | cmd/draw/main.go:24-27 | Matches 9g .. 9g+8 are exactly bucket g's nine intra-bucket matches, A to D in order. |
| Draw.CrossBlock | cmd/draw/main.go:13-32 | Matches 36+18c .. 53+18c are exactly the cross matches of pair c, first-listed bucket as the first argument; nothing is removed or reordered. |
| Draw.MatchAt | cmd/draw/main.go:23-32 | Every position of the list is a place k of one round j (a generator block), and holds that round's match k. |
| Draw.RoundSpans | cmd/draw/main.go:13-32 | Every match of round j is between a team of one bucket of its span and a team of the other. |
| Draw.SpansDiffer | cmd/draw/main.go:13-21 | Different rounds span different unordered pairs of buckets. |
| Draw.OneBucket | cmd/draw/utils.go:44-46 | With no repeated name, a name sits in one bucket only. |
| Draw.SameFixtureSameSpan | cmd/draw/main.go:13-32 | With no repeated name, two matches between the same teams span the same buckets. |
| Draw.RoundsDiffer | cmd/draw/main.go:23-32 | With no repeated name, matches at different places of the rounds are between different teams. |
| Draw.MatchNotSelf | cmd/draw/main.go:23-32 | With no repeated name, no match of the list is a self-pair. |
| Draw.MatchesDiffer | cmd/draw/main.go:23-32 | With no repeated name, two different positions of the list hold different fixtures. |
| Draw.NoRepeatedFixture | cmd/draw/main.go:14-32 | With 36 different names, none of the 144 matches is a self-pair and no unordered pair is listed twice. |
| Draw.IntraRoundsPlayers | cmd/draw/main.go:24-27 | Every team of the listed buckets appears twice among the players of their intra-bucket matches. |
| Draw.CrossRoundsPlayers | cmd/draw/main.go:29-32 | Every team of each listed pair appears twice among the players of that pair's matches. |
| Draw.PairingsWeight | cmd/draw/main.go:14-21 | Every bucket is in three of the six pairs. |
| Draw.DrawPlayers | cmd/draw/main.go:14-32 | Among the players of the whole list every team occurs eight times for each time it is in the draw. |
| Draw.EightMatchesEach | cmd/draw/main.go:14-32 | With 36 different names, every team of the draw plays exactly eight matches and any other name plays none. |
| Draw.Run | cmd/draw/main.go:8-32 | An input error stops the run before any match is made. Otherwise the buckets are the shuffled kept lines and the matches are the 144 generated from them. |
| Draw.RunFairness | cmd/draw/main.go:8-32 | Whatever the shuffle does, 36 different kept names play eight matches each, no other name plays, and no fixture repeats. |
| Draw.RunBucketsWithoutShuffle | cmd/draw/utils.go:23-46 | With the identity shuffle and no empty line, bucket g position i holds input line 9g + i. |
| Draw.FirstMatches | cmd/draw/main.go:23-24 | The list opens with bucket A's first triple: x - y, z - x, y - z. |
| Draw.RunWithoutShuffle | cmd/draw/main.go:8-24 | End to end with the identity shuffle, the first three matches are line 1 - line 2, line 3 - line 1, line 2 - line 3. |
| Report.FormatGroup | pkg/http/server/example/static/football-draw.js:135-139 | The text of one group is the header line, one line per member, and an empty line, each ended by a newline. |
| Report.FormatMatches | pkg/http/server/example/static/football-draw.js:143-146 | The text of the match list is one newline-ended line per match, in order, each the rendered "teamA - teamB". |
| Report.FormatResults | pkg/http/server/example/static/football-draw.js:129-149 | The report is the four group blocks A–D, then "Matches:", then the match lines, every line ended by a newline. |
| Report.GroupsLinesAt | pkg/http/server/example/static/football-draw.js:134-140 | With groups of nine, group g takes lines 11g .. 11g+10: header, nine teams, an empty line. |
| Report.ReportLayout | pkg/http/server/example/static/football-draw.js:129-149 | For four full groups, the report has 45 + n lines: group g's header "Group X:" (X the letter A–D) at 11g, its member i at 11g+1+i, an empty line at 11g+10, "Matches:" at line 44, and match p rendered as "teamA - teamB" at line 45+p. |
| Report.LinesUnlines | pkg/http/server/example/static/football-draw.js:131-148 | Cutting the newline-ended text at its newlines gives back the lines, if no line holds a newline. |
| Report.ReportReadBack | pkg/http/server/example/static/football-draw.js:129-149 | When no team name holds a newline, reading the report back line by line gives exactly its layout. |
| TeamList.Trim | pkg/http/server/example/static/football-draw.js:13-14 | The trimmed name has no white space at either end and is no longer than the input. |
| TeamList.TrimDecompose | pkg/http/server/example/static/football-draw.js:13-14 | Trimming only cuts white space: the input is white space, then the trimmed name, then white space. |
| TeamList.TrimPadded | pkg/http/server/example/static/football-draw.js:13-14 | Conversely, a name with no white space at its ends, padded with white space, trims back to itself. |
| TeamList.TrimIdempotent | pkg/http/server/example/static/football-draw.js:13-14 | Trimming twice is trimming once. |
| TeamList.TrimEmpty | pkg/http/server/example/static/football-draw.js:13 | A name trims to nothing exactly when it is all white space. |
| TeamList.NewDraw | pkg/http/server/example/static/football-draw.js:5-9 | A new draw has no teams, four empty groups and no matches. |
| TeamList.AddTeam | pkg/http/server/example/static/football-draw.js:12-16 | The trimmed name is appended exactly when it is not empty after trimming; otherwise nothing changes. Groups and matches are never touched. |
| TeamList.RemoveTeam | pkg/http/server/example/static/football-draw.js:19-23 | An index outside the list is a no-op. An index inside removes exactly that team: the others keep their order and the multiset loses one copy of it. |
| TeamList.ClearTeams | pkg/http/server/example/static/football-draw.js:26-28 | The team list becomes empty; the last draw stays. |
| TeamList.TeamCountAfterEdits | pkg/http/server/example/static/football-draw.js:31-38 | The count rises by one exactly for a name that is not all white space, falls by one exactly for an index in range, is zero after clearing, and the count check accepts exactly 36. |
| TeamList.GenerateDraw | pkg/http/server/example/static/football-draw.js:51-74 | The draw fails exactly when the count is not 36, with "Expected 36 teams, got " and the count in base ten without leading zeros; otherwise the team list is unchanged and there are 144 matches. |
| TeamList.GenerateDrawBuckets | pkg/http/server/example/static/football-draw.js:56-65 | The groups are filled from the shuffled copy of the team list. |
| TeamList.GenerateDrawFills | pkg/http/server/example/static/football-draw.js:59-65 | Every group gets nine teams: position i of group g holds shuffled team 9g + i. |
| TeamList.NewDrawValid | pkg/http/server/example/static/football-draw.js:5-9 | A new draw's list holds only trimmed, non-empty names. |
| TeamList.AddTeamValid | pkg/http/server/example/static/football-draw.js:12-16 | Adding keeps the list made of trimmed, non-empty names. |
| TeamList.RemoveTeamValid | pkg/http/server/example/static/football-draw.js:19-23 | Removing keeps it so. |
| TeamList.ClearTeamsValid | pkg/http/server/example/static/football-draw.js:26-28 | Clearing keeps it so. |
| TeamList.GenerateDrawValid | pkg/http/server/example/static/football-draw.js:51-74 | Drawing keeps it so. |
| TeamList.GenerateDrawWhenValid | pkg/http/server/example/static/football-draw.js:51-54 | The draw succeeds exactly when the count check accepts. |
| TeamList.WhiteSpaceLine | pkg/http/server/example/static/football-draw.js:13-14 | A line of spaces is a team for the command-line tool (cmd/draw/utils.go:25 drops only empty lines) but is refused by the browser version: the two part on white-space names. |
| TeamList.SameDrawAsTool | pkg/http/server/example/static/football-draw.js:51-126 | On the same names and swap indices the browser version and the command-line tool both fail on the same count, or both make the same groups and the same 144 matches. |
| TeamList.BrowserDrawFairness | pkg/http/server/example/static/football-draw.js:51-98 | With 36 different names on the list, every one of them plays exactly eight matches and no fixture repeats. |

## Left out

- File I/O in `ReadInput` is not modelled: `os.Open` and its error, and the scanner's error. The input is the sequence of lines the scanner returns. How `bufio.Scanner` splits the text (a final `\r` dropped, the over-long-line error) is not modelled.
- `WriteOutput` in `cmd/draw/utils.go` is not modelled: it creates and writes a file. Its text differs from the browser report only in the header word "Bucket" instead of "Group".
- The `log.Fatalf` in `main` is not modelled beyond the run stopping with the error (`Draw.Run` returns the `Failure`).
- Randomness is not modelled: the clock-seeded `rand.New` in Go and `Math.random()` in JS. The swap indices are a parameter, and nothing is claimed about the uniformity of the draw.
- `getGroupsHTML` and `getMatchesHTML` are not modelled: they only build HTML for presentation.
- Duplicate names are not modelled, because neither version checks for them. The lemmas that need distinct names state it as a precondition.
- `generateMatches`, `generateBucketPairs` and `generateCrossBucketPairs` are modelled only on buckets of nine, which is how `generateDraw` calls them. A direct call on unfilled groups (JS reads `undefined` past the end of an array) is not modelled.
- The JS object mutates `this.teams`, `this.buckets` and `this.matches`. The model returns a new state instead. A thrown error becomes a `Failure` result, and the state is then the one before the call, as in the source, where the throw comes before any assignment.
- `String.prototype.trim` is modelled with the white-space and line-terminator characters of sections 12.2 and 12.3 of ECMAScript 2023 (ECMA-262). Strings are sequences of characters; UTF-16 surrogates are not modelled.
- The HTTP server under `pkg/http/server` and `learning.js` are not modelled: they are plumbing and teaching snippets, not part of the draw.
