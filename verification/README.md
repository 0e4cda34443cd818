# IPL 2025 dashboard: tournament aggregation model

This Dafny project models the computations behind the IPL 2025 analysis
dashboard (`app.py`). The page and its charts are left out. What remains is a
small pipeline of pure transformations over two in-memory tables:

- **Dataset overview.** The distinct teams, in the order they first appear, and the number of distinct match ids.
- **Runs overview.** The derived `total_score_per_match` column (first plus second innings) and its sum, "Total Runs Scored".
- **Points table.** The last four rows are playoffs and are dropped. Each remaining match with a winner gives that winner 2 points. Each remaining match whose winner is the sentinel 0 (a tie or no result) gives 1 point to `team1` and 1 to `team2`, inserting a missing team at 0 first. The table is then shown by points, highest first.
- **Best-economy leaderboard.** Bowlers sorted by `ECO`, lowest first, cut to the first ten.

Modules, one per part of the pipeline:

| file | module | contents |
|---|---|---|
| records.dfy | `Records` | `MatchRecord`, `Bowler`, and `Outcome` (a team or the sentinel 0) |
| collections.dfy | `Collections` | sums and duplicate-freedom of sequences, default-insert on maps (`Bump`), the sum of a map's values, max-key existence |
| overview.dfy | `Overview` | distinct teams and distinct match ids |
| runs.dfy | `Runs` | per-match total, total runs |
| standings.dfy | `Standings` | playoff cut, points map as computed, reference definitions, and the lemmas tying them together |
| standings_table.dfy | `StandingsTable` | the displayed, sorted points table |
| economy.dfy | `Economy` | the economy sort and the top-10 cut |

The points map is built the way the dashboard builds it. `WinPoints` models
the doubled `value_counts` of the winners. `AddTiePoints` then walks the tied
rows in order. Two independent reference definitions check it:

- `Due(cs, t)` is the sum over the counted matches of what each match awards team `t`.
- `Tally(cs)` is a single left fold that credits every match in turn.

`PointsOfIsDue` shows the two-phase computation holds exactly the teams with a
positive due, each mapped to its due. The membership rule (`PointsRule`) and
order independence (`PointsOrderIndependent`) follow from it. `PointsOfIsTally`
shows the two-phase computation equals the single fold. Conservation
(`PointsConservation`) follows from that and the fold's own conservation.

The dashboard's sort at line 72 is pandas' default sort, which is not stable.
`SortDescending` is therefore a method that picks any team with the most
remaining points at each step (a nondeterministic `:|` choice). Its contract
orders teams only by points and promises nothing about teams level on points.

The model follows the code as written:

- A team that only lost counted matches is absent from the points table. It does not appear with 0 points.
- Records are not assumed to satisfy `team1 != team2` or "the winner is one of the two teams", because the code never checks either. Conservation (2 points per counted match) holds without those assumptions, including for a tied row that names one team twice: `points.get` reads the value already bumped for `team1`.
- The economy sort is pandas' default, so bowlers with equal `ECO` have no promised order. The model's insertion sort is one admissible order. The contract of `Economy.BestEconomy` states only what holds for every order.

## Model

| member | source | states |
|---|---|---|
| Overview.Unique | app.py:26 | the result has no duplicates, holds exactly the values of the input, and keeps them in order of first appearance |
| Overview.TeamsArePlayers | app.py:26 | a team is listed exactly when it played on either side of some match, and it is listed once |
| Overview.TotalMatchesBounds | app.py:25 | the count of distinct match ids is at most the number of rows, and equals it when ids are unique |
| Runs.TotalScoreColumn | app.py:54 | the derived column has one cell per match, each the match's first plus second innings score |
| Runs.TotalRunsByInnings | app.py:54-56 | total runs equal all first-innings runs plus all second-innings runs |
| Runs.TotalRunsAppend | app.py:56 | total runs are additive over a split of the match table |
| Runs.MatchWithinTotal | app.py:54-56 | no match's total exceeds the season's total runs |
| Standings.LeagueStage | app.py:64 | the counted matches are the first max(0, n-4) rows of the table |
| Standings.ShortSeasonHasNoStandings | app.py:64 | with four or fewer matches the points map is empty |
| Standings.PlayoffsIgnored | app.py:64 | whatever the last four rows contain, they do not affect the points map |
| Standings.DueSplit | app.py:65-70 | a team's due is two points per win plus one per side taken in a match without a winner |
| Standings.DuePermutation | app.py:65-70 | a team's due depends only on the multiset of counted matches |
| Standings.Credit | app.py:65-70 | crediting one match adds 2 to the winner, or 1 to each side of a tie, inserts teams missing from the map, changes nothing else, and raises the map's sum by exactly 2 |
| Standings.TallyIsDue | app.py:65-70 | the one-pass tally holds exactly the teams with a positive due, each mapped to its due |
| Standings.TallyConservation | app.py:65-70 | the tally's values sum to 2 times the number of counted matches |
| Standings.WinnersHaveWins | app.py:65 | the keys of the win counts are exactly the teams with at least one win |
| Standings.TiedRowsKeepSides | app.py:67 | selecting the rows without a winner keeps every tied side |
| Standings.AddTiePointsSides | app.py:68-70 | the tie walk adds one point per tied side to the starting map and inserts any team missing from it |
| Standings.PointsOfIsDue | app.py:65-70 | the points map holds exactly the teams with a positive due, each mapped to its due |
| Standings.PointsOfIsTally | app.py:65-70 | computing the win points and then walking the ties gives the same map as crediting match by match |
| Standings.PointsRule | app.py:64-70 | a team is in the points map if and only if it won a counted match or took a side in a counted tie; its value is 2 per win plus 1 per tied side |
| Standings.PointsConservation | app.py:64-70 | the points map's values sum to 2 times the number of counted matches |
| Standings.PointsCreditsEachMatch | app.py:65-70 | adding one counted match to the season changes the map exactly as crediting that match does |
| Standings.PointsOrderIndependent | app.py:65-70 | reordering the counted matches leaves the points map unchanged |
| StandingsTable.SortDescending | app.py:72 | the displayed rows are exactly the map's entries, one per team, ordered by points from highest to lowest, and their points sum to the map's sum |
| StandingsTable.PointsTable | app.py:64-73 | the displayed table is ordered by points descending, lists each team with a win or a tied side exactly once at 2 per win plus 1 per tied side, and its points sum to 2 times the number of counted matches |
| Economy.InsertByEconomy | app.py:81 | inserting a bowler into an ascending list keeps it ascending and adds exactly that bowler |
| Economy.SortByEconomy | app.py:81 | the sorted table is a permutation of the bowler table, ascending by economy |
| Economy.BestEconomy | app.py:81 | the leaderboard has min(10, n) rows, all drawn from the input, ascending by economy, and no bowler left out has a lower economy than one shown |
| Economy.PrefixIsBest | app.py:81 | in an ascending list every bowler of a prefix has an economy no higher than every bowler outside it |

## Left out

- Page setup, headers, metrics widgets, columns, `st.write`/`st.dataframe` and every chart (app.py:11-12, 29-51, 59-61, 73-78, 82-90): presentation only.
- Loading the two CSV files and `fillna(0)` (app.py:15-21): I/O. Records arrive already normalised: scores are `nat` and a missing winner is the `NoResult` sentinel. A missing team cell (0 after `fillna`) is not modelled.
- The average runs per match, `round(mean, 2)` (app.py:57): floating-point arithmetic.
- Venue lists and counts (app.py:27, 41) and the matches-per-team Series addition (app.py:47). The addition depends on pandas index alignment, which yields NaN for teams seen on only one side.
- `ECO` is a float in the bowler file. It is modelled as a natural number of hundredths of a run per over. Missing or NaN rates are not modelled, because that table is complete.
- Economy.BestEconomy: does not fix the order of bowlers with equal economy. pandas' default sort is not stable, so no order is promised. The model returns one admissible order.
- StandingsTable.SortDescending: does not fix the order of teams level on points, for the same reason.
- Standings.LeagueStage: `drop(tail(4).index)` removes rows by index label. The model removes them by position, which is the same for the default row index that `read_csv` creates. Duplicate index labels are not modelled.
