/** The two tables the dashboard loads, after missing match cells have been
    normalised to the sentinel 0. Only the columns the aggregations read are kept. */
module Records {

  /** A franchise name as it appears in the `team1`, `team2` and `match_winner` columns. */
  type Team = string

  /** The `match_winner` cell: a team, or the sentinel 0 that stands for a tie,
      an abandonment or a no-result. */
  datatype Outcome = NoResult | WonBy(winner: Team)

  /** One row of the match table. Scores are non-negative run counts; a missing
      score has already become 0. */
  datatype MatchRecord = MatchRecord(
    matchId: int,
    team1: Team,
    team2: Team,
    firstInningsScore: nat,
    secondInningsScore: nat,
    outcome: Outcome
  )

  /** One row of the bowler table, restricted to the columns the economy
      leaderboard shows. `economy` is the `ECO` column in hundredths of a run per over. */
  datatype Bowler = Bowler(name: string, team: Team, economy: nat)
}
