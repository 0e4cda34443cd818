/** The points table as displayed: one row per team, ordered by points from
    most to fewest. Teams level on points come in no promised order. */
module StandingsTable {
  import opened Records
  import opened Collections
  import opened Standings

  /** One displayed row of the points table. */
  datatype Standing = Standing(team: Team, points: nat)

  predicate ByPointsDescending(table: seq<Standing>)
  {
    forall i, j :: 0 <= i < j < |table| ==> table[i].points >= table[j].points
  }

  /** The team column of the table. */
  function TeamColumn(table: seq<Standing>): (ts: seq<Team>)
    ensures |ts| == |table|
    ensures forall i :: 0 <= i < |table| ==> ts[i] == table[i].team
  {
    if |table| == 0 then [] else TeamColumn(table[..|table| - 1]) + [table[|table| - 1].team]
  }

  /** The points column of the table. */
  function PointsColumn(table: seq<Standing>): (ps: seq<nat>)
    ensures |ps| == |table|
    ensures forall i :: 0 <= i < |table| ==> ps[i] == table[i].points
  {
    if |table| == 0 then [] else PointsColumn(table[..|table| - 1]) + [table[|table| - 1].points]
  }

  /** The teams that have a row in the table. */
  function Listed(table: seq<Standing>): set<Team>
  {
    set i | 0 <= i < |table| :: table[i].team
  }

  /** The sum of the points column. */
  function TotalPoints(table: seq<Standing>): nat
  {
    Sum(PointsColumn(table))
  }

  /** `table` lists, best first, the entries of `p` not left in `rest`, and no
      entry left in `rest` beats a listed one. */
  ghost predicate ListsAllBut(table: seq<Standing>, rest: map<Team, nat>, p: map<Team, nat>)
  {
    && (forall t :: t in rest ==> t in p && rest[t] == p[t])
    && Listed(table) !! rest.Keys
    && Listed(table) + rest.Keys == p.Keys
    && (forall i :: 0 <= i < |table| ==> table[i].team in p && table[i].points == p[table[i].team])
    && NoDuplicates(TeamColumn(table))
    && ByPointsDescending(table)
    && (forall i, t :: 0 <= i < |table| && t in rest ==> rest[t] <= table[i].points)
  }

  lemma ListedAppend(table: seq<Standing>, row: Standing)
    ensures Listed(table + [row]) == Listed(table) + {row.team}
  {
    forall u | u in Listed(table + [row])
      ensures u in Listed(table) + {row.team}
    {
      var i :| 0 <= i < |table + [row]| && (table + [row])[i].team == u;
      if i < |table| {
        assert table[i].team == u;
      }
    }
    forall u | u in Listed(table)
      ensures u in Listed(table + [row])
    {
      var i :| 0 <= i < |table| && table[i].team == u;
      assert (table + [row])[i].team == u;
    }
    assert (table + [row])[|table|].team == row.team;
  }

  lemma TotalPointsAppend(table: seq<Standing>, row: Standing)
    ensures TotalPoints(table + [row]) == TotalPoints(table) + row.points
  {
    assert PointsColumn(table + [row]) == PointsColumn(table) + [row.points];
    assert (PointsColumn(table) + [row.points])[..|table|] == PointsColumn(table);
  }

  /** Moving a best remaining entry to the end of the table keeps the listing in order. */
  lemma ListsAllButStep(table: seq<Standing>, rest: map<Team, nat>, p: map<Team, nat>, t: Team)
    requires ListsAllBut(table, rest, p)
    requires t in rest && forall u :: u in rest ==> rest[u] <= rest[t]
    ensures ListsAllBut(table + [Standing(t, rest[t])], rest - {t}, p)
  {
    ListedAppend(table, Standing(t, rest[t]));
    assert TeamColumn(table + [Standing(t, rest[t])]) == TeamColumn(table) + [t];
  }

  /** Lists the entries of a points map by points, highest first. Among teams
      level on points any one may be picked first, as an unstable sort may do. */
  method SortDescending(p: map<Team, nat>) returns (table: seq<Standing>)
    ensures ByPointsDescending(table)
    ensures NoDuplicates(TeamColumn(table))
    ensures Listed(table) == p.Keys
    ensures forall i :: 0 <= i < |table| ==> table[i].team in p && table[i].points == p[table[i].team]
    ensures TotalPoints(table) == MapSum(p)
  {
    table := [];
    var rest := p;
    while rest != map[]
      invariant ListsAllBut(table, rest, p)
      invariant TotalPoints(table) + MapSum(rest) == MapSum(p)
      decreases |rest|
    {
      MaxKeyExists(rest);
      var t :| t in rest && forall u :: u in rest ==> rest[u] <= rest[t];
      MapSumRemove(rest, t);
      ListsAllButStep(table, rest, p, t);
      var row := Standing(t, rest[t]);
      TotalPointsAppend(table, row);
      table := table + [row];
      rest := rest - {t};
    }
    assert rest.Keys == {};
  }

  /** Computes the displayed points table of a match table. */
  method PointsTable(ms: seq<MatchRecord>) returns (table: seq<Standing>)
    ensures ByPointsDescending(table)
    ensures NoDuplicates(TeamColumn(table))
    ensures forall t :: t in Listed(table) <==>
      Wins(LeagueStage(ms), t) > 0 || TieSides(LeagueStage(ms), t) > 0
    ensures forall i :: 0 <= i < |table| ==>
      table[i].points == 2 * Wins(LeagueStage(ms), table[i].team) + TieSides(LeagueStage(ms), table[i].team)
    ensures TotalPoints(table) == 2 * |LeagueStage(ms)|
  {
    var p := Points(ms);
    table := SortDescending(p);
    PointsConservation(ms);
    forall t
      ensures t in p <==> Wins(LeagueStage(ms), t) > 0 || TieSides(LeagueStage(ms), t) > 0
      ensures t in p ==> p[t] == 2 * Wins(LeagueStage(ms), t) + TieSides(LeagueStage(ms), t)
    {
      PointsRule(ms, t);
    }
  }
}
