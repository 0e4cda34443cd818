/** The league points table: drop the playoff rows, award two points per
    decided match to its winner and one point to each side of a tied or
    abandoned match, then list the teams by points. */
module Standings {
  import opened Records
  import opened Collections

  /** The number of trailing rows of the match table that are playoffs. */
  const PlayoffMatches: nat := 4

  /** The rows that count towards the league table: all but the last four. */
  function LeagueStage(ms: seq<MatchRecord>): (cs: seq<MatchRecord>)
    ensures |cs| == if |ms| <= PlayoffMatches then 0 else |ms| - PlayoffMatches
    ensures cs == ms[..|cs|]
  {
    if |ms| <= PlayoffMatches then [] else ms[..|ms| - PlayoffMatches]
  }

  // ---------------------------------------------------------------------------
  // Reference definitions: what a single match owes a team, and the total.
  // ---------------------------------------------------------------------------

  /** Points match `m` awards team `t`: 2 to the winner of a decided match,
      1 for each side `t` occupies in a match without a winner. */
  function Award(m: MatchRecord, t: Team): nat
  {
    match m.outcome
    case WonBy(w) => if w == t then 2 else 0
    case NoResult => (if m.team1 == t then 1 else 0) + (if m.team2 == t then 1 else 0)
  }

  /** Total points the matches `cs` award team `t`. */
  function Due(cs: seq<MatchRecord>, t: Team): nat
  {
    if |cs| == 0 then 0 else Due(cs[..|cs| - 1], t) + Award(cs[|cs| - 1], t)
  }

  /** Number of matches in `cs` that `t` won. */
  function Wins(cs: seq<MatchRecord>, t: Team): nat
  {
    if |cs| == 0 then 0
    else Wins(cs[..|cs| - 1], t) + (if cs[|cs| - 1].outcome == WonBy(t) then 1 else 0)
  }

  /** Number of sides `t` occupies in the matches of `cs` that have no winner
      (two for a row that lists `t` as both team1 and team2). */
  function TieSides(cs: seq<MatchRecord>, t: Team): nat
  {
    if |cs| == 0 then 0
    else
      var m := cs[|cs| - 1];
      TieSides(cs[..|cs| - 1], t)
      + (if m.outcome.NoResult? && m.team1 == t then 1 else 0)
      + (if m.outcome.NoResult? && m.team2 == t then 1 else 0)
  }

  /** A team's due is two points per win plus one per tied side. */
  lemma {:induction false} DueSplit(cs: seq<MatchRecord>, t: Team)
    ensures Due(cs, t) == 2 * Wins(cs, t) + TieSides(cs, t)
  {
    if |cs| > 0 {
      DueSplit(cs[..|cs| - 1], t);
    }
  }

  lemma {:induction false} DueAppend(a: seq<MatchRecord>, b: seq<MatchRecord>, t: Team)
    ensures Due(a + b, t) == Due(a, t) + Due(b, t)
    decreases |b|
  {
    if |b| > 0 {
      assert (a + b)[..|a + b| - 1] == a + b[..|b| - 1];
      DueAppend(a, b[..|b| - 1], t);
    } else {
      assert a + b == a;
    }
  }

  /** A team's due depends only on which matches were counted, not on their order. */
  lemma {:induction false} DuePermutation(a: seq<MatchRecord>, b: seq<MatchRecord>, t: Team)
    requires multiset(a) == multiset(b)
    ensures Due(a, t) == Due(b, t)
    decreases |a|
  {
    if |a| == 0 {
      assert |b| == |multiset(b)| == 0;
    } else {
      var x := a[|a| - 1];
      assert x in multiset(b);
      var i :| 0 <= i < |b| && b[i] == x;
      assert b == b[..i] + [x] + b[i + 1..];
      var a' := a[..|a| - 1];
      var b' := b[..i] + b[i + 1..];
      assert a == a' + [x];
      calc {
        multiset(a') + multiset{x};
        multiset(a);
        multiset(b);
        multiset(b[..i] + [x] + b[i + 1..]);
        multiset(b[..i]) + multiset{x} + multiset(b[i + 1..]);
        multiset(b') + multiset{x};
      }
      assert multiset(a') == multiset(a') + multiset{x} - multiset{x};
      assert multiset(b') == multiset(b') + multiset{x} - multiset{x};
      DuePermutation(a', b', t);
      DueAppend(b[..i] + [x], b[i + 1..], t);
      DueAppend(b[..i], [x], t);
      DueAppend(b[..i], b[i + 1..], t);
      assert Due([x], t) == Award(x, t) by {
        assert [x][..0] == [];
      }
    }
  }

  // ---------------------------------------------------------------------------
  // Reference accumulation: credit every counted match in turn.
  // ---------------------------------------------------------------------------

  /** Credits one match to a points map, inserting a missing team with 0 first. */
  function Credit(p: map<Team, nat>, m: MatchRecord): (r: map<Team, nat>)
    ensures forall t :: t in r <==> t in p || Award(m, t) > 0
    ensures forall t :: t in r ==> r[t] == GetOrZero(p, t) + Award(m, t)
    ensures MapSum(r) == MapSum(p) + 2
  {
    match m.outcome
    case WonBy(w) =>
      MapSumBump(p, w, 2);
      Bump(p, w, 2)
    case NoResult =>
      MapSumBump(p, m.team1, 1);
      MapSumBump(Bump(p, m.team1, 1), m.team2, 1);
      Bump(Bump(p, m.team1, 1), m.team2, 1)
  }

  /** The points map obtained by crediting the matches `cs` from first to last. */
  function Tally(cs: seq<MatchRecord>): map<Team, nat>
  {
    if |cs| == 0 then map[] else Credit(Tally(cs[..|cs| - 1]), cs[|cs| - 1])
  }

  /** The tally holds exactly the teams with a positive due, each with its due. */
  lemma {:induction false} TallyIsDue(cs: seq<MatchRecord>)
    ensures forall t :: t in Tally(cs) <==> Due(cs, t) > 0
    ensures forall t :: t in Tally(cs) ==> Tally(cs)[t] == Due(cs, t)
  {
    if |cs| > 0 {
      TallyIsDue(cs[..|cs| - 1]);
    }
  }

  /** Every counted match contributes exactly two points to the tally. */
  lemma {:induction false} TallyConservation(cs: seq<MatchRecord>)
    ensures MapSum(Tally(cs)) == 2 * |cs|
  {
    if |cs| > 0 {
      TallyConservation(cs[..|cs| - 1]);
    }
  }

  // ---------------------------------------------------------------------------
  // The computation as the dashboard performs it.
  // ---------------------------------------------------------------------------

  /** Teams that won at least one of the matches `cs`. */
  function Winners(cs: seq<MatchRecord>): set<Team>
  {
    set i | 0 <= i < |cs| && cs[i].outcome.WonBy? :: cs[i].outcome.winner
  }

  /** The count of wins per winning team, doubled. */
  function WinPoints(cs: seq<MatchRecord>): map<Team, nat>
  {
    map t | t in Winners(cs) :: 2 * Wins(cs, t)
  }

  /** The rows of `cs` whose winner is the sentinel, in table order. */
  function TiedRows(cs: seq<MatchRecord>): (ties: seq<MatchRecord>)
    ensures forall i :: 0 <= i < |ties| ==> ties[i].outcome.NoResult?
  {
    if |cs| == 0 then []
    else if cs[|cs| - 1].outcome.NoResult? then TiedRows(cs[..|cs| - 1]) + [cs[|cs| - 1]]
    else TiedRows(cs[..|cs| - 1])
  }

  /** Walks the tied rows in order, adding one point to team1 and then one to team2. */
  function AddTiePoints(p: map<Team, nat>, ties: seq<MatchRecord>): map<Team, nat>
  {
    if |ties| == 0 then p
    else
      var m := ties[|ties| - 1];
      var q := AddTiePoints(p, ties[..|ties| - 1]);
      Bump(Bump(q, m.team1, 1), m.team2, 1)
  }

  /** The points map built from the counted matches `cs`. */
  function PointsOf(cs: seq<MatchRecord>): map<Team, nat>
  {
    AddTiePoints(WinPoints(cs), TiedRows(cs))
  }

  /** The points map of the whole match table. */
  function Points(ms: seq<MatchRecord>): map<Team, nat>
  {
    PointsOf(LeagueStage(ms))
  }

  // ---------------------------------------------------------------------------
  // The computation agrees with the reference definitions.
  // ---------------------------------------------------------------------------

  lemma {:induction false} WinnersHaveWins(cs: seq<MatchRecord>)
    ensures forall t :: t in Winners(cs) <==> Wins(cs, t) > 0
  {
    if |cs| > 0 {
      var init := cs[..|cs| - 1];
      WinnersHaveWins(init);
      forall t
        ensures t in Winners(cs) <==> t in Winners(init) || cs[|cs| - 1].outcome == WonBy(t)
      {
        if t in Winners(cs) {
          var i :| 0 <= i < |cs| && cs[i].outcome.WonBy? && cs[i].outcome.winner == t;
          if i < |cs| - 1 {
            assert init[i] == cs[i];
          }
        }
        if t in Winners(init) {
          var i :| 0 <= i < |init| && init[i].outcome.WonBy? && init[i].outcome.winner == t;
          assert cs[i] == init[i];
        }
      }
    }
  }

  lemma {:induction false} TiedRowsKeepSides(cs: seq<MatchRecord>, t: Team)
    ensures TieSides(TiedRows(cs), t) == TieSides(cs, t)
  {
    if |cs| > 0 {
      var init := cs[..|cs| - 1];
      TiedRowsKeepSides(init, t);
      if cs[|cs| - 1].outcome.NoResult? {
        assert (TiedRows(init) + [cs[|cs| - 1]])[..|TiedRows(init)|] == TiedRows(init);
      }
    }
  }

  /** The tie walk adds one point per tied side on top of the starting map. */
  lemma {:induction false} AddTiePointsSides(p: map<Team, nat>, ties: seq<MatchRecord>)
    requires forall i :: 0 <= i < |ties| ==> ties[i].outcome.NoResult?
    ensures forall t :: t in AddTiePoints(p, ties) <==> t in p || TieSides(ties, t) > 0
    ensures forall t :: t in AddTiePoints(p, ties) ==>
      AddTiePoints(p, ties)[t] == GetOrZero(p, t) + TieSides(ties, t)
  {
    if |ties| > 0 {
      AddTiePointsSides(p, ties[..|ties| - 1]);
    }
  }

  /** The points map holds exactly the teams with a positive due, each with its due. */
  lemma PointsOfIsDue(cs: seq<MatchRecord>)
    ensures forall t :: t in PointsOf(cs) <==> Due(cs, t) > 0
    ensures forall t :: t in PointsOf(cs) ==> PointsOf(cs)[t] == Due(cs, t)
  {
    WinnersHaveWins(cs);
    AddTiePointsSides(WinPoints(cs), TiedRows(cs));
    forall t
      ensures Due(cs, t) == 2 * Wins(cs, t) + TieSides(TiedRows(cs), t)
    {
      DueSplit(cs, t);
      TiedRowsKeepSides(cs, t);
    }
  }

  /** Building the map in two phases gives the same map as crediting match by match. */
  lemma PointsOfIsTally(cs: seq<MatchRecord>)
    ensures PointsOf(cs) == Tally(cs)
  {
    PointsOfIsDue(cs);
    TallyIsDue(cs);
    assert PointsOf(cs).Keys == Tally(cs).Keys;
  }

  /** Membership and value rule: a team is listed if and only if it won a
      counted match or took a side in a counted match without a winner; its
      points are two per win plus one per tied side. A team that only lost is absent. */
  lemma PointsRule(ms: seq<MatchRecord>, t: Team)
    ensures t in Points(ms) <==> Wins(LeagueStage(ms), t) > 0 || TieSides(LeagueStage(ms), t) > 0
    ensures t in Points(ms) ==>
      Points(ms)[t] == 2 * Wins(LeagueStage(ms), t) + TieSides(LeagueStage(ms), t)
  {
    PointsOfIsDue(LeagueStage(ms));
    DueSplit(LeagueStage(ms), t);
  }

  /** Conservation: the points handed out are exactly two per counted match,
      whether decided or tied, and even for a tie row naming one team twice. */
  lemma PointsConservation(ms: seq<MatchRecord>)
    ensures MapSum(Points(ms)) == 2 * |LeagueStage(ms)|
  {
    PointsOfIsTally(LeagueStage(ms));
    TallyConservation(LeagueStage(ms));
  }

  /** Appending one counted match credits it and nothing else: 2 points to the
      winner of a decided match, 1 to each side of a tied one. */
  lemma PointsCreditsEachMatch(cs: seq<MatchRecord>, m: MatchRecord)
    ensures PointsOf(cs + [m]) == Credit(PointsOf(cs), m)
  {
    PointsOfIsTally(cs + [m]);
    PointsOfIsTally(cs);
    assert (cs + [m])[..|cs|] == cs;
  }

  /** The points map does not depend on the order of the counted matches. */
  lemma PointsOrderIndependent(a: seq<MatchRecord>, b: seq<MatchRecord>)
    requires multiset(a) == multiset(b)
    ensures PointsOf(a) == PointsOf(b)
  {
    PointsOfIsDue(a);
    PointsOfIsDue(b);
    forall t
      ensures Due(a, t) == Due(b, t)
    {
      DuePermutation(a, b, t);
    }
    assert PointsOf(a).Keys == PointsOf(b).Keys;
  }

  /** The last four rows never reach the table, whatever they contain. */
  lemma PlayoffsIgnored(league: seq<MatchRecord>, playoffs: seq<MatchRecord>)
    requires |playoffs| == PlayoffMatches
    ensures Points(league + playoffs) == PointsOf(league)
  {
    assert LeagueStage(league + playoffs) == league;
  }

  /** With four matches or fewer nothing counts and the table is empty. */
  lemma ShortSeasonHasNoStandings(ms: seq<MatchRecord>)
    requires |ms| <= PlayoffMatches
    ensures Points(ms) == map[]
  {
    PointsOfIsDue(LeagueStage(ms));
    assert Points(ms).Keys == {};
  }
}
