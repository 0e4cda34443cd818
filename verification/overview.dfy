/** The dataset overview: the distinct teams and the number of distinct matches. */
module Overview {
  import opened Records
  import opened Collections

  /** Position of the first occurrence of `x` in `xs`. */
  function FirstIndex<T(==)>(xs: seq<T>, x: T): (k: nat)
    requires x in xs
    ensures k < |xs| && xs[k] == x
    ensures forall j :: 0 <= j < k ==> xs[j] != x
  {
    if xs[0] == x then 0 else 1 + FirstIndex(xs[1..], x)
  }

  lemma FirstIndexPrefix<T>(xs: seq<T>, n: nat, x: T)
    requires n <= |xs| && x in xs[..n]
    ensures FirstIndex(xs, x) == FirstIndex(xs[..n], x)
  {
    var k := FirstIndex(xs[..n], x);
    var f := FirstIndex(xs, x);
    assert xs[k] == x;
    assert f <= k;
    assert xs[..n][f] == x;
  }

  /** The distinct values of `xs`, each kept at its first occurrence. */
  function Unique<T(==,!new)>(xs: seq<T>): (u: seq<T>)
    ensures NoDuplicates(u)
    ensures forall x :: x in u <==> x in xs
    ensures forall i, j :: 0 <= i < j < |u| ==> FirstIndex(xs, u[i]) < FirstIndex(xs, u[j])
  {
    if |xs| == 0 then []
    else
      var init := xs[..|xs| - 1];
      var x := xs[|xs| - 1];
      var u := Unique(init);
      assert forall y :: y in init ==> FirstIndex(xs, y) == FirstIndex(init, y) by {
        forall y | y in init
          ensures FirstIndex(xs, y) == FirstIndex(init, y)
        {
          FirstIndexPrefix(xs, |xs| - 1, y);
        }
      }
      if x in u then
        u
      else
        assert FirstIndex(xs, x) == |xs| - 1;
        u + [x]
  }

  /** The team columns read row by row: team1 then team2 of each match. */
  function TeamCells(ms: seq<MatchRecord>): (cells: seq<Team>)
    ensures |cells| == 2 * |ms|
    ensures forall i :: 0 <= i < |ms| ==> cells[2 * i] == ms[i].team1 && cells[2 * i + 1] == ms[i].team2
  {
    if |ms| == 0 then [] else TeamCells(ms[..|ms| - 1]) + [ms[|ms| - 1].team1, ms[|ms| - 1].team2]
  }

  /** The "Teams" list: every team that appears on either side of a match, once,
      in the order it is first seen. */
  function Teams(ms: seq<MatchRecord>): seq<Team>
  {
    Unique(TeamCells(ms))
  }

  /** A team is listed exactly when it played some match, and is listed once. */
  lemma TeamsArePlayers(ms: seq<MatchRecord>, t: Team)
    ensures NoDuplicates(Teams(ms))
    ensures t in Teams(ms) <==> exists i :: 0 <= i < |ms| && (ms[i].team1 == t || ms[i].team2 == t)
  {
    var cells := TeamCells(ms);
    if t in cells {
      var k :| 0 <= k < |cells| && cells[k] == t;
      var i := k / 2;
      assert k == 2 * i || k == 2 * i + 1;
      assert ms[i].team1 == t || ms[i].team2 == t;
    }
    if exists i :: 0 <= i < |ms| && (ms[i].team1 == t || ms[i].team2 == t) {
      var i :| 0 <= i < |ms| && (ms[i].team1 == t || ms[i].team2 == t);
      assert cells[2 * i] == ms[i].team1 && cells[2 * i + 1] == ms[i].team2;
    }
  }

  function MatchIds(ms: seq<MatchRecord>): (ids: seq<int>)
    ensures |ids| == |ms|
    ensures forall i :: 0 <= i < |ms| ==> ids[i] == ms[i].matchId
  {
    if |ms| == 0 then [] else MatchIds(ms[..|ms| - 1]) + [ms[|ms| - 1].matchId]
  }

  /** The "Total Matches" figure: the number of distinct match ids. */
  function TotalMatches(ms: seq<MatchRecord>): nat
  {
    |Unique(MatchIds(ms))|
  }

  /** Distinct ids are never more than rows, and exactly as many when ids are unique. */
  lemma TotalMatchesBounds(ms: seq<MatchRecord>)
    ensures TotalMatches(ms) <= |ms|
    ensures NoDuplicates(MatchIds(ms)) ==> TotalMatches(ms) == |ms|
  {
    var ids := MatchIds(ms);
    var u := Unique(ids);
    UniqueLength(ids);
  }

  lemma {:induction false} UniqueLength<T(!new)>(xs: seq<T>)
    ensures |Unique(xs)| <= |xs|
    ensures NoDuplicates(xs) ==> |Unique(xs)| == |xs|
  {
    if |xs| > 0 {
      UniqueLength(xs[..|xs| - 1]);
    }
  }
}
