/** The best-economy leaderboard: bowlers ordered by economy rate, lowest
    first, cut to the first ten. */
module Economy {
  import opened Records

  /** How many bowlers the leaderboard shows. */
  const LeaderboardSize: nat := 10

  predicate Ascending(bs: seq<Bowler>)
  {
    forall i, j :: 0 <= i < j < |bs| ==> bs[i].economy <= bs[j].economy
  }

  /** Places `b` into an ascending list, ahead of every bowler with an equal or higher rate. */
  function InsertByEconomy(b: Bowler, bs: seq<Bowler>): (r: seq<Bowler>)
    requires Ascending(bs)
    ensures |r| == |bs| + 1
    ensures r[0] == b || (|bs| > 0 && r[0] == bs[0])
    ensures Ascending(r)
    ensures multiset(r) == multiset(bs) + multiset{b}
  {
    if |bs| == 0 || b.economy <= bs[0].economy then [b] + bs
    else
      assert bs == [bs[0]] + bs[1..];
      var rest := InsertByEconomy(b, bs[1..]);
      assert bs[0].economy <= rest[0].economy;
      [bs[0]] + rest
  }

  /** The bowler table ordered by economy rate, lowest first. */
  function SortByEconomy(bs: seq<Bowler>): (r: seq<Bowler>)
    ensures |r| == |bs|
    ensures Ascending(r)
    ensures multiset(r) == multiset(bs)
  {
    if |bs| == 0 then []
    else
      assert bs == [bs[0]] + bs[1..];
      InsertByEconomy(bs[0], SortByEconomy(bs[1..]))
  }

  /** The leaderboard: the ten most economical bowlers, best first (all of
      them when there are fewer than ten). No bowler left out has a lower
      rate than one shown. */
  function BestEconomy(bs: seq<Bowler>): (r: seq<Bowler>)
    ensures |r| == if |bs| < LeaderboardSize then |bs| else LeaderboardSize
    ensures multiset(r) <= multiset(bs)
    ensures Ascending(r)
    ensures forall b, i :: b in multiset(bs) - multiset(r) && 0 <= i < |r| ==> r[i].economy <= b.economy
  {
    var sorted := SortByEconomy(bs);
    var n := if |bs| < LeaderboardSize then |bs| else LeaderboardSize;
    PrefixIsBest(bs, sorted, n);
    sorted[..n]
  }

  /** In an ascending list every element of a prefix is at most every element outside it. */
  lemma PrefixIsBest(bs: seq<Bowler>, sorted: seq<Bowler>, n: nat)
    requires Ascending(sorted) && multiset(sorted) == multiset(bs) && n <= |sorted|
    ensures |sorted[..n]| == n
    ensures multiset(sorted[..n]) <= multiset(bs)
    ensures Ascending(sorted[..n])
    ensures forall b, i :: b in multiset(bs) - multiset(sorted[..n]) && 0 <= i < n ==>
      sorted[..n][i].economy <= b.economy
  {
    assert sorted == sorted[..n] + sorted[n..];
    assert multiset(sorted) == multiset(sorted[..n]) + multiset(sorted[n..]);
    assert multiset(bs) - multiset(sorted[..n]) == multiset(sorted[n..]);
    SuffixNotBelowPrefix(sorted, n);
  }

  /** In an ascending list no element past position `n` is below one before it. */
  lemma SuffixNotBelowPrefix(sorted: seq<Bowler>, n: nat)
    requires Ascending(sorted) && n <= |sorted|
    ensures forall b, i :: b in multiset(sorted[n..]) && 0 <= i < n ==> sorted[i].economy <= b.economy
  {
    forall b, i | b in multiset(sorted[n..]) && 0 <= i < n
      ensures sorted[i].economy <= b.economy
    {
      var k :| 0 <= k < |sorted[n..]| && sorted[n..][k] == b;
      assert sorted[n + k] == b;
    }
  }
}
