/** The runs overview: a derived per-match total and the season's run tally. */
module Runs {
  import opened Records
  import opened Collections

  /** The derived `total_score_per_match` cell of one row. */
  function TotalScore(m: MatchRecord): nat
  {
    m.firstInningsScore + m.secondInningsScore
  }

  /** The derived `total_score_per_match` column, row for row. */
  function TotalScoreColumn(ms: seq<MatchRecord>): (col: seq<nat>)
    ensures |col| == |ms|
    ensures forall i :: 0 <= i < |ms| ==> col[i] == TotalScore(ms[i])
  {
    if |ms| == 0 then [] else TotalScoreColumn(ms[..|ms| - 1]) + [TotalScore(ms[|ms| - 1])]
  }

  /** The "Total Runs Scored" figure: the sum of the derived column. */
  function TotalRuns(ms: seq<MatchRecord>): nat
  {
    Sum(TotalScoreColumn(ms))
  }

  /** Runs scored batting first, over all matches. */
  function FirstInningsRuns(ms: seq<MatchRecord>): nat
  {
    if |ms| == 0 then 0 else FirstInningsRuns(ms[..|ms| - 1]) + ms[|ms| - 1].firstInningsScore
  }

  /** Runs scored batting second, over all matches. */
  function SecondInningsRuns(ms: seq<MatchRecord>): nat
  {
    if |ms| == 0 then 0 else SecondInningsRuns(ms[..|ms| - 1]) + ms[|ms| - 1].secondInningsScore
  }

  /** The season total counts every run of both innings of every match exactly once. */
  lemma {:induction false} TotalRunsByInnings(ms: seq<MatchRecord>)
    ensures TotalRuns(ms) == FirstInningsRuns(ms) + SecondInningsRuns(ms)
  {
    if |ms| > 0 {
      var init := ms[..|ms| - 1];
      TotalRunsByInnings(init);
      var col := TotalScoreColumn(ms);
      assert col[..|col| - 1] == TotalScoreColumn(init);
    }
  }

  lemma {:induction false} TotalRunsAppend(a: seq<MatchRecord>, b: seq<MatchRecord>)
    ensures TotalRuns(a + b) == TotalRuns(a) + TotalRuns(b)
  {
    TotalRunsByInnings(a + b);
    TotalRunsByInnings(a);
    TotalRunsByInnings(b);
    InningsRunsAppend(a, b);
  }

  lemma {:induction false} InningsRunsAppend(a: seq<MatchRecord>, b: seq<MatchRecord>)
    ensures FirstInningsRuns(a + b) == FirstInningsRuns(a) + FirstInningsRuns(b)
    ensures SecondInningsRuns(a + b) == SecondInningsRuns(a) + SecondInningsRuns(b)
    decreases |b|
  {
    if |b| == 0 {
      assert a + b == a;
    } else {
      assert (a + b)[..|a + b| - 1] == a + b[..|b| - 1];
      InningsRunsAppend(a, b[..|b| - 1]);
    }
  }

  /** No single match scores more than the season total. */
  lemma MatchWithinTotal(ms: seq<MatchRecord>, i: nat)
    requires i < |ms|
    ensures TotalScore(ms[i]) <= TotalRuns(ms)
  {
    assert ms == ms[..i] + [ms[i]] + ms[i + 1..];
    TotalRunsAppend(ms[..i] + [ms[i]], ms[i + 1..]);
    TotalRunsAppend(ms[..i], [ms[i]]);
    assert TotalScoreColumn([ms[i]]) == [TotalScore(ms[i])];
  }
}
