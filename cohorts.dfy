/**
 * `proposals_score` (and the Top 10% column of `health_check`): per challenge,
 * the valid proposals sorted by Rating Given in descending order, the mean rating
 * of the top-k cohort for two cohort sizes, and the highest and lowest rating.
 * Means are exact reals; the cohort size is a function of the group size.
 */
module Cohorts {
  import opened Wrappers
  import opened Sequences
  import opened Rows
  import opened Withdrawals
  import opened Grouping

  predicate SortedByRatingDesc(s: seq<ScoreRow>) {
    forall i, j :: 0 <= i < j < |s| ==> s[i].rating >= s[j].rating
  }

  function InsertByRating(x: ScoreRow, s: seq<ScoreRow>): (r: seq<ScoreRow>)
    requires SortedByRatingDesc(s)
    ensures |r| == |s| + 1
    ensures r[0] == x || (|s| > 0 && r[0] == s[0])
    ensures SortedByRatingDesc(r)
    ensures multiset(r) == multiset(s) + multiset{x}
  {
    if s == [] || x.rating >= s[0].rating then [x] + s
    else
      assert s == [s[0]] + s[1..];
      [s[0]] + InsertByRating(x, s[1..])
  }

  /** `sort_values(by='Rating Given', ascending=False)`. */
  function SortByRatingDesc(s: seq<ScoreRow>): (r: seq<ScoreRow>)
    ensures |r| == |s|
    ensures SortedByRatingDesc(r)
    ensures multiset(r) == multiset(s)
  {
    if s == [] then []
    else
      assert s == [s[0]] + s[1..];
      InsertByRating(s[0], SortByRatingDesc(s[1..]))
  }

  /** `.head(k)` of the sorted group: the k best-rated proposals. */
  function Cohort(group: seq<ScoreRow>, k: nat): (c: seq<ScoreRow>)
    requires k <= |group|
    ensures |c| == k
  {
    SortByRatingDesc(group)[..k]
  }

  /**
   * The cohort is drawn from the group, and no proposal left out of it has a higher
   * rating than a proposal in it.
   */
  lemma CohortSeparates(group: seq<ScoreRow>, k: nat)
    requires k <= |group|
    ensures multiset(Cohort(group, k)) <= multiset(group)
    ensures forall x, y :: x in Cohort(group, k) && y in multiset(group) - multiset(Cohort(group, k)) ==>
                           x.rating >= y.rating
  {
    var sorted := SortByRatingDesc(group);
    assert sorted == sorted[..k] + sorted[k..];
    assert multiset(group) == multiset(sorted[..k]) + multiset(sorted[k..]);
    forall x, y | x in Cohort(group, k) && y in multiset(group) - multiset(Cohort(group, k))
      ensures x.rating >= y.rating
    {
      assert y in sorted[k..];
      var i :| 0 <= i < k && sorted[i] == x;
      var j :| 0 <= j < |sorted| - k && sorted[k..][j] == y;
      assert sorted[k + j] == y;
    }
  }

  /** Every member of a cohort is a row of the group. */
  lemma CohortFromGroup(group: seq<ScoreRow>, k: nat)
    requires k <= |group|
    ensures forall i :: 0 <= i < k ==> Cohort(group, k)[i] in group
  {
    var sorted := SortByRatingDesc(group);
    forall i | 0 <= i < k ensures Cohort(group, k)[i] in group {
      assert sorted[i] in multiset(sorted);
    }
  }

  /** A smaller cohort is a prefix of a larger one (the 10% cohort of the 20% cohort). */
  lemma CohortNested(group: seq<ScoreRow>, k1: nat, k2: nat)
    requires k1 <= k2 <= |group|
    ensures Cohort(group, k1) == Cohort(group, k2)[..k1]
  {
  }

  function SumRatings(s: seq<ScoreRow>): real {
    if s == [] then 0.0 else s[0].rating + SumRatings(s[1..])
  }

  /** The exact mean rating; None for an empty cohort (pandas gives no value for it). */
  function MeanRating(s: seq<ScoreRow>): Option<real> {
    if s == [] then None else Some(SumRatings(s) / |s| as real)
  }

  lemma {:induction false} SumAppend(a: seq<ScoreRow>, b: seq<ScoreRow>)
    ensures SumRatings(a + b) == SumRatings(a) + SumRatings(b)
  {
    if a == [] {
      assert a + b == b;
    } else {
      assert (a + b)[1..] == a[1..] + b;
      SumAppend(a[1..], b);
    }
  }

  /** n copies of b added up; kept apart from multiplication so that sums stay linear. */
  function Times(n: nat, b: real): real {
    if n == 0 then 0.0 else b + Times(n - 1, b)
  }

  lemma {:induction false} TimesIsProduct(n: nat, b: real)
    ensures Times(n, b) == n as real * b
  {
    if n > 0 {
      TimesIsProduct(n - 1, b);
    }
  }

  lemma {:induction false} SumAtMost(s: seq<ScoreRow>, bound: real)
    requires forall i :: 0 <= i < |s| ==> s[i].rating <= bound
    ensures SumRatings(s) <= Times(|s|, bound)
  {
    if s != [] {
      SumAtMost(s[1..], bound);
    }
  }

  lemma {:induction false} SumAtLeast(s: seq<ScoreRow>, bound: real)
    requires forall i :: 0 <= i < |s| ==> s[i].rating >= bound
    ensures SumRatings(s) >= Times(|s|, bound)
  {
    if s != [] {
      SumAtLeast(s[1..], bound);
    }
  }

  /** a / n <= b / m follows from m * a <= n * b for positive n and m. */
  lemma QuotientOrder(a: real, b: real, n: real, m: real)
    requires n > 0.0 && m > 0.0
    requires m * a <= n * b
    ensures a / n <= b / m
  {
    var qa, qb := a / n, b / m;
    assert a == qa * n;
    assert b == qb * m;
    assert m * n * qa <= n * m * qb;
  }

  lemma ScaleOrder(c: real, x: real, y: real)
    requires c >= 0.0 && x <= y
    ensures c * x <= c * y
  {
  }

  /**
   * Extending n1 ratings summing to s1, each at least m, by d ratings summing to e,
   * each at most m, does not raise the mean.
   */
  lemma ExtensionMeanReal(s1: real, e: real, n1: real, d: real, m: real)
    requires 0.0 < n1 && 0.0 <= d
    requires n1 * m <= s1 && e <= d * m
    ensures (s1 + e) / (n1 + d) <= s1 / n1
  {
    var n2 := n1 + d;
    ScaleOrder(n1, e, d * m);
    ScaleOrder(d, n1 * m, s1);
    assert n1 * (d * m) == d * (n1 * m);
    assert n1 * (s1 + e) <= n2 * s1;
    QuotientOrder(s1 + e, s1, n2, n1);
  }

  /** The same step for whole counts k1 <= k2, with the bounds written as repeated sums. */
  lemma ExtensionMean(s1: real, e: real, k1: nat, k2: nat, m: real)
    requires 0 < k1 <= k2
    requires Times(k1, m) <= s1 && e <= Times(k2 - k1, m)
    ensures (s1 + e) / (k2 as real) <= s1 / (k1 as real)
  {
    TimesIsProduct(k1, m);
    TimesIsProduct(k2 - k1, m);
    ExtensionMeanReal(s1, e, k1 as real, (k2 - k1) as real, m);
    assert k2 as real == k1 as real + (k2 - k1) as real;
  }

  /** Rating of the last row of the top-k cohort. */
  function CutRating(group: seq<ScoreRow>, k: nat): real
    requires 0 < k <= |group|
  {
    SortByRatingDesc(group)[k - 1].rating
  }

  /** Every row of a cohort is rated at least its cut rating. */
  lemma CohortAboveCut(group: seq<ScoreRow>, k: nat)
    requires 0 < k <= |group|
    ensures Times(k, CutRating(group, k)) <= SumRatings(Cohort(group, k))
  {
    var c := Cohort(group, k);
    assert forall i :: 0 <= i < |c| ==> c[i].rating >= CutRating(group, k);
    SumAtLeast(c, CutRating(group, k));
  }

  /** In a sorted list, the rows between positions k1 and k2 are rated at most the row at k1 - 1. */
  lemma SortedExtraBelow(sorted: seq<ScoreRow>, k1: nat, k2: nat)
    requires SortedByRatingDesc(sorted)
    requires 0 < k1 <= k2 <= |sorted|
    ensures SumRatings(sorted[..k2]) - SumRatings(sorted[..k1]) <= Times(k2 - k1, sorted[k1 - 1].rating)
  {
    var extra := sorted[k1..k2];
    assert sorted[..k2] == sorted[..k1] + extra;
    forall i | 0 <= i < |extra| ensures extra[i].rating <= sorted[k1 - 1].rating {
      assert extra[i] == sorted[k1 + i];
    }
    SumAppend(sorted[..k1], extra);
    SumAtMost(extra, sorted[k1 - 1].rating);
  }

  /** The rows a larger cohort adds are rated at most the smaller cohort's cut rating. */
  lemma ExtraBelowCut(group: seq<ScoreRow>, k1: nat, k2: nat)
    requires 0 < k1 <= k2 <= |group|
    ensures SumRatings(Cohort(group, k2)) - SumRatings(Cohort(group, k1)) <= Times(k2 - k1, CutRating(group, k1))
  {
    SortedExtraBelow(SortByRatingDesc(group), k1, k2);
  }

  /** The mean rating of a larger top-k cohort is never above that of a smaller one. */
  lemma CohortMeanMonotone(group: seq<ScoreRow>, k1: nat, k2: nat)
    requires 0 < k1 <= k2 <= |group|
    ensures MeanRating(Cohort(group, k2)).value <= MeanRating(Cohort(group, k1)).value
  {
    CohortAboveCut(group, k1);
    ExtraBelowCut(group, k1, k2);
    var s1, s2 := SumRatings(Cohort(group, k1)), SumRatings(Cohort(group, k2));
    ExtensionMean(s1, s2 - s1, k1, k2, CutRating(group, k1));
  }

  lemma MeanAtMost(s: seq<ScoreRow>, bound: real)
    requires |s| > 0
    requires forall i :: 0 <= i < |s| ==> s[i].rating <= bound
    ensures MeanRating(s).value <= bound
  {
    SumAtMost(s, bound);
    TimesIsProduct(|s|, bound);
    QuotientOrder(SumRatings(s), bound, |s| as real, 1.0);
  }

  lemma MeanAtLeast(s: seq<ScoreRow>, bound: real)
    requires |s| > 0
    requires forall i :: 0 <= i < |s| ==> s[i].rating >= bound
    ensures MeanRating(s).value >= bound
  {
    SumAtLeast(s, bound);
    TimesIsProduct(|s|, bound);
    QuotientOrder(bound, SumRatings(s), 1.0, |s| as real);
  }

  function MaxRating(s: seq<ScoreRow>): (m: real)
    requires |s| > 0
    ensures forall i :: 0 <= i < |s| ==> s[i].rating <= m
    ensures exists i :: 0 <= i < |s| && s[i].rating == m
  {
    if |s| == 1 then s[0].rating
    else
      var rest := MaxRating(s[1..]);
      if s[0].rating >= rest then s[0].rating else rest
  }

  function MinRating(s: seq<ScoreRow>): (m: real)
    requires |s| > 0
    ensures forall i :: 0 <= i < |s| ==> s[i].rating >= m
    ensures exists i :: 0 <= i < |s| && s[i].rating == m
  {
    if |s| == 1 then s[0].rating
    else
      var rest := MinRating(s[1..]);
      if s[0].rating <= rest then s[0].rating else rest
  }

  /** The mean of any non-empty cohort lies between the group's lowest and highest rating. */
  lemma CohortMeanWithinRange(group: seq<ScoreRow>, k: nat)
    requires 0 < k <= |group|
    ensures MinRating(group) <= MeanRating(Cohort(group, k)).value <= MaxRating(group)
  {
    var c := Cohort(group, k);
    var hi, lo := MaxRating(group), MinRating(group);
    CohortFromGroup(group, k);
    forall i | 0 <= i < |c| ensures lo <= c[i].rating <= hi {
      var j :| 0 <= j < |group| && group[j] == c[i];
    }
    MeanAtMost(c, hi);
    MeanAtLeast(c, lo);
  }

  predicate InChallenge(challenge: string, r: ScoreRow) {
    r.challenge == challenge
  }

  /** The valid proposals of one challenge, in file order. */
  function ChallengeGroup(rows: seq<ScoreRow>, withdrawals: seq<int>, challenge: string): seq<ScoreRow> {
    Filter(WithoutWithdrawn(rows, ScoreRowId, withdrawals), r => InChallenge(challenge, r))
  }

  /** A challenge group holds exactly the rows of that challenge that are not withdrawn. */
  lemma ChallengeGroupMembers(rows: seq<ScoreRow>, withdrawals: seq<int>, challenge: string)
    ensures var group := ChallengeGroup(rows, withdrawals, challenge);
            (forall i :: 0 <= i < |group| ==>
               group[i] in rows && group[i].challenge == challenge && group[i].proposalId !in withdrawals) &&
            (forall j :: 0 <= j < |rows| && rows[j].challenge == challenge && rows[j].proposalId !in withdrawals ==>
               rows[j] in group)
  {
    var valid := WithoutWithdrawn(rows, ScoreRowId, withdrawals);
    var group := ChallengeGroup(rows, withdrawals, challenge);
    forall i | 0 <= i < |group|
      ensures group[i] in rows && group[i].challenge == challenge && group[i].proposalId !in withdrawals
    {
      var j :| 0 <= j < |valid| && valid[j] == group[i];
    }
    forall j | 0 <= j < |rows| && rows[j].challenge == challenge && rows[j].proposalId !in withdrawals
      ensures rows[j] in group
    {
      var i :| 0 <= i < |valid| && valid[i] == rows[j];
    }
  }

  /** One challenge's column of the `proposals_score` report. */
  datatype ScoreSummary = ScoreSummary(top10: Option<real>, top20: Option<real>, highest: real, lowest: real)

  /**
   * `proposals_score` for one challenge: None when it has no column. The report's index is
   * that of the Top 10% series, which holds only the challenges whose 10% cohort is not empty,
   * so a challenge without valid proposals, or whose 10% cohort size is 0, has no column.
   * Otherwise the means of the two cohorts and the highest and lowest rating.
   */
  function ProposalsScore(rows: seq<ScoreRow>, withdrawals: seq<int>, challenge: string,
                          tenPercent: nat -> nat, twentyPercent: nat -> nat): (r: Option<ScoreSummary>)
    requires forall n: nat :: tenPercent(n) <= n && twentyPercent(n) <= n
    ensures r.None? <==> tenPercent(|ChallengeGroup(rows, withdrawals, challenge)|) == 0 ||
                         forall j :: 0 <= j < |rows| && rows[j].challenge == challenge ==>
                                     rows[j].proposalId in withdrawals
    ensures r.Some? ==> r.value.top10.Some?
    ensures r.Some? ==> var group := ChallengeGroup(rows, withdrawals, challenge);
                        r.value.top10 == MeanRating(Cohort(group, tenPercent(|group|))) &&
                        r.value.top20 == MeanRating(Cohort(group, twentyPercent(|group|)))
    ensures r.Some? ==> forall j :: 0 <= j < |rows| && rows[j].challenge == challenge &&
                                    rows[j].proposalId !in withdrawals ==>
                                      r.value.lowest <= rows[j].rating <= r.value.highest
    ensures r.Some? ==> exists j :: 0 <= j < |rows| && rows[j].challenge == challenge &&
                                    rows[j].proposalId !in withdrawals && rows[j].rating == r.value.highest
    ensures r.Some? ==> exists j :: 0 <= j < |rows| && rows[j].challenge == challenge &&
                                    rows[j].proposalId !in withdrawals && rows[j].rating == r.value.lowest
  {
    var group := ChallengeGroup(rows, withdrawals, challenge);
    ChallengeGroupMembers(rows, withdrawals, challenge);
    var n := |group|;
    if group == [] || tenPercent(n) == 0 then None
    else
      Some(ScoreSummary(MeanRating(Cohort(group, tenPercent(n))), MeanRating(Cohort(group, twentyPercent(n))),
                        MaxRating(group), MinRating(group)))
  }

  /**
   * When a challenge has a column and its 10% cohort is not larger than its 20% one, the
   * Top 20% mean is at most the Top 10% mean, and both lie between the lowest and the highest rating.
   */
  lemma TopMeansOrdered(rows: seq<ScoreRow>, withdrawals: seq<int>, challenge: string,
                        tenPercent: nat -> nat, twentyPercent: nat -> nat)
    requires forall n: nat :: tenPercent(n) <= n && twentyPercent(n) <= n
    requires var n := |ChallengeGroup(rows, withdrawals, challenge)|; tenPercent(n) <= twentyPercent(n)
    ensures var r := ProposalsScore(rows, withdrawals, challenge, tenPercent, twentyPercent);
            r.Some? ==> r.value.top10.Some? && r.value.top20.Some? &&
                        r.value.lowest <= r.value.top20.value <= r.value.top10.value <= r.value.highest
  {
    var group := ChallengeGroup(rows, withdrawals, challenge);
    var n := |group|;
    if group != [] && tenPercent(n) != 0 {
      CohortMeanMonotone(group, tenPercent(n), twentyPercent(n));
      CohortMeanWithinRange(group, tenPercent(n));
      CohortMeanWithinRange(group, twentyPercent(n));
    }
  }

  /** The Challenge column of the proposals left after the withdrawal filter. */
  function ValidScoreChallenges(rows: seq<ScoreRow>, withdrawals: seq<int>): (column: seq<string>)
    ensures forall t :: t in column <==>
              exists j :: 0 <= j < |rows| && rows[j].challenge == t && rows[j].proposalId !in withdrawals
  {
    var valid := WithoutWithdrawn(rows, ScoreRowId, withdrawals);
    var column := seq(|valid|, j requires 0 <= j < |valid| => valid[j].challenge);
    forall t | t in column
      ensures exists j :: 0 <= j < |rows| && rows[j].challenge == t && rows[j].proposalId !in withdrawals
    {
      var i :| 0 <= i < |column| && column[i] == t;
      var j :| 0 <= j < |rows| && rows[j] == valid[i];
    }
    forall j | 0 <= j < |rows| && rows[j].proposalId !in withdrawals
      ensures rows[j].challenge in column
    {
      var i :| 0 <= i < |valid| && valid[i] == rows[j];
      assert column[i] == rows[j].challenge;
    }
    column
  }

  /**
   * The `proposals_score` report: one column per challenge that has one, titled by the
   * challenge, in the ascending order of the `groupby('Challenge')` keys.
   */
  function ProposalsScoreReport(rows: seq<ScoreRow>, withdrawals: seq<int>,
                                tenPercent: nat -> nat, twentyPercent: nat -> nat)
    : (report: seq<(string, ScoreSummary)>)
    requires forall n: nat :: tenPercent(n) <= n && twentyPercent(n) <= n
    ensures Ascending(ColumnTitles(report))
    ensures forall c :: c in report <==> ProposalsScore(rows, withdrawals, c.0, tenPercent, twentyPercent) == Some(c.1)
  {
    var keys := GroupKeys(ValidScoreChallenges(rows, withdrawals));
    forall t | ProposalsScore(rows, withdrawals, t, tenPercent, twentyPercent).Some? ensures t in keys {
      var j :| 0 <= j < |rows| && rows[j].challenge == t && rows[j].proposalId !in withdrawals;
    }
    Columns(keys, t => ProposalsScore(rows, withdrawals, t, tenPercent, twentyPercent))
  }
}
