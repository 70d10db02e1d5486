/**
 * Stage statistics of campaigns: the label scans of `health_check` and
 * `innovation_baseline`, where each matching stat overwrites a counter that
 * lives across the loop over challenges (so the last match wins, a campaign
 * lacking a label inherits the previous campaign's value, and reading a counter
 * no campaign has set fails), and the label sums of `fund_stats`.
 */
module StageStats {
  import opened Wrappers
  import opened Sequences
  import opened Rows
  import opened Withdrawals
  import opened Grouping

  const InsightLabel := "Insight sharing reserve"
  const ArchiveLabel := "Archive"
  /** The governance label `health_check` looks for. */
  const GovernancePhaseLabel := "Governance phase"
  /** The governance label of `fund_stats`, and the default of `innovation_baseline`. */
  const AssessQaLabel := "Assess QA"

  /** What stops a report: a stage counter read before any scan set it, or a missing group. */
  datatype CommandError = UnboundStageCount(stage: string) | MissingGroup

  /** The ideaCount of the last stat carrying `stage`: what a scan that overwrites on every match leaves. */
  function LastCount(stage: string, stats: seq<StageStat>): Option<int> {
    if stats == [] then None
    else if stats[|stats| - 1].stage == stage then Some(stats[|stats| - 1].ideaCount)
    else LastCount(stage, stats[..|stats| - 1])
  }

  /** The counter is unbound exactly when no stat carries the label. */
  lemma {:induction false} LastCountAbsent(stage: string, stats: seq<StageStat>)
    ensures LastCount(stage, stats).None? <==> forall i :: 0 <= i < |stats| ==> stats[i].stage != stage
  {
    if stats != [] {
      var init := stats[..|stats| - 1];
      LastCountAbsent(stage, init);
      assert forall i :: 0 <= i < |init| ==> init[i] == stats[i];
    }
  }

  /** A bound counter holds the ideaCount of a stat carrying the label that no later stat carries. */
  lemma {:induction false} LastCountWitness(stage: string, stats: seq<StageStat>) returns (i: nat)
    requires LastCount(stage, stats).Some?
    ensures i < |stats| && stats[i].stage == stage && stats[i].ideaCount == LastCount(stage, stats).value
    ensures forall j :: i < j < |stats| ==> stats[j].stage != stage
  {
    var init := stats[..|stats| - 1];
    if stats[|stats| - 1].stage == stage {
      i := |stats| - 1;
    } else {
      i := LastCountWitness(stage, init);
      assert forall j :: i < j < |init| ==> init[j] == stats[j];
    }
  }

  /**
   * The counter is unbound exactly when no stat carries the label, and otherwise holds the
   * ideaCount of a stat carrying it with no later stat carrying it.
   */
  lemma LastCountMeaning(stage: string, stats: seq<StageStat>)
    ensures LastCount(stage, stats).None? <==> forall i :: 0 <= i < |stats| ==> stats[i].stage != stage
    ensures LastCount(stage, stats).Some? ==>
              exists i :: 0 <= i < |stats| && stats[i].stage == stage &&
                          stats[i].ideaCount == LastCount(stage, stats).value &&
                          forall j :: i < j < |stats| ==> stats[j].stage != stage
  {
    LastCountAbsent(stage, stats);
    if LastCount(stage, stats).Some? {
      var i := LastCountWitness(stage, stats);
    }
  }

  /** Scanning `a` then `b` leaves `b`'s last match if it has one, and `a`'s otherwise. */
  lemma {:induction false} LastCountAppend(stage: string, a: seq<StageStat>, b: seq<StageStat>)
    ensures LastCount(stage, a + b) == if LastCount(stage, b).Some? then LastCount(stage, b) else LastCount(stage, a)
  {
    if b == [] {
      assert a + b == a;
    } else {
      assert (a + b)[..|a + b| - 1] == a + b[..|b| - 1];
      LastCountAppend(stage, a, b[..|b| - 1]);
    }
  }

  /** Scanning one more stat overwrites the value exactly when it carries the label. */
  lemma LastCountSnoc(stage: string, s: seq<StageStat>, x: StageStat)
    ensures LastCount(stage, s + [x]) == if x.stage == stage then Some(x.ideaCount) else LastCount(stage, s)
  {
    assert (s + [x])[..|s|] == s;
  }

  /** The three counters of a scan; None while a counter is still unbound. */
  datatype StageCounts = StageCounts(insights: Option<int>, archive: Option<int>, governance: Option<int>)

  /** The counters after scanning `history` from the start of the command. */
  function CountsOf(history: seq<StageStat>, governanceStage: string): StageCounts {
    StageCounts(LastCount(InsightLabel, history), LastCount(ArchiveLabel, history), LastCount(governanceStage, history))
  }

  /**
   * The inner `for stat in stats` loop: three independent tests per stat, each overwriting
   * its counter. `history` is every stat scanned before, by earlier iterations of the outer loop.
   */
  method ScanStageStats(stats: seq<StageStat>, before: StageCounts, governanceStage: string,
                        ghost history: seq<StageStat>)
    returns (after: StageCounts)
    requires before == CountsOf(history, governanceStage)
    ensures after == CountsOf(history + stats, governanceStage)
  {
    var insights, archive, governance := before.insights, before.archive, before.governance;
    assert history + stats[..0] == history;
    var i := 0;
    while i < |stats|
      invariant 0 <= i <= |stats|
      invariant insights == LastCount(InsightLabel, history + stats[..i])
      invariant archive == LastCount(ArchiveLabel, history + stats[..i])
      invariant governance == LastCount(governanceStage, history + stats[..i])
    {
      var stat := stats[i];
      if stat.stage == InsightLabel {
        insights := Some(stat.ideaCount);
      }
      if stat.stage == ArchiveLabel {
        archive := Some(stat.ideaCount);
      }
      if stat.stage == governanceStage {
        governance := Some(stat.ideaCount);
      }
      ghost var scanned := history + stats[..i];
      assert history + stats[..i + 1] == scanned + [stat];
      LastCountSnoc(InsightLabel, scanned, stat);
      LastCountSnoc(ArchiveLabel, scanned, stat);
      LastCountSnoc(governanceStage, scanned, stat);
      i := i + 1;
    }
    assert stats[..|stats|] == stats;
    after := StageCounts(insights, archive, governance);
  }

  /** The counters a report row reads. */
  datatype ResolvedCounts = ResolvedCounts(insights: int, archive: int, governance: int)

  /**
   * Reading the counters as a row does: `archive_count + governance_count` first, then
   * `insights_count`; the first unbound one raises.
   */
  function Resolve(counts: StageCounts, governanceStage: string): (r: Result<ResolvedCounts, CommandError>)
    ensures r.Success? <==> counts.insights.Some? && counts.archive.Some? && counts.governance.Some?
    ensures r.Success? ==> r.value == ResolvedCounts(counts.insights.value, counts.archive.value, counts.governance.value)
    ensures counts.archive.None? ==> r == Failure(UnboundStageCount(ArchiveLabel))
    ensures counts.archive.Some? && counts.governance.None? ==> r == Failure(UnboundStageCount(governanceStage))
    ensures counts.archive.Some? && counts.governance.Some? && counts.insights.None? ==>
              r == Failure(UnboundStageCount(InsightLabel))
  {
    if counts.archive.None? then Failure(UnboundStageCount(ArchiveLabel))
    else if counts.governance.None? then Failure(UnboundStageCount(governanceStage))
    else if counts.insights.None? then Failure(UnboundStageCount(InsightLabel))
    else Success(ResolvedCounts(counts.insights.value, counts.archive.value, counts.governance.value))
  }

  // ----- health_check -----

  /** A challenge's Insights, Ideas, Proposals and Comments in the `health_check` report. */
  datatype HealthRow = HealthRow(insights: int, ideas: int, proposals: int, comments: int)

  /** The first challenges-map entry whose title equals `title`. */
  function MapEntry(challenges: seq<ChallengeRef>, title: string): Option<ChallengeRef> {
    FirstWhere(challenges, (c: ChallengeRef) => c.title == title)
  }

  /** The campaign document a report title leads to: that of its first map entry, if any. */
  function TitleCampaign(challenges: seq<ChallengeRef>, campaignById: int -> Campaign, title: string)
    : Option<Campaign>
  {
    match MapEntry(challenges, title)
    case None => None
    case Some(c) => Some(campaignById(c.id))
  }

  /** The campaign document of every report title, in order. */
  function TitleCampaigns(titles: seq<string>, challenges: seq<ChallengeRef>, campaignById: int -> Campaign)
    : (looked: seq<Option<Campaign>>)
    ensures |looked| == |titles|
  {
    if titles == [] then []
    else
      TitleCampaigns(titles[..|titles| - 1], challenges, campaignById) +
      [TitleCampaign(challenges, campaignById, titles[|titles| - 1])]
  }

  /** Entry i of TitleCampaigns is the campaign title i leads to. */
  lemma {:induction false} TitleCampaignAt(titles: seq<string>, challenges: seq<ChallengeRef>,
                                           campaignById: int -> Campaign, i: nat)
    requires i < |titles|
    ensures TitleCampaigns(titles, challenges, campaignById)[i] == TitleCampaign(challenges, campaignById, titles[i])
  {
    if i < |titles| - 1 {
      TitleCampaignAt(titles[..|titles| - 1], challenges, campaignById, i);
    }
  }

  /** Stage statistics scanned for the first n report rows, in scan order. */
  function HealthHistory(looked: seq<Option<Campaign>>, n: nat): seq<StageStat>
    requires n <= |looked|
  {
    if n == 0 then []
    else
      HealthHistory(looked, n - 1) +
      match looked[n - 1]
      case None => []
      case Some(campaign) => campaign.stageStatistics
  }

  /**
   * What report row i should hold: zeros for a title without a campaign, and otherwise the
   * counters after scanning its campaign (or the error reading them raises) and its comment count.
   */
  function ExpectedHealthRow(looked: seq<Option<Campaign>>, i: nat): Result<HealthRow, CommandError>
    requires i < |looked|
  {
    match looked[i]
    case None => Success(HealthRow(0, 0, 0, 0))
    case Some(campaign) =>
      match Resolve(CountsOf(HealthHistory(looked, i + 1), GovernancePhaseLabel), GovernancePhaseLabel)
      case Failure(e) => Failure(e)
      case Success(k) => Success(HealthRow(k.insights, k.archive + k.governance, k.governance, campaign.commentCount))
  }

  /** The rows report title by title calls for. */
  function HealthRows(looked: seq<Option<Campaign>>): (rows: seq<Result<HealthRow, CommandError>>)
    ensures |rows| == |looked|
    ensures forall i :: 0 <= i < |looked| ==> rows[i] == ExpectedHealthRow(looked, i)
  {
    seq(|looked|, i requires 0 <= i < |looked| => ExpectedHealthRow(looked, i))
  }

  /**
   * One iteration of the `health_check` loop: the row for title i and the counters after it.
   * `looked` is the campaign of every title, which the loop looks up one title at a time.
   */
  method HealthCheckRow(title: string, challenges: seq<ChallengeRef>, campaignById: int -> Campaign,
                        ghost looked: seq<Option<Campaign>>, i: nat, counts: StageCounts)
    returns (next: StageCounts, row: Result<HealthRow, CommandError>)
    requires i < |looked| && looked[i] == TitleCampaign(challenges, campaignById, title)
    requires counts == CountsOf(HealthHistory(looked, i), GovernancePhaseLabel)
    ensures next == CountsOf(HealthHistory(looked, i + 1), GovernancePhaseLabel)
    ensures row == ExpectedHealthRow(looked, i)
  {
    ghost var history := HealthHistory(looked, i);
    next := counts;
    var challenge := MapEntry(challenges, title);
    if challenge.None? {
      assert history == HealthHistory(looked, i + 1);
      return next, Success(HealthRow(0, 0, 0, 0));
    }
    var campaign := campaignById(challenge.value.id);
    next := ScanStageStats(campaign.stageStatistics, counts, GovernancePhaseLabel, history);
    assert history + campaign.stageStatistics == HealthHistory(looked, i + 1);
    var resolved := Resolve(next, GovernancePhaseLabel);
    if resolved.Failure? {
      return next, Failure(resolved.error);
    }
    var k := resolved.value;
    row := Success(HealthRow(k.insights, k.archive + k.governance, k.governance, campaign.commentCount));
  }

  /** The Challenge column of the assessments left after the withdrawal filter. */
  function ValidChallenges(assessments: seq<Assessment>, withdrawals: seq<int>): (column: seq<string>)
    ensures forall t :: t in column <==>
              exists j :: 0 <= j < |assessments| && assessments[j].challenge == t &&
                          assessments[j].proposalId !in withdrawals
  {
    var valid := WithoutWithdrawn(assessments, AssessmentId, withdrawals);
    var column := seq(|valid|, j requires 0 <= j < |valid| => valid[j].challenge);
    forall t | t in column
      ensures exists j :: 0 <= j < |assessments| && assessments[j].challenge == t &&
                          assessments[j].proposalId !in withdrawals
    {
      var i :| 0 <= i < |column| && column[i] == t;
      var j :| 0 <= j < |assessments| && assessments[j] == valid[i];
    }
    forall j | 0 <= j < |assessments| && assessments[j].proposalId !in withdrawals
      ensures assessments[j].challenge in column
    {
      var i :| 0 <= i < |valid| && valid[i] == assessments[j];
      assert column[i] == assessments[j].challenge;
    }
    column
  }

  /**
   * The titles of the `health_check` report: the group keys of the Challenge column of the
   * assessments left after the withdrawal filter, each once and in ascending order.
   */
  function ReportTitles(assessments: seq<Assessment>, withdrawals: seq<int>): (titles: seq<string>)
    ensures Ascending(titles)
    ensures forall t :: t in titles <==>
              exists j :: 0 <= j < |assessments| && assessments[j].challenge == t &&
                          assessments[j].proposalId !in withdrawals
  {
    GroupKeys(ValidChallenges(assessments, withdrawals))
  }

  /** Any ascending list of exactly those titles is the report's list of titles. */
  lemma ReportTitlesDetermined(assessments: seq<Assessment>, withdrawals: seq<int>, titles: seq<string>)
    requires Ascending(titles)
    requires forall t :: t in titles <==>
               exists j :: 0 <= j < |assessments| && assessments[j].challenge == t &&
                           assessments[j].proposalId !in withdrawals
    ensures titles == ReportTitles(assessments, withdrawals)
  {
    AscendingUnique(titles, ReportTitles(assessments, withdrawals));
  }

  /**
   * The loop of `health_check` over the report's challenge titles: a title with a map entry
   * fetches its campaign and scans its stage statistics into the carried counters.
   */
  method HealthCheck(assessments: seq<Assessment>, withdrawals: seq<int>, challenges: seq<ChallengeRef>,
                     campaignById: int -> Campaign)
    returns (result: Result<seq<HealthRow>, CommandError>)
    ensures result == Collect(HealthRows(TitleCampaigns(ReportTitles(assessments, withdrawals),
                                                        challenges, campaignById)))
  {
    var titles := ReportTitles(assessments, withdrawals);
    ghost var looked := TitleCampaigns(titles, challenges, campaignById);
    ghost var expected := HealthRows(looked);
    var rows: seq<HealthRow> := [];
    var counts := StageCounts(None, None, None);
    var i := 0;
    while i < |titles|
      invariant 0 <= i <= |titles|
      invariant counts == CountsOf(HealthHistory(looked, i), GovernancePhaseLabel)
      invariant Collect(expected[..i]) == Success(rows)
    {
      var row;
      TitleCampaignAt(titles, challenges, campaignById, i);
      counts, row := HealthCheckRow(titles[i], challenges, campaignById, looked, i, counts);
      CollectSnoc(expected, i);
      if row.Failure? {
        CollectStopsAtFailure(expected, i + 1);
        return Failure(row.error);
      }
      rows := rows + [row.value];
      i := i + 1;
    }
    assert expected[..i] == expected;
    return Success(rows);
  }

  /**
   * Carry-over: after a title with a campaign, each counter holds that campaign's own last
   * value for its label if it has one, and otherwise the value from before.
   */
  lemma HealthCarryOver(looked: seq<Option<Campaign>>, i: nat, stage: string)
    requires i < |looked| && looked[i].Some?
    ensures var stats := looked[i].value.stageStatistics;
            LastCount(stage, HealthHistory(looked, i + 1)) ==
              if LastCount(stage, stats).Some? then LastCount(stage, stats)
              else LastCount(stage, HealthHistory(looked, i))
  {
    LastCountAppend(stage, HealthHistory(looked, i), looked[i].value.stageStatistics);
  }

  // ----- fund_stats -----

  /** Sum of ideaCount over the stats carrying `stage`. */
  function SumCount(stage: string, stats: seq<StageStat>): int {
    if stats == [] then 0
    else SumCount(stage, stats[..|stats| - 1]) +
         (if stats[|stats| - 1].stage == stage then stats[|stats| - 1].ideaCount else 0)
  }

  lemma {:induction false} SumCountAppend(stage: string, a: seq<StageStat>, b: seq<StageStat>)
    ensures SumCount(stage, a + b) == SumCount(stage, a) + SumCount(stage, b)
  {
    if b == [] {
      assert a + b == a;
    } else {
      assert (a + b)[..|a + b| - 1] == a + b[..|b| - 1];
      SumCountAppend(stage, a, b[..|b| - 1]);
    }
  }

  lemma {:induction false} SumCountAbsent(stage: string, stats: seq<StageStat>)
    requires forall i :: 0 <= i < |stats| ==> stats[i].stage != stage
    ensures SumCount(stage, stats) == 0
  {
    if stats != [] {
      SumCountAbsent(stage, stats[..|stats| - 1]);
    }
  }

  /**
   * Summing and last-wins agree exactly when the label is carried by a single stat;
   * with duplicates `fund_stats` adds them all up.
   */
  lemma SumCountSingle(stage: string, stats: seq<StageStat>, k: nat)
    requires k < |stats| && stats[k].stage == stage
    requires forall i :: 0 <= i < |stats| && i != k ==> stats[i].stage != stage
    ensures SumCount(stage, stats) == stats[k].ideaCount
    ensures LastCount(stage, stats) == Some(stats[k].ideaCount)
  {
    var before, after := stats[..k], stats[k + 1..];
    assert stats == before + [stats[k]] + after;
    SumCountAppend(stage, before + [stats[k]], after);
    SumCountAppend(stage, before, [stats[k]]);
    SumCountAbsent(stage, before);
    SumCountAbsent(stage, after);
    assert [stats[k]][..0] == [];
    LastCountAppend(stage, before + [stats[k]], after);
    LastCountAbsent(stage, after);
    LastCountSnoc(stage, before, stats[k]);
  }

  /** Adding one more stat adds its ideaCount exactly when it carries the label. */
  lemma SumCountSnoc(stage: string, s: seq<StageStat>, x: StageStat)
    ensures SumCount(stage, s + [x]) == SumCount(stage, s) + if x.stage == stage then x.ideaCount else 0
  {
    assert (s + [x])[..|s|] == s;
  }

  /** The stage statistics of all campaigns, campaign after campaign. */
  function AllStats(campaigns: seq<Campaign>): seq<StageStat> {
    if campaigns == [] then []
    else AllStats(campaigns[..|campaigns| - 1]) + campaigns[|campaigns| - 1].stageStatistics
  }

  /** The four totals `fund_stats` reports. */
  datatype FundTotals = FundTotals(submissions: int, archived: int, insights: int, active: int)

  /**
   * The inner `for stat in stats` loop of `fund_stats`: three independent tests per stat, each
   * adding to its total. `done` is every stat added before, by earlier campaigns.
   */
  method AddStageStats(stats: seq<StageStat>, active: int, archived: int, insights: int,
                       ghost done: seq<StageStat>)
    returns (active': int, archived': int, insights': int)
    requires active == SumCount(AssessQaLabel, done)
    requires archived == SumCount(ArchiveLabel, done)
    requires insights == SumCount(InsightLabel, done)
    ensures active' == SumCount(AssessQaLabel, done + stats)
    ensures archived' == SumCount(ArchiveLabel, done + stats)
    ensures insights' == SumCount(InsightLabel, done + stats)
  {
    active', archived', insights' := active, archived, insights;
    assert done + stats[..0] == done;
    var i := 0;
    while i < |stats|
      invariant 0 <= i <= |stats|
      invariant active' == SumCount(AssessQaLabel, done + stats[..i])
      invariant archived' == SumCount(ArchiveLabel, done + stats[..i])
      invariant insights' == SumCount(InsightLabel, done + stats[..i])
    {
      var stat := stats[i];
      if stat.stage == AssessQaLabel {
        active' := active' + stat.ideaCount;
      }
      if stat.stage == ArchiveLabel {
        archived' := archived' + stat.ideaCount;
      }
      if stat.stage == InsightLabel {
        insights' := insights' + stat.ideaCount;
      }
      ghost var added := done + stats[..i];
      assert done + stats[..i + 1] == added + [stat];
      SumCountSnoc(AssessQaLabel, added, stat);
      SumCountSnoc(ArchiveLabel, added, stat);
      SumCountSnoc(InsightLabel, added, stat);
      i := i + 1;
    }
    assert stats[..|stats|] == stats;
  }

  /**
   * `fund_stats`: over every campaign of the group document's first element, add up the
   * idea counts of the Assess QA, Archive and Insight sharing reserve stats.
   */
  method FundStats(fund: seq<CampaignGroup>) returns (result: Result<FundTotals, CommandError>)
    ensures result.Failure? <==> fund == []
    ensures result.Failure? ==> result.error == MissingGroup
    ensures result.Success? ==>
              var all := AllStats(fund[0].campaigns);
              result.value.active == SumCount(AssessQaLabel, all) &&
              result.value.archived == SumCount(ArchiveLabel, all) &&
              result.value.insights == SumCount(InsightLabel, all) &&
              result.value.submissions == result.value.active + result.value.archived
  {
    if |fund| == 0 {
      return Failure(MissingGroup);
    }
    var campaigns := fund[0].campaigns;
    var totActive, totArchived, totInsightSharing := 0, 0, 0;
    var c := 0;
    while c < |campaigns|
      invariant 0 <= c <= |campaigns|
      invariant totActive == SumCount(AssessQaLabel, AllStats(campaigns[..c]))
      invariant totArchived == SumCount(ArchiveLabel, AllStats(campaigns[..c]))
      invariant totInsightSharing == SumCount(InsightLabel, AllStats(campaigns[..c]))
    {
      totActive, totArchived, totInsightSharing :=
        AddStageStats(campaigns[c].stageStatistics, totActive, totArchived, totInsightSharing,
                      AllStats(campaigns[..c]));
      assert campaigns[..c + 1][..c] == campaigns[..c];
      c := c + 1;
    }
    assert campaigns[..|campaigns|] == campaigns;
    return Success(FundTotals(totActive + totArchived, totArchived, totInsightSharing, totActive));
  }

  /** A group's totals are the sums of its campaigns' totals, in any split of the campaign list. */
  lemma {:induction false} AllStatsAppend(a: seq<Campaign>, b: seq<Campaign>)
    ensures AllStats(a + b) == AllStats(a) + AllStats(b)
  {
    if b == [] {
      assert a + b == a;
    } else {
      assert (a + b)[..|a + b| - 1] == a + b[..|b| - 1];
      AllStatsAppend(a, b[..|b| - 1]);
    }
  }
}
