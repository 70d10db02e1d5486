/**
 * `fund_stats_funded` and `challenge_specific_funded`: the proposals-score rows left-joined,
 * by proposal id, to the voting results keyed by internal id, and the FUNDED / approved
 * counts taken from the joined rows. A row without a voting result has no status, so it is
 * never FUNDED and never approved.
 */
module Funded {
  import opened Wrappers
  import opened Sequences
  import opened Rows
  import opened Cohorts
  import opened Grouping

  const FundedStatus := "FUNDED"
  const ApprovedFlag := "YES"

  /** A proposals-score row with the voting result joined to it, if any. */
  datatype JoinedRow = JoinedRow(score: ScoreRow, vote: Option<VotingResult>)

  /** The voting result whose internal id is `id` (internal ids are taken to be unique). */
  function VoteFor(votes: seq<VotingResult>, id: int): Option<VotingResult> {
    FirstWhere(votes, (v: VotingResult) => v.internalId == id)
  }

  /** The left join: every score row, in order, with its voting result or none. */
  function LeftJoin(rows: seq<ScoreRow>, votes: seq<VotingResult>): (joined: seq<JoinedRow>)
    ensures |joined| == |rows|
    ensures forall i :: 0 <= i < |rows| ==> joined[i] == JoinedRow(rows[i], VoteFor(votes, rows[i].proposalId))
  {
    seq(|rows|, i requires 0 <= i < |rows| => JoinedRow(rows[i], VoteFor(votes, rows[i].proposalId)))
  }

  /**
   * A joined row has no voting result exactly when no result carries its proposal id as
   * internal id, and otherwise the first result that does.
   */
  lemma VoteForMatches(votes: seq<VotingResult>, id: int)
    ensures VoteFor(votes, id).None? <==> forall v :: 0 <= v < |votes| ==> votes[v].internalId != id
    ensures VoteFor(votes, id).Some? ==>
              exists v :: 0 <= v < |votes| && votes[v] == VoteFor(votes, id).value && votes[v].internalId == id &&
                          forall u :: 0 <= u < v ==> votes[u].internalId != id
  {
    FirstWhereMeaning(votes, (v: VotingResult) => v.internalId == id);
  }

  predicate IsFunded(j: JoinedRow) {
    j.vote.Some? && j.vote.value.status == FundedStatus
  }

  predicate IsApproved(j: JoinedRow) {
    j.vote.Some? && j.vote.value.meetsApprovalThreshold == ApprovedFlag
  }

  /** The row's Challenge equals `title`, and the opposite test. */
  function ChallengeIs(title: string): JoinedRow -> bool {
    (j: JoinedRow) => j.score.challenge == title
  }

  function ChallengeIsNot(title: string): JoinedRow -> bool {
    (j: JoinedRow) => j.score.challenge != title
  }

  /** The voting result joined to proposal `id` says FUNDED. */
  predicate FundedVote(votes: seq<VotingResult>, id: int) {
    VoteFor(votes, id).Some? && VoteFor(votes, id).value.status == FundedStatus
  }

  /** The voting result joined to proposal `id` meets the approval threshold. */
  predicate ApprovedVote(votes: seq<VotingResult>, id: int) {
    VoteFor(votes, id).Some? && VoteFor(votes, id).value.meetsApprovalThreshold == ApprovedFlag
  }

  /** The four counts `fund_stats_funded` reports. */
  datatype FundedSummary = FundedSummary(approved: nat, funded: nat, fundedRegular: nat, fundedChallengeSetting: nat)

  /**
   * `fund_stats_funded`: approved rows, funded rows, and the funded rows split by whether
   * their Challenge is the challenge-setting title. Each count is the number of score rows
   * whose joined voting result passes its tests.
   */
  function FundStatsFunded(rows: seq<ScoreRow>, votes: seq<VotingResult>, challengeSettingTitle: string)
    : (s: FundedSummary)
    ensures s.approved == |set i | 0 <= i < |rows| && ApprovedVote(votes, rows[i].proposalId)|
    ensures s.funded == |set i | 0 <= i < |rows| && FundedVote(votes, rows[i].proposalId)|
    ensures s.fundedChallengeSetting ==
              |set i | 0 <= i < |rows| && FundedVote(votes, rows[i].proposalId) &&
                       rows[i].challenge == challengeSettingTitle|
    ensures s.fundedRegular ==
              |set i | 0 <= i < |rows| && FundedVote(votes, rows[i].proposalId) &&
                       rows[i].challenge != challengeSettingTitle|
    ensures s.funded <= |rows| && s.approved <= |rows|
    ensures s.fundedRegular + s.fundedChallengeSetting == s.funded
  {
    var joined := LeftJoin(rows, votes);
    var funded := Filter(joined, IsFunded);
    var regular, setting := ChallengeIsNot(challengeSettingTitle), ChallengeIs(challengeSettingTitle);
    FilterPartition(funded, regular, setting);
    ApprovedCount(rows, votes);
    FundedCount(rows, votes);
    SettingCount(rows, votes, challengeSettingTitle);
    RegularCount(rows, votes, challengeSettingTitle);
    FundedSummary(|Filter(joined, IsApproved)|, |funded|, |Filter(funded, regular)|, |Filter(funded, setting)|)
  }

  lemma ApprovedCount(rows: seq<ScoreRow>, votes: seq<VotingResult>)
    ensures |Filter(LeftJoin(rows, votes), IsApproved)| ==
            |set i | 0 <= i < |rows| && ApprovedVote(votes, rows[i].proposalId)|
  {
    var joined := LeftJoin(rows, votes);
    FilterSize(joined, IsApproved);
    forall i ensures i in Positions(joined, IsApproved) <==>
                     i in set i | 0 <= i < |rows| && ApprovedVote(votes, rows[i].proposalId) {
    }
    assert Positions(joined, IsApproved) == set i | 0 <= i < |rows| && ApprovedVote(votes, rows[i].proposalId);
  }

  lemma FundedCount(rows: seq<ScoreRow>, votes: seq<VotingResult>)
    ensures |Filter(LeftJoin(rows, votes), IsFunded)| ==
            |set i | 0 <= i < |rows| && FundedVote(votes, rows[i].proposalId)|
  {
    var joined := LeftJoin(rows, votes);
    FilterSize(joined, IsFunded);
    forall i ensures i in Positions(joined, IsFunded) <==>
                     i in set i | 0 <= i < |rows| && FundedVote(votes, rows[i].proposalId) {
    }
    assert Positions(joined, IsFunded) == set i | 0 <= i < |rows| && FundedVote(votes, rows[i].proposalId);
  }

  /** The funded rows whose Challenge is the challenge-setting title. */
  lemma SettingCount(rows: seq<ScoreRow>, votes: seq<VotingResult>, title: string)
    ensures |Filter(Filter(LeftJoin(rows, votes), IsFunded), ChallengeIs(title))| ==
            |set i | 0 <= i < |rows| && FundedVote(votes, rows[i].proposalId) && rows[i].challenge == title|
  {
    var joined := LeftJoin(rows, votes);
    var both := Both(IsFunded, ChallengeIs(title));
    FilterFilter(joined, IsFunded, ChallengeIs(title));
    FilterSize(joined, both);
    forall i ensures i in Positions(joined, both) <==>
                     i in set i | 0 <= i < |rows| && FundedVote(votes, rows[i].proposalId) &&
                                  rows[i].challenge == title {
    }
    assert Positions(joined, both) ==
           set i | 0 <= i < |rows| && FundedVote(votes, rows[i].proposalId) && rows[i].challenge == title;
  }

  /** The funded rows whose Challenge is any other title. */
  lemma RegularCount(rows: seq<ScoreRow>, votes: seq<VotingResult>, title: string)
    ensures |Filter(Filter(LeftJoin(rows, votes), IsFunded), ChallengeIsNot(title))| ==
            |set i | 0 <= i < |rows| && FundedVote(votes, rows[i].proposalId) && rows[i].challenge != title|
  {
    var joined := LeftJoin(rows, votes);
    var both := Both(IsFunded, ChallengeIsNot(title));
    FilterFilter(joined, IsFunded, ChallengeIsNot(title));
    FilterSize(joined, both);
    forall i ensures i in Positions(joined, both) <==>
                     i in set i | 0 <= i < |rows| && FundedVote(votes, rows[i].proposalId) &&
                                  rows[i].challenge != title {
    }
    assert Positions(joined, both) ==
           set i | 0 <= i < |rows| && FundedVote(votes, rows[i].proposalId) && rows[i].challenge != title;
  }

  /**
   * The funded rows are exactly the score rows whose own voting result (the one whose internal
   * id is the row's proposal id) says FUNDED.
   */
  lemma FundedRowsMatched(rows: seq<ScoreRow>, votes: seq<VotingResult>)
    ensures var funded := Filter(LeftJoin(rows, votes), IsFunded);
            (forall j :: 0 <= j < |funded| ==>
               funded[j].score in rows && funded[j].vote.Some? &&
               funded[j].vote.value in votes && funded[j].vote.value.status == FundedStatus &&
               funded[j].vote.value.internalId == funded[j].score.proposalId) &&
            (forall i :: 0 <= i < |rows| && VoteFor(votes, rows[i].proposalId).Some? &&
                         VoteFor(votes, rows[i].proposalId).value.status == FundedStatus ==>
               JoinedRow(rows[i], VoteFor(votes, rows[i].proposalId)) in funded)
  {
    var joined := LeftJoin(rows, votes);
    var funded := Filter(joined, IsFunded);
    forall j | 0 <= j < |funded|
      ensures funded[j].score in rows && funded[j].vote.Some? && funded[j].vote.value in votes &&
              funded[j].vote.value.status == FundedStatus &&
              funded[j].vote.value.internalId == funded[j].score.proposalId
    {
      var i :| 0 <= i < |joined| && joined[i] == funded[j];
      VoteForMatches(votes, rows[i].proposalId);
    }
    forall i | 0 <= i < |rows| && VoteFor(votes, rows[i].proposalId).Some? &&
               VoteFor(votes, rows[i].proposalId).value.status == FundedStatus
      ensures JoinedRow(rows[i], VoteFor(votes, rows[i].proposalId)) in funded
    {
      assert IsFunded(joined[i]);
    }
  }

  /** A proposal without a voting result is counted neither as funded nor as approved. */
  lemma UnmatchedNeverCounted(rows: seq<ScoreRow>, votes: seq<VotingResult>, i: nat)
    requires i < |rows|
    requires forall v :: 0 <= v < |votes| ==> votes[v].internalId != rows[i].proposalId
    ensures LeftJoin(rows, votes)[i] !in Filter(LeftJoin(rows, votes), IsFunded)
    ensures LeftJoin(rows, votes)[i] !in Filter(LeftJoin(rows, votes), IsApproved)
  {
    VoteForMatches(votes, rows[i].proposalId);
  }

  // ----- challenge_specific_funded -----

  /** A challenge's column: how many funded rows, their highest, lowest and mean Rating Given. */
  datatype ChallengeFunded = ChallengeFunded(count: nat, high: real, low: real, mean: real)

  /** The score rows of `challenge` whose voting result says FUNDED, in order. */
  function FundedInChallenge(rows: seq<ScoreRow>, votes: seq<VotingResult>, challenge: string): (group: seq<ScoreRow>)
    ensures |group| <= |rows|
  {
    var joined := Filter(Filter(LeftJoin(rows, votes), IsFunded), ChallengeIs(challenge));
    seq(|joined|, i requires 0 <= i < |joined| => joined[i].score)
  }

  /**
   * `challenge_specific_funded` for one challenge: nothing when the challenge has no funded
   * row (it has no group), and otherwise its count, High, Low and mean.
   */
  function ChallengeSpecificFunded(rows: seq<ScoreRow>, votes: seq<VotingResult>, challenge: string)
    : (r: Option<ChallengeFunded>)
    ensures r.None? <==> |FundedInChallenge(rows, votes, challenge)| == 0
    ensures r.Some? ==> r.value.count == |FundedInChallenge(rows, votes, challenge)|
    ensures r.Some? ==> r.value.mean == MeanRating(FundedInChallenge(rows, votes, challenge)).value
    ensures r.Some? ==> r.value.low <= r.value.mean <= r.value.high
  {
    var group := FundedInChallenge(rows, votes, challenge);
    if |group| == 0 then None
    else
      MeanAtMost(group, MaxRating(group));
      MeanAtLeast(group, MinRating(group));
      Some(ChallengeFunded(|group|, MaxRating(group), MinRating(group), MeanRating(group).value))
  }

  /**
   * The rows counted for a challenge are exactly its funded rows: each is a row of that
   * challenge whose voting result says FUNDED, and every such row is counted.
   */
  lemma FundedInChallengeMembers(rows: seq<ScoreRow>, votes: seq<VotingResult>, challenge: string)
    ensures var group := FundedInChallenge(rows, votes, challenge);
            (forall j :: 0 <= j < |group| ==>
               group[j] in rows && group[j].challenge == challenge &&
               VoteFor(votes, group[j].proposalId).Some? &&
               VoteFor(votes, group[j].proposalId).value.status == FundedStatus) &&
            (forall i :: 0 <= i < |rows| && rows[i].challenge == challenge &&
                         VoteFor(votes, rows[i].proposalId).Some? &&
                         VoteFor(votes, rows[i].proposalId).value.status == FundedStatus ==>
               rows[i] in group)
  {
    var joined := LeftJoin(rows, votes);
    var funded := Filter(joined, IsFunded);
    var inChallenge := Filter(funded, ChallengeIs(challenge));
    var group := FundedInChallenge(rows, votes, challenge);
    forall j | 0 <= j < |group|
      ensures group[j] in rows && group[j].challenge == challenge &&
              VoteFor(votes, group[j].proposalId).Some? &&
              VoteFor(votes, group[j].proposalId).value.status == FundedStatus
    {
      var a :| 0 <= a < |funded| && funded[a] == inChallenge[j];
      var b :| 0 <= b < |joined| && joined[b] == funded[a];
    }
    forall i | 0 <= i < |rows| && rows[i].challenge == challenge &&
               VoteFor(votes, rows[i].proposalId).Some? &&
               VoteFor(votes, rows[i].proposalId).value.status == FundedStatus
      ensures rows[i] in group
    {
      assert joined[i] in funded;
      var a :| 0 <= a < |funded| && funded[a] == joined[i];
      assert joined[i] in inChallenge;
      var b :| 0 <= b < |inChallenge| && inChallenge[b] == joined[i];
      assert group[b] == rows[i];
    }
  }

  /** High and Low are ratings of funded rows of the challenge, bounding all the others. */
  lemma ChallengeFundedRange(rows: seq<ScoreRow>, votes: seq<VotingResult>, challenge: string)
    requires ChallengeSpecificFunded(rows, votes, challenge).Some?
    ensures var r := ChallengeSpecificFunded(rows, votes, challenge).value;
            var group := FundedInChallenge(rows, votes, challenge);
            r.low <= r.high &&
            (forall j :: 0 <= j < |group| ==> r.low <= group[j].rating <= r.high) &&
            (exists j :: 0 <= j < |group| && group[j].rating == r.high) &&
            (exists j :: 0 <= j < |group| && group[j].rating == r.low)
  {
    var group := FundedInChallenge(rows, votes, challenge);
    assert MinRating(group) <= group[0].rating <= MaxRating(group);
  }

  /** The Challenge column of the FUNDED rows of the joined table. */
  function FundedChallenges(rows: seq<ScoreRow>, votes: seq<VotingResult>): (column: seq<string>)
    ensures forall t :: t in column <==>
              exists i :: 0 <= i < |rows| && rows[i].challenge == t && FundedVote(votes, rows[i].proposalId)
  {
    var joined := LeftJoin(rows, votes);
    var funded := Filter(joined, IsFunded);
    var column := seq(|funded|, j requires 0 <= j < |funded| => funded[j].score.challenge);
    forall t | t in column
      ensures exists i :: 0 <= i < |rows| && rows[i].challenge == t && FundedVote(votes, rows[i].proposalId)
    {
      var j :| 0 <= j < |column| && column[j] == t;
      var i :| 0 <= i < |joined| && joined[i] == funded[j];
    }
    forall i | 0 <= i < |rows| && FundedVote(votes, rows[i].proposalId)
      ensures rows[i].challenge in column
    {
      assert IsFunded(joined[i]);
      var j :| 0 <= j < |funded| && funded[j] == joined[i];
      assert column[j] == rows[i].challenge;
    }
    column
  }

  /**
   * The `challenge_specific_funded` report: one column per challenge with a FUNDED row,
   * titled by the challenge, in the ascending order of the `groupby('Challenge')` keys.
   */
  function ChallengeSpecificFundedReport(rows: seq<ScoreRow>, votes: seq<VotingResult>)
    : (report: seq<(string, ChallengeFunded)>)
    ensures Ascending(ColumnTitles(report))
    ensures forall c :: c in report <==> ChallengeSpecificFunded(rows, votes, c.0) == Some(c.1)
  {
    var keys := GroupKeys(FundedChallenges(rows, votes));
    forall t | ChallengeSpecificFunded(rows, votes, t).Some? ensures t in keys {
      FundedInChallengeMembers(rows, votes, t);
      var group := FundedInChallenge(rows, votes, t);
      assert group[0] in rows;
      var i :| 0 <= i < |rows| && rows[i] == group[0];
    }
    Columns(keys, t => ChallengeSpecificFunded(rows, votes, t))
  }
}
