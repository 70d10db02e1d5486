/** The records the reporting commands read: CSV rows and the JSON documents of the IdeaScale API. */
module Rows {

  /** A row of the proposals-score CSV (proposal_id, Challenge, Rating Given). */
  datatype ScoreRow = ScoreRow(proposalId: int, challenge: string, rating: real)

  /** A row of the valid-assessments CSV: the columns `health_check` groups and filters by. */
  datatype Assessment = Assessment(proposalId: int, challenge: string)

  /** An entry of a campaign's `stageStatistics`; `stage` is its `label` key. */
  datatype StageStat = StageStat(stage: string, ideaCount: int)

  /** The parts of a campaign document the commands use. */
  datatype Campaign = Campaign(commentCount: int, stageStatistics: seq<StageStat>)

  /** An element of a campaign-group document. */
  datatype CampaignGroup = CampaignGroup(campaigns: seq<Campaign>)

  /** An entry of the challenges map (or the challenges JSON): a title and a campaign id. */
  datatype ChallengeRef = ChallengeRef(title: string, id: int)

  /** The parts of a proposal (idea) document the commands use; `contributors` are contributor ids. */
  datatype Proposal = Proposal(id: int, stageLabel: string, requestedFunds: int, authorId: int,
                               contributors: seq<int>, category: int)

  /** A row of the merged voting-results CSV. */
  datatype VotingResult = VotingResult(internalId: int, chainProposalId: int, status: string,
                                       meetsApprovalThreshold: string)

  /** A row of the table `assign_challenges` annotates: its proposal id, its other columns, its Challenge. */
  datatype Entity = Entity(proposalId: int, columns: seq<string>, challenge: string)

  function ScoreRowId(r: ScoreRow): int { r.proposalId }

  function AssessmentId(a: Assessment): int { a.proposalId }
}
