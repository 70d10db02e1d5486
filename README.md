# catalyst-dashboard in Dafny

This project models the core of catalyst-dashboard. The repository is a command-line tool that reports statistics on the proposals, assessments and voting results of a grant-funding round, and enriches them with data from the IdeaScale ideation platform. Two parts are modelled:

- **The IdeaScale client** (`api/ideascale.py`). Endpoints are built as `/v1/...` paths. A single GET either returns the decoded body or aborts on any status other than 200. The paginator asks for idea pages of 50 until a page of any other length comes back. The HTTP transport is an oracle `fetch` from a request (URL plus headers) to a response (status plus body). The paginator is a method on the class `IdeascaleApi`, with a loop and its invariants.
- **The integer, set and lookup logic of the reporting commands** (`commands/challenges.py`):
  - the withdrawal filter;
  - the top-k cohorts of `proposals_score`;
  - the stage-statistics scans of `health_check` and `innovation_baseline`, where each counter keeps the last value seen and the value carries over from one challenge to the next;
  - the proposer, co-proposer and funds accounting of `innovation_baseline`;
  - the label sums of `fund_stats`;
  - the FUNDED and approved counts after the left join in `fund_stats_funded` and `challenge_specific_funded`;
  - the in-place Challenge assignment of `assign_challenges`.

The loops of the source are methods with loops. Each is proved against a specification function:

- `LastCount` and `CountsOf`: the counters after the stats scanned so far.
- `SumCount` and `AllStats`: the `fund_stats` totals.
- `ActiveCount`, `Funds`, `Authors` and `Coproposers`: the proposal accounting.
- `HealthRows` and `InnovationRows`: the report rows, one `Result` per row. `Collect` turns them into the rows in order, or the first error.
- `AssignedTitle`: the title written into one table row.

Lemmas about these functions state what the source promises. A report reads a stage counter that no scan has set yet; in Python that is an unbound variable. The model makes it the error `UnboundStageCount(label)`. A missing group in `fund_stats` is the error `MissingGroup`.

Modules:

- `Wrappers`: Option and Result.
- `Decimal`: the decimal form of ids and page numbers in URLs.
- `Sequences`: first match, filter, collect.
- `Grouping`: the ordered keys of a `groupby`.
- `Rows`: the records.
- `Withdrawals`.
- `Cohorts`.
- `Ideascale`.
- `StageStats`: the stage scan, `health_check` and `fund_stats`.
- `Innovation`.
- `Funded`.
- `Assign`.

Behaviour of the commands that is easy to miss, and that the model keeps:

- **Missing stage label.** When a campaign lacks a stage label, the previous challenge's value carries over, and the command fails when no earlier challenge set it.
- **Stage label that appears twice.** `health_check` and `innovation_baseline` keep the last value; `fund_stats` adds them up.
- **Withdrawal filter.** It is not applied in every command. `innovation_baseline` filters its local CSV and then replaces that list with the proposals fetched from the API, so withdrawn proposals are still counted; the model counts the fetched proposals. `fund_stats_funded`, `challenge_specific_funded` and `assign_challenges` do not filter withdrawals, and neither does the model.

## Model

| member | source | states |
|---|---|---|
| `Decimal.ParseNatToDecimal` | api/ideascale.py:53 | the decimal text of a page number or page size reads back as that number |
| `Decimal.ParseIntToDecimal` | api/ideascale.py:41 | the decimal text of a (possibly negative) id reads back as that id |
| `Decimal.IntToDecimalInjective` | api/ideascale.py:41 | distinct ids are written as distinct texts |
| `Ideascale.PathParses` | api/ideascale.py:24 | a path built from slash-free segments splits back into exactly those segments |
| `Ideascale.CampaignEndpointParses` | api/ideascale.py:41 | `/v1/campaign/{id}` determines the id: parsing it gives the id back |
| `Ideascale.GroupEndpointParses` | api/ideascale.py:73 | `/v1/campaigns/groups/{id}` determines the id |
| `Ideascale.IdeasEndpointParses` | api/ideascale.py:53 | `/v1/campaigns/{id}/ideas/{page}/{page_size}` determines campaign id, page and page size |
| `Ideascale.IdeascaleApi.constructor` | api/ideascale.py:6-8 | every request carries exactly the header `api_token` set to the token |
| `Ideascale.IdeascaleApi.GetDataFromApi` | api/ideascale.py:12-32 | the GET of `base_url + endpoint` succeeds exactly when the status is 200, with the response body; otherwise it fails with that status and that URL |
| `Ideascale.IdeascaleApi.GetCampaignById` | api/ideascale.py:35-42 | the campaign document is the GET of `base_url + /v1/campaign/{id}`, with the same success and failure cases |
| `Ideascale.IdeascaleApi.GetCampaignByGroup` | api/ideascale.py:70-74 | the group document is the GET of `base_url + /v1/campaigns/groups/{id}`, with the same success and failure cases |
| `Ideascale.IdeascaleApi.GetProposalsByCampaignId` | api/ideascale.py:44-58 | pages 0, 1, 2, ... are requested in order at `base_url + /v1/campaigns/{id}/ideas/{k}/50`, at least one, each after a page of exactly 50; the run stops at the first page that is not full; the result is all pages concatenated in request order, or that page's failure; the run terminates by the first page the server does not fill |
| `Ideascale.IdeascaleApi.PaginationDeterministic` | api/ideascale.py:46-57 | against the same server two runs make the same number of calls and return the same result |
| `Ideascale.IdeascaleApi.PaginationLength` | api/ideascale.py:50-57 | a successful run of k+1 calls returns 50·k items plus the last page, whose length is not 50 |
| `Ideascale.IdeascaleApi.PaginationFailureIsTotal` | api/ideascale.py:28-55 | a failed request is the last one made, and the whole run then fails with its status and URL: no partial list is returned |
| `Ideascale.IdeascaleApi.PageUrlsDistinct` | api/ideascale.py:53 | distinct pages are requested at distinct URLs |
| `Ideascale.IdeascaleApi.SlicesCollect` | api/ideascale.py:50-57 | against a server that cuts a list into slices of 50, the first n full pages concatenate to the first 50·n items |
| `Ideascale.IdeascaleApi.SlicedPageFull` | api/ideascale.py:50 | against such a server, page k is full exactly when k < \|items\| / 50 |
| `Ideascale.IdeascaleApi.SlicedRunStops` | api/ideascale.py:50-57 | against such a server, every run makes exactly \|items\| / 50 + 1 calls |
| `Ideascale.IdeascaleApi.SlicedServerPagination` | api/ideascale.py:46-57 | against such a server the paginator can run; it makes \|items\| / 50 + 1 calls and returns exactly the list; when \|items\| is a multiple of 50 its last request fetches an empty page |
| `Sequences.FirstWhereMeaning` | commands/challenges.py:126 | `next((item for item in s if p(item)), None)` finds nothing exactly when no item qualifies, and otherwise the first item that does |
| `Sequences.FilterIdempotent` | commands/challenges.py:24 | filtering twice by the same predicate equals filtering once |
| `Sequences.FilterPartition` | commands/challenges.py:199-200 | a predicate and its negation split a list into two parts whose lengths add up to its length |
| `Sequences.FilterFilter` | commands/challenges.py:198-200 | filtering a filtered table again is filtering once by both tests |
| `Sequences.FilterSize` | commands/challenges.py:198-201 | the length of a filtered table is the number of positions whose row passes the test |
| `Grouping.InsertKey` | commands/challenges.py:110 | adding a key to ascending distinct keys keeps them ascending and adds exactly that key |
| `Grouping.GroupKeys` | commands/challenges.py:110 | the group keys of a column are ascending, in Python's order on `str`, and are exactly the column's values |
| `Grouping.AscendingUnique` | commands/challenges.py:110 | two ascending lists with the same values are equal, so the group keys are determined by the column's values |
| `Grouping.Columns` | commands/challenges.py:83-88 | a report built over ascending group keys has its column titles in ascending order, and holds exactly the keys that get a column, each with its value |
| `Withdrawals.WithoutWithdrawn` | commands/challenges.py:20-24 | every kept row is a row of the input whose proposal id is not withdrawn, and every such row is kept |
| `Withdrawals.WithdrawalIdempotent` | commands/challenges.py:62-66 | applying the withdrawal filter twice gives the result of applying it once |
| `Withdrawals.WithdrawalKeepsOrder` | commands/challenges.py:102-109 | the filter goes row by row: on a concatenation it gives the concatenation of the filtered parts, so order is kept |
| `Withdrawals.NothingWithdrawn` | commands/challenges.py:219-224 | when no row is withdrawn the table is unchanged |
| `Cohorts.SortByRatingDesc` | commands/challenges.py:73 | the sorted group is a permutation of the group, in non-increasing Rating Given |
| `Cohorts.CohortSeparates` | commands/challenges.py:71-81 | a top-k cohort is drawn from the group, and no row left out has a higher rating than a row in it |
| `Cohorts.CohortFromGroup` | commands/challenges.py:72-75 | every cohort row is a row of the group |
| `Cohorts.CohortNested` | commands/challenges.py:72-81 | the smaller cohort (10%) is a prefix of the larger one (20%) |
| `Cohorts.CohortAboveCut` | commands/challenges.py:72-75 | the cohort's ratings sum to at least k times its lowest (cut) rating |
| `Cohorts.ExtraBelowCut` | commands/challenges.py:72-81 | the rows a larger cohort adds sum to at most their number times the smaller cohort's cut rating |
| `Cohorts.CohortMeanMonotone` | commands/challenges.py:83-84 | the mean of a larger top-k cohort is never above that of a smaller one |
| `Cohorts.MaxRating` | commands/challenges.py:87 | Highest bounds every rating of the group and is one of them |
| `Cohorts.MinRating` | commands/challenges.py:88 | Lowest is below every rating of the group and is one of them |
| `Cohorts.CohortMeanWithinRange` | commands/challenges.py:83-88 | a cohort mean lies between the group's Lowest and Highest |
| `Cohorts.ChallengeGroupMembers` | commands/challenges.py:66-71 | a challenge's group is exactly the rows of that challenge that are not withdrawn |
| `Cohorts.ProposalsScore` | commands/challenges.py:62-88 | a challenge gets no column exactly when all its rows are withdrawn or its 10% cohort size is 0, since the report's index comes from the Top 10% series; otherwise Top 10% and Top 20% are the mean ratings of the 10% and 20% cohorts of its valid rows (Top 10% always present), and Highest and Lowest are ratings of its valid rows and bound all of them |
| `Cohorts.TopMeansOrdered` | commands/challenges.py:83-88 | for a challenge with a column whose 10% cohort is no larger than its 20% cohort, Lowest ≤ Top 20% ≤ Top 10% ≤ Highest |
| `Cohorts.ValidScoreChallenges` | commands/challenges.py:66-71 | the Challenge column after the withdrawal filter holds exactly the challenges of proposals that are not withdrawn |
| `Cohorts.ProposalsScoreReport` | commands/challenges.py:68-90 | the report's columns are titled in ascending order of the challenges, and a challenge with its summary is a column exactly when `ProposalsScore` gives that challenge that summary |
| `StageStats.LastCountMeaning` | commands/challenges.py:131-137 | a counter is unbound exactly when no scanned stat has its label; otherwise it holds the ideaCount of a stat with that label after which none has it |
| `StageStats.LastCountAppend` | commands/challenges.py:130-137 | scanning a then b leaves b's last match when b has one, and a's otherwise |
| `StageStats.ScanStageStats` | commands/challenges.py:131-137 | the inner scan leaves each of the three counters at its value over everything scanned so far, including earlier challenges |
| `StageStats.Resolve` | commands/challenges.py:138-142 | a row reads archive, then governance, then insights; it succeeds exactly when all three are bound, and otherwise fails naming the first of them, in that order, that is unbound |
| `StageStats.TitleCampaignAt` | commands/challenges.py:126-128 | a report title leads to the campaign of its first map entry with an equal title, or to none |
| `StageStats.HealthCheckRow` | commands/challenges.py:125-142 | one title: zeros without a map entry; otherwise the scanned counters, Ideas = archive + governance, Proposals = governance and the comment count, or the unbound error; the counters carry on |
| `StageStats.ValidChallenges` | commands/challenges.py:106-107 | the Challenge column after the withdrawal filter holds exactly the challenges of assessments that are not withdrawn |
| `StageStats.ReportTitles` | commands/challenges.py:106-119 | the report's titles are the Challenge values of the assessments that are not withdrawn, each once, in ascending order |
| `StageStats.ReportTitlesDetermined` | commands/challenges.py:110-119 | any ascending list of exactly those values is the report's list of titles |
| `StageStats.HealthCheck` | commands/challenges.py:106-142 | the titles come from the assessments left after the withdrawal filter; the report is every title's row in order, or the error of the first row that raises |
| `StageStats.HealthCarryOver` | commands/challenges.py:130-137 | after a title with a campaign, each counter holds that campaign's last value for its label if it has one, else the value from before |
| `StageStats.SumCountAppend` | commands/challenges.py:321-329 | a label sum over two stat lists is the sum of the two label sums |
| `StageStats.SumCountSingle` | commands/challenges.py:323-329 | when exactly one stat has the label, the sum equals that stat's ideaCount, which is also the last-wins value |
| `StageStats.AddStageStats` | commands/challenges.py:323-329 | one campaign's inner loop adds each label's ideaCounts to its running total |
| `StageStats.FundStats` | commands/challenges.py:317-331 | it fails exactly when the group document is empty; otherwise each total is the sum over all campaigns' stats of its label, and submissions = active + archived |
| `StageStats.AllStatsAppend` | commands/challenges.py:321 | the stats of two campaign lists are the concatenation of their stats |
| `Innovation.AddCoproposers` | commands/challenges.py:253-257 | the contributors not yet among the proposers are added to the co-proposers |
| `Innovation.AccountProposals` | commands/challenges.py:246-261 | the count and the funds are over active proposals only; the proposers list has no repeats and holds exactly their authors; the co-proposers are exactly the contributors not among the authors seen so far |
| `Innovation.AuthorsMeaning` | commands/challenges.py:250-252 | x is a proposer exactly when some active proposal has x as its author |
| `Innovation.CoproposersMeaning` | commands/challenges.py:253-257 | x is a co-proposer exactly when some active proposal lists x as a contributor while x is not the author of it or of any earlier active proposal |
| `Innovation.InactiveIgnored` | commands/challenges.py:246-249 | a proposal outside the governance stage changes neither the count, the funds nor the proposers |
| `Innovation.InactiveIgnoredCoproposers` | commands/challenges.py:246-257 | nor does it change the co-proposers |
| `Innovation.ProposerCountBounds` | commands/challenges.py:259-261 | the union count is at most the two counts added and at least each of them |
| `Innovation.ProposersOverlap` | commands/challenges.py:250-261 | for any proposal list: a contributor of an active proposal who is not among the authors up to it and who authors a later active proposal is counted both as proposer and co-proposer, so the union is smaller than the sum |
| `Innovation.InnovationBaselineRow` | commands/challenges.py:237-280 | one challenge: its proposal accounting and its scanned counters give its column, or the unbound error; the counters carry on |
| `Innovation.InnovationBaseline` | commands/challenges.py:236-280 | the report is every challenge's column in order, or the error of the first column that raises |
| `Innovation.InnovationColumnCounts` | commands/challenges.py:271-278 | in every column Ideas = archived + Proposals, and the union count lies between the larger of the two counts and their sum |
| `Funded.LeftJoin` | commands/challenges.py:194-196 | every score row is kept in order, joined to the voting result whose internal id is its proposal id, or to none |
| `Funded.VoteForMatches` | commands/challenges.py:163-165 | a row gets no voting result exactly when no internal id equals its proposal id |
| `Funded.FundStatsFunded` | commands/challenges.py:194-206 | approved is the number of score rows whose voting result meets the approval threshold (`YES`); funded is the number whose voting result says FUNDED; funded challenge setting and funded regular are the number of funded rows whose Challenge is, or is not, the challenge-setting title; the two add up to funded |
| `Funded.ApprovedCount` | commands/challenges.py:201 | the approved rows of the joined table are as many as the score rows whose voting result meets the threshold |
| `Funded.FundedCount` | commands/challenges.py:198 | the funded rows of the joined table are as many as the score rows whose voting result says FUNDED |
| `Funded.SettingCount` | commands/challenges.py:199 | the funded rows of the challenge-setting title are as many as the score rows with that Challenge whose voting result says FUNDED |
| `Funded.RegularCount` | commands/challenges.py:200 | the funded rows of the other titles are as many as the score rows with another Challenge whose voting result says FUNDED |
| `Funded.FundedRowsMatched` | commands/challenges.py:196-198 | a funded row is a score row whose own voting result says FUNDED, and every such row is funded |
| `Funded.UnmatchedNeverCounted` | commands/challenges.py:196-201 | a proposal without a voting result is counted neither as funded nor as approved |
| `Funded.FundedInChallengeMembers` | commands/challenges.py:163-169 | the rows counted for a challenge are exactly its rows whose voting result says FUNDED |
| `Funded.ChallengeSpecificFunded` | commands/challenges.py:163-176 | a challenge has no column exactly when it has no funded row; otherwise Count is the number of its funded rows, the mean is the mean Rating Given of those rows, and Low ≤ mean ≤ High |
| `Funded.ChallengeFundedRange` | commands/challenges.py:173-175 | High and Low are ratings of funded rows of the challenge and bound all of them |
| `Funded.FundedChallenges` | commands/challenges.py:163-169 | the Challenge column of the FUNDED joined rows holds exactly the challenges of score rows whose voting result says FUNDED |
| `Funded.ChallengeSpecificFundedReport` | commands/challenges.py:163-177 | the report's columns are titled in ascending order of the challenges, and a challenge with its figures is a column exactly when `ChallengeSpecificFunded` gives that challenge those figures |
| `Assign.ChallengeOfFirstMatch` | commands/challenges.py:299-303 | a row finds a challenge exactly when the first proposal with its id exists and some challenge has that proposal's category, and then it finds the first such challenge |
| `Assign.ClearChallenges` | commands/challenges.py:296 | every row gets the empty Challenge; nothing else changes |
| `Assign.AssignChallenges` | commands/challenges.py:296-310 | the number of rows and every other column stay as they were; each row's Challenge is the title its proposal id leads to, or stays empty |

## Left out

- HTTP transport (api/ideascale.py:9, 19-27): client construction, connection limits, the transport retries, the timeout and JSON decoding are library I/O. The fetch is an oracle from a request to a status and a decoded body.
- The `print` of the status and URL before the failing assertion (api/ideascale.py:28-30) is output only. The assertion itself becomes the `RemoteRequestFailed(status, url)` failure.
- The base URL and the API token come from settings (`config.py`). They are parameters here: `baseUrl`, and the constructor's `apiToken`.
- Ideascale.IdeascaleApi.GetProposalsByCampaignId: it requires a page the server does not fill (the ghost `stop`). Against a server that fills every page `get_proposals_by_campaign_id` never returns, and a terminating method cannot model that run.
- async execution (`utils/async_command.py`) and CLI registration (`main.py`) are plumbing.
- Reading and writing CSV and JSON files, `print`, `transpose` and `to_csv` are I/O. Every command takes the tables and documents it reads as parameters and returns its report. What a command derives from them, such as the report titles of `health_check` and the ordered column lists of `proposals_score` and `challenge_specific_funded`, is computed in the model.
- The reporting pipelines take the fetched documents as functions of the campaign id: `campaignById` and `proposalsById`. A failed fetch inside a command is not modelled there. The paginator and the GET model those failures on their own.
- `criteria_score` (commands/challenges.py:10-50) is float means and `round(2)` only. It is not modelled.
- Means are exact reals with no rounding. The cohort-size expression `int(round(len(x)*0.10))` is a parameter `k(n) <= n`.
- pandas details: `groupby` keys are ordered as Python orders `str`, and an empty Challenge (NaN) is not taken to occur; NaN in `max`/`min`/`count`, and the duplicate rows a join makes when internal ids repeat. Internal ids are taken to be unique, and the join takes the first matching voting result.
- Cohorts.ProposalsScore: when no challenge at all has a non-empty 10% cohort, the Top 10% series is empty and pandas takes the report's index from the Top 20% series (or, if that is empty too, from Highest) instead. The model still gives those challenges no column.
- `sort_values` is not stable. The model's sort fixes one order among equal ratings. Every stated property holds for any such order.
- health_check (commands/challenges.py:139-142): its cell writes go to the row that `iterrows` yields. Whether those writes reach the report depends on pandas' copy semantics, and the model takes the write-through the code evidently intends.
- health_check: the `CA Reviews (valid)` count and the `Top 10%` mean columns (commands/challenges.py:119, 144). They are a count and a float mean. The Top 10% cohort is the one modelled in `Cohorts`.
- innovation_baseline: `results.loc[title] = row` overwrites the column of a repeated title. The model returns one column per entry of the challenges map, in order.
- innovation_baseline: `count_active_proposals` is only printed. It is computed and then dropped.
- innovation_baseline: `int(...)` of `requested_funds` is assumed to succeed, so funds are integers.
- fund_stats: the group id is a string on the command line. The model takes the group document directly.
