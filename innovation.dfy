/**
 * `innovation_baseline`: for each challenge of the map, the stage counters carried over from
 * earlier challenges (as in `health_check`), and the accounting of the challenge's proposals
 * that are in the governance stage: how many, their requested funds, their distinct authors
 * and the contributors who were not yet among the authors.
 */
module Innovation {
  import opened Wrappers
  import opened Sequences
  import opened Rows
  import opened StageStats

  /** A proposal counts only while it sits in the governance stage. */
  predicate IsActive(p: Proposal, governanceStage: string) {
    p.stageLabel == governanceStage
  }

  /** The number of active proposals. */
  function ActiveCount(ps: seq<Proposal>, governanceStage: string): nat {
    if ps == [] then 0
    else ActiveCount(ps[..|ps| - 1], governanceStage) + (if IsActive(ps[|ps| - 1], governanceStage) then 1 else 0)
  }

  /** The requested funds of the active proposals, added up. */
  function Funds(ps: seq<Proposal>, governanceStage: string): int {
    if ps == [] then 0
    else Funds(ps[..|ps| - 1], governanceStage) +
         (if IsActive(ps[|ps| - 1], governanceStage) then ps[|ps| - 1].requestedFunds else 0)
  }

  /** The authors of the active proposals. */
  function Authors(ps: seq<Proposal>, governanceStage: string): set<int> {
    if ps == [] then {}
    else Authors(ps[..|ps| - 1], governanceStage) +
         (if IsActive(ps[|ps| - 1], governanceStage) then {ps[|ps| - 1].authorId} else {})
  }

  /** The contributor ids of a list that are not in `authors`. */
  function NotAuthors(contributors: seq<int>, authors: set<int>): set<int> {
    set c | c in contributors && c !in authors
  }

  /** The contributors of `p` that are not in `authors`. */
  function NewCoproposers(p: Proposal, authors: set<int>): set<int> {
    NotAuthors(p.contributors, authors)
  }

  /**
   * The contributors of active proposals, each tested against the authors seen up to and
   * including its own proposal: a contributor who only becomes an author later still counts.
   */
  function Coproposers(ps: seq<Proposal>, governanceStage: string): set<int> {
    if ps == [] then {}
    else Coproposers(ps[..|ps| - 1], governanceStage) +
         (if IsActive(ps[|ps| - 1], governanceStage)
          then NewCoproposers(ps[|ps| - 1], Authors(ps, governanceStage))
          else {})
  }

  /** The distinct elements of a list, as `set(...)` makes them. */
  function Elems(s: seq<int>): set<int> {
    set x | x in s
  }

  /**
   * The `for contributor_id in proposal.contributors` loop: a contributor not among the
   * proposers so far is appended to the co-proposers.
   */
  method AddCoproposers(contributors: seq<int>, proposers: seq<int>, coproposers: seq<int>,
                        ghost authors: set<int>)
    returns (coproposers': seq<int>)
    requires Elems(proposers) == authors
    ensures Elems(coproposers') == Elems(coproposers) + NotAuthors(contributors, authors)
  {
    coproposers' := coproposers;
    var j := 0;
    while j < |contributors|
      invariant 0 <= j <= |contributors|
      invariant Elems(coproposers') == Elems(coproposers) + NotAuthors(contributors[..j], authors)
    {
      var contributorId := contributors[j];
      assert contributors[..j + 1] == contributors[..j] + [contributorId];
      assert NotAuthors(contributors[..j + 1], authors) ==
             NotAuthors(contributors[..j], authors) + (if contributorId in authors then {} else {contributorId});
      assert contributorId in proposers <==> contributorId in authors;
      if contributorId !in proposers {
        assert Elems(coproposers' + [contributorId]) == Elems(coproposers') + {contributorId};
        coproposers' := coproposers' + [contributorId];
      }
      j := j + 1;
    }
    assert contributors[..j] == contributors;
  }

  /**
   * The `for proposal in proposals` loop of one challenge: counts and sums the active
   * proposals and grows the proposers and co-proposers lists.
   */
  method AccountProposals(proposals: seq<Proposal>, governanceStage: string)
    returns (count: nat, funds: int, proposers: seq<int>, coproposers: seq<int>)
    ensures count == ActiveCount(proposals, governanceStage)
    ensures funds == Funds(proposals, governanceStage)
    ensures Elems(proposers) == Authors(proposals, governanceStage)
    ensures forall i, j :: 0 <= i < j < |proposers| ==> proposers[i] != proposers[j]
    ensures Elems(coproposers) == Coproposers(proposals, governanceStage)
  {
    count, funds, proposers, coproposers := 0, 0, [], [];
    var i := 0;
    while i < |proposals|
      invariant 0 <= i <= |proposals|
      invariant count == ActiveCount(proposals[..i], governanceStage)
      invariant funds == Funds(proposals[..i], governanceStage)
      invariant Elems(proposers) == Authors(proposals[..i], governanceStage)
      invariant forall a, b :: 0 <= a < b < |proposers| ==> proposers[a] != proposers[b]
      invariant Elems(coproposers) == Coproposers(proposals[..i], governanceStage)
    {
      var proposal := proposals[i];
      assert proposals[..i + 1][..i] == proposals[..i];
      assert proposals[..i + 1][i] == proposal;
      if proposal.stageLabel == governanceStage {
        count := count + 1;
        funds := funds + proposal.requestedFunds;
        var author := proposal.authorId;
        if author !in proposers {
          proposers := proposers + [author];
        }
        assert Elems(proposers) == Authors(proposals[..i + 1], governanceStage);
        coproposers := AddCoproposers(proposal.contributors, proposers, coproposers,
                                      Authors(proposals[..i + 1], governanceStage));
      }
      i := i + 1;
    }
    assert proposals[..i] == proposals;
  }

  /** Membership in Authors: some active proposal has that author. */
  lemma {:induction false} AuthorsMeaning(ps: seq<Proposal>, governanceStage: string, x: int)
    ensures x in Authors(ps, governanceStage) <==>
            exists i :: 0 <= i < |ps| && IsActive(ps[i], governanceStage) && ps[i].authorId == x
  {
    if ps != [] {
      var init := ps[..|ps| - 1];
      AuthorsMeaning(init, governanceStage, x);
      if x in Authors(init, governanceStage) {
        var i :| 0 <= i < |init| && IsActive(init[i], governanceStage) && init[i].authorId == x;
        assert ps[i] == init[i];
      }
      if exists i :: 0 <= i < |ps| && IsActive(ps[i], governanceStage) && ps[i].authorId == x {
        var i :| 0 <= i < |ps| && IsActive(ps[i], governanceStage) && ps[i].authorId == x;
        if i < |init| {
          assert init[i] == ps[i];
        }
      }
    }
  }

  /** A co-proposer was contributed by some active proposal whose authors up to it exclude them. */
  lemma {:induction false} CoproposerWitness(ps: seq<Proposal>, governanceStage: string, x: int) returns (i: nat)
    requires x in Coproposers(ps, governanceStage)
    ensures i < |ps| && IsActive(ps[i], governanceStage) && x in ps[i].contributors &&
            x !in Authors(ps[..i + 1], governanceStage)
  {
    var init := ps[..|ps| - 1];
    if x in Coproposers(init, governanceStage) {
      i := CoproposerWitness(init, governanceStage, x);
      assert ps[i] == init[i] && ps[..i + 1] == init[..i + 1];
    } else {
      i := |ps| - 1;
      assert ps[..i + 1] == ps;
    }
  }

  /** Such a contribution makes x a co-proposer of every longer list. */
  lemma {:induction false} CoproposerFromWitness(ps: seq<Proposal>, governanceStage: string, x: int, i: nat)
    requires i < |ps| && IsActive(ps[i], governanceStage) && x in ps[i].contributors &&
             x !in Authors(ps[..i + 1], governanceStage)
    ensures x in Coproposers(ps, governanceStage)
  {
    var init := ps[..|ps| - 1];
    if i < |init| {
      assert init[i] == ps[i] && init[..i + 1] == ps[..i + 1];
      CoproposerFromWitness(init, governanceStage, x, i);
    } else {
      assert ps[..i + 1] == ps;
    }
  }

  /**
   * Membership in Coproposers: some active proposal lists x as a contributor while x is not
   * the author of that proposal or of any active proposal before it.
   */
  lemma CoproposersMeaning(ps: seq<Proposal>, governanceStage: string, x: int)
    ensures x in Coproposers(ps, governanceStage) <==>
            exists i :: 0 <= i < |ps| && IsActive(ps[i], governanceStage) && x in ps[i].contributors &&
                        x !in Authors(ps[..i + 1], governanceStage)
  {
    if x in Coproposers(ps, governanceStage) {
      var i := CoproposerWitness(ps, governanceStage, x);
    }
    if exists i :: 0 <= i < |ps| && IsActive(ps[i], governanceStage) && x in ps[i].contributors &&
                   x !in Authors(ps[..i + 1], governanceStage) {
      var i :| 0 <= i < |ps| && IsActive(ps[i], governanceStage) && x in ps[i].contributors &&
               x !in Authors(ps[..i + 1], governanceStage);
      CoproposerFromWitness(ps, governanceStage, x, i);
    }
  }

  /** A proposal outside the governance stage changes neither the count, the funds nor the authors. */
  lemma {:induction false} InactiveIgnored(a: seq<Proposal>, p: Proposal, b: seq<Proposal>, governanceStage: string)
    requires !IsActive(p, governanceStage)
    ensures ActiveCount(a + [p] + b, governanceStage) == ActiveCount(a + b, governanceStage)
    ensures Funds(a + [p] + b, governanceStage) == Funds(a + b, governanceStage)
    ensures Authors(a + [p] + b, governanceStage) == Authors(a + b, governanceStage)
  {
    if b == [] {
      assert a + [p] + b == a + [p] && (a + [p])[..|a|] == a;
      assert a + b == a;
    } else {
      var b' := b[..|b| - 1];
      InactiveIgnored(a, p, b', governanceStage);
      assert (a + [p] + b)[..|a + [p] + b| - 1] == a + [p] + b';
      assert (a + b)[..|a + b| - 1] == a + b';
    }
  }

  /** Nor does it change the co-proposers. */
  lemma {:induction false} InactiveIgnoredCoproposers(a: seq<Proposal>, p: Proposal, b: seq<Proposal>,
                                                      governanceStage: string)
    requires !IsActive(p, governanceStage)
    ensures Coproposers(a + [p] + b, governanceStage) == Coproposers(a + b, governanceStage)
  {
    if b == [] {
      assert a + [p] + b == a + [p] && (a + [p])[..|a|] == a;
      assert a + b == a;
    } else {
      var b' := b[..|b| - 1];
      InactiveIgnoredCoproposers(a, p, b', governanceStage);
      InactiveIgnored(a, p, b, governanceStage);
      assert (a + [p] + b)[..|a + [p] + b| - 1] == a + [p] + b';
      assert (a + b)[..|a + b| - 1] == a + b';
    }
  }

  /** A subset is no larger than its superset: the superset is the subset plus a disjoint rest. */
  lemma SubsetCardinality(small: set<int>, large: set<int>)
    requires small <= large
    ensures |small| <= |large|
  {
    assert large == small + (large - small);
    assert small * (large - small) == {};
  }

  /**
   * "Proposers + Co-proposers (unique)" counts the union: no more than the two counts added,
   * and no fewer than either.
   */
  lemma ProposerCountBounds(proposers: set<int>, coproposers: set<int>)
    ensures |proposers + coproposers| <= |proposers| + |coproposers|
    ensures |proposers| <= |proposers + coproposers| && |coproposers| <= |proposers + coproposers|
  {
    SubsetCardinality(proposers, proposers + coproposers);
    SubsetCardinality(coproposers, proposers + coproposers);
  }

  /**
   * Proposers and co-proposers can overlap: a contributor of an active proposal who is not yet
   * an author there and who authors a later active proposal is counted in both, so the union
   * is smaller than the sum.
   */
  lemma ProposersOverlap(ps: seq<Proposal>, governanceStage: string, x: int, i: nat, j: nat)
    requires i < j < |ps|
    requires IsActive(ps[i], governanceStage) && x in ps[i].contributors &&
             x !in Authors(ps[..i + 1], governanceStage)
    requires IsActive(ps[j], governanceStage) && ps[j].authorId == x
    ensures x in Authors(ps, governanceStage) && x in Coproposers(ps, governanceStage)
    ensures |Authors(ps, governanceStage) + Coproposers(ps, governanceStage)| <
            |Authors(ps, governanceStage)| + |Coproposers(ps, governanceStage)|
  {
    var authors, coproposers := Authors(ps, governanceStage), Coproposers(ps, governanceStage);
    AuthorsMeaning(ps, governanceStage, x);
    CoproposersMeaning(ps, governanceStage, x);
    var rest := coproposers - {x};
    assert authors + coproposers == authors + rest;
    assert |coproposers| == |rest| + 1;
    ProposerCountBounds(authors, rest);
  }

  // ----- the report -----

  /** A challenge's column of the `innovation_baseline` report. */
  datatype InnovationRow = InnovationRow(title: string, insights: int, ideas: int, archived: int,
                                         proposals: int, proposers: nat, coproposers: nat,
                                         allProposers: nat, totalAsk: int)

  /** Stage statistics scanned for the first n challenges, in scan order. */
  function InnovationHistory(challenges: seq<ChallengeRef>, campaignById: int -> Campaign, n: nat): seq<StageStat>
    requires n <= |challenges|
  {
    if n == 0 then []
    else InnovationHistory(challenges, campaignById, n - 1) + campaignById(challenges[n - 1].id).stageStatistics
  }

  /**
   * A challenge's column from its resolved counters and its proposals: Ideas is archived plus
   * governance, Proposals the governance count, then the proposer counts and the total ask.
   */
  function Column(title: string, k: ResolvedCounts, ps: seq<Proposal>, governanceStage: string): InnovationRow {
    var authors := Authors(ps, governanceStage);
    var coproposers := Coproposers(ps, governanceStage);
    InnovationRow(title, k.insights, k.archive + k.governance, k.archive, k.governance,
                  |authors|, |coproposers|, |authors + coproposers|, Funds(ps, governanceStage))
  }

  /** What the column of challenge i should hold, or the error reading its counters raises. */
  function ExpectedInnovationRow(challenges: seq<ChallengeRef>, campaignById: int -> Campaign,
                                 proposalsById: int -> seq<Proposal>, governanceStage: string, i: nat)
    : Result<InnovationRow, CommandError>
    requires i < |challenges|
  {
    var ps := proposalsById(challenges[i].id);
    match Resolve(CountsOf(InnovationHistory(challenges, campaignById, i + 1), governanceStage), governanceStage)
    case Failure(e) => Failure(e)
    case Success(k) => Success(Column(challenges[i].title, k, ps, governanceStage))
  }

  /** The columns the report calls for, challenge by challenge. */
  function InnovationRows(challenges: seq<ChallengeRef>, campaignById: int -> Campaign,
                          proposalsById: int -> seq<Proposal>, governanceStage: string)
    : (rows: seq<Result<InnovationRow, CommandError>>)
    ensures |rows| == |challenges|
    ensures forall i :: 0 <= i < |challenges| ==>
              rows[i] == ExpectedInnovationRow(challenges, campaignById, proposalsById, governanceStage, i)
  {
    seq(|challenges|, i requires 0 <= i < |challenges| =>
          ExpectedInnovationRow(challenges, campaignById, proposalsById, governanceStage, i))
  }

  /** One iteration of the loop over challenges: its column and the counters after it. */
  method InnovationBaselineRow(challenges: seq<ChallengeRef>, campaignById: int -> Campaign,
                               proposalsById: int -> seq<Proposal>, governanceStage: string,
                               i: nat, counts: StageCounts)
    returns (next: StageCounts, row: Result<InnovationRow, CommandError>)
    requires i < |challenges|
    requires counts == CountsOf(InnovationHistory(challenges, campaignById, i), governanceStage)
    ensures next == CountsOf(InnovationHistory(challenges, campaignById, i + 1), governanceStage)
    ensures row == ExpectedInnovationRow(challenges, campaignById, proposalsById, governanceStage, i)
  {
    var challenge := challenges[i];
    var fullChallenge := campaignById(challenge.id);
    var proposals := proposalsById(challenge.id);
    var _, funds, proposers, coproposers := AccountProposals(proposals, governanceStage);
    var proposerSet := Elems(proposers);
    var coproposerSet := Elems(coproposers);
    next := ScanStageStats(fullChallenge.stageStatistics, counts, governanceStage,
                           InnovationHistory(challenges, campaignById, i));
    var resolved := Resolve(next, governanceStage);
    if resolved.Failure? {
      return next, Failure(resolved.error);
    }
    var k := resolved.value;
    row := Success(InnovationRow(challenge.title, k.insights, k.archive + k.governance, k.archive, k.governance,
                                 |proposerSet|, |coproposerSet|, |proposerSet + coproposerSet|, funds));
  }

  /**
   * The loop of `innovation_baseline` over the challenges map. The counters carry over from
   * one challenge to the next; funds and the proposer lists start afresh for each.
   */
  method InnovationBaseline(challenges: seq<ChallengeRef>, campaignById: int -> Campaign,
                            proposalsById: int -> seq<Proposal>, governanceStage: string)
    returns (result: Result<seq<InnovationRow>, CommandError>)
    ensures result == Collect(InnovationRows(challenges, campaignById, proposalsById, governanceStage))
  {
    ghost var expected := InnovationRows(challenges, campaignById, proposalsById, governanceStage);
    var rows: seq<InnovationRow> := [];
    var counts := StageCounts(None, None, None);
    var i := 0;
    while i < |challenges|
      invariant 0 <= i <= |challenges|
      invariant counts == CountsOf(InnovationHistory(challenges, campaignById, i), governanceStage)
      invariant Collect(expected[..i]) == Success(rows)
    {
      var row;
      counts, row := InnovationBaselineRow(challenges, campaignById, proposalsById, governanceStage, i, counts);
      CollectSnoc(expected, i);
      if row.Failure? {
        CollectStopsAtFailure(expected, i + 1);
        return Failure(row.error);
      }
      rows := rows + [row.value];
      i := i + 1;
    }
    assert expected[..i] == expected;
    return Success(rows);
  }

  /** Every column's Ideas is its archived count plus its Proposals count, and its counts are ordered. */
  lemma InnovationColumnCounts(challenges: seq<ChallengeRef>, campaignById: int -> Campaign,
                               proposalsById: int -> seq<Proposal>, governanceStage: string, i: nat)
    requires i < |challenges|
    requires ExpectedInnovationRow(challenges, campaignById, proposalsById, governanceStage, i).Success?
    ensures var row := ExpectedInnovationRow(challenges, campaignById, proposalsById, governanceStage, i).value;
            row.ideas == row.archived + row.proposals &&
            row.proposers <= row.allProposers <= row.proposers + row.coproposers &&
            row.coproposers <= row.allProposers
  {
    var ps := proposalsById(challenges[i].id);
    ProposerCountBounds(Authors(ps, governanceStage), Coproposers(ps, governanceStage));
  }
}
