/**
 * `assign_challenges`: every row of the input table gets a Challenge column, first set to
 * the empty string for all rows and then, row by row, written with the title of the challenge
 * its proposal belongs to, found by two first-match lookups.
 */
module Assign {
  import opened Wrappers
  import opened Sequences
  import opened Rows

  /** The first proposal whose id is `id`. */
  function ProposalById(proposals: seq<Proposal>, id: int): Option<Proposal> {
    FirstWhere(proposals, (p: Proposal) => p.id == id)
  }

  /** The first challenge whose id is `category`. */
  function ChallengeByCategory(challenges: seq<ChallengeRef>, category: int): Option<ChallengeRef> {
    FirstWhere(challenges, (c: ChallengeRef) => c.id == category)
  }

  /**
   * The challenge a proposal id leads to: the first challenge whose id is the category of the
   * first proposal with that id; none when either lookup finds nothing.
   */
  function ChallengeOf(proposals: seq<Proposal>, challenges: seq<ChallengeRef>, proposalId: int)
    : Option<ChallengeRef>
  {
    match ProposalById(proposals, proposalId)
    case None => None
    case Some(p) => ChallengeByCategory(challenges, p.category)
  }

  /**
   * What ChallengeOf finds: a challenge exactly when the first proposal with the id exists and
   * some challenge has its category, and then the first such challenge.
   */
  lemma ChallengeOfFirstMatch(proposals: seq<Proposal>, challenges: seq<ChallengeRef>, proposalId: int)
    ensures ChallengeOf(proposals, challenges, proposalId).Some? <==>
              exists i, j :: 0 <= i < |proposals| && proposals[i].id == proposalId &&
                             (forall k :: 0 <= k < i ==> proposals[k].id != proposalId) &&
                             0 <= j < |challenges| && challenges[j].id == proposals[i].category
    ensures ChallengeOf(proposals, challenges, proposalId).Some? ==>
              exists i, j :: 0 <= i < |proposals| && proposals[i].id == proposalId &&
                             (forall k :: 0 <= k < i ==> proposals[k].id != proposalId) &&
                             0 <= j < |challenges| && challenges[j] == ChallengeOf(proposals, challenges, proposalId).value &&
                             ChallengeOf(proposals, challenges, proposalId).value.id == proposals[i].category &&
                             (forall k :: 0 <= k < j ==> challenges[k].id != proposals[i].category)
  {
    FirstWhereMeaning(proposals, (p: Proposal) => p.id == proposalId);
    var proposal := ProposalById(proposals, proposalId);
    if proposal.Some? {
      FirstWhereMeaning(challenges, (c: ChallengeRef) => c.id == proposal.value.category);
    }
  }

  /** The title written into a row's Challenge column, or the empty string it starts with. */
  function AssignedTitle(proposals: seq<Proposal>, challenges: seq<ChallengeRef>, proposalId: int): string {
    match ChallengeOf(proposals, challenges, proposalId)
    case None => ""
    case Some(c) => c.title
  }

  /** `entities['Challenge'] = ''`: the column is added, empty, to every row. */
  method ClearChallenges(entities: array<Entity>)
    modifies entities
    ensures forall i :: 0 <= i < entities.Length ==>
              entities[i].proposalId == old(entities[i].proposalId) &&
              entities[i].columns == old(entities[i].columns) && entities[i].challenge == ""
  {
    var n := 0;
    while n < entities.Length
      invariant 0 <= n <= entities.Length
      invariant forall i :: 0 <= i < entities.Length ==>
                  entities[i].proposalId == old(entities[i].proposalId) &&
                  entities[i].columns == old(entities[i].columns)
      invariant forall i :: 0 <= i < n ==> entities[i].challenge == ""
    {
      entities[n] := entities[n].(challenge := "");
      n := n + 1;
    }
  }

  /**
   * The whole command on the table held in `entities`: the number of rows and every other
   * column stay as they were; each row's Challenge becomes the title its proposal id leads to.
   */
  method AssignChallenges(entities: array<Entity>, proposals: seq<Proposal>, challenges: seq<ChallengeRef>)
    modifies entities
    ensures forall i :: 0 <= i < entities.Length ==>
              entities[i].proposalId == old(entities[i].proposalId) &&
              entities[i].columns == old(entities[i].columns) &&
              entities[i].challenge == AssignedTitle(proposals, challenges, entities[i].proposalId)
  {
    ghost var before := entities[..];
    ghost var titles := seq(|before|, i requires 0 <= i < |before| =>
                              AssignedTitle(proposals, challenges, before[i].proposalId));
    ClearChallenges(entities);
    var index := 0;
    while index < entities.Length
      invariant 0 <= index <= entities.Length
      invariant forall i :: 0 <= i < entities.Length ==>
                  entities[i].proposalId == before[i].proposalId && entities[i].columns == before[i].columns
      invariant forall i :: 0 <= i < index ==> entities[i].challenge == titles[i]
      invariant forall i :: index <= i < entities.Length ==> entities[i].challenge == ""
    {
      var row := entities[index];
      var challenge := ChallengeOf(proposals, challenges, row.proposalId);
      if challenge.Some? {
        entities[index] := row.(challenge := challenge.value.title);
      }
      index := index + 1;
    }
  }
}
