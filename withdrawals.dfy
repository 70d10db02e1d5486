/**
 * The withdrawal filter every local-data command applies first:
 * `rows[~rows['proposal_id'].isin(withdrawals_ids)]`.
 */
module Withdrawals {
  import opened Sequences
  import opened Rows

  function NotWithdrawn<R>(proposalId: R -> int, withdrawals: seq<int>): R -> bool {
    r => proposalId(r) !in withdrawals
  }

  /** The rows whose proposal id is not in the withdrawals list, in their original order. */
  function WithoutWithdrawn<R>(rows: seq<R>, proposalId: R -> int, withdrawals: seq<int>): (kept: seq<R>)
    ensures |kept| <= |rows|
    ensures forall j :: 0 <= j < |kept| ==> kept[j] in rows && proposalId(kept[j]) !in withdrawals
    ensures forall j :: 0 <= j < |rows| && proposalId(rows[j]) !in withdrawals ==> rows[j] in kept
  {
    Filter(rows, NotWithdrawn(proposalId, withdrawals))
  }

  /** Filtering again with the same list removes nothing more. */
  lemma WithdrawalIdempotent<R>(rows: seq<R>, proposalId: R -> int, withdrawals: seq<int>)
    ensures WithoutWithdrawn(WithoutWithdrawn(rows, proposalId, withdrawals), proposalId, withdrawals)
         == WithoutWithdrawn(rows, proposalId, withdrawals)
  {
    FilterIdempotent(rows, NotWithdrawn(proposalId, withdrawals));
  }

  /** The filter works row by row: on a concatenation it is the concatenation of the filtered parts. */
  lemma WithdrawalKeepsOrder<R>(a: seq<R>, b: seq<R>, proposalId: R -> int, withdrawals: seq<int>)
    ensures WithoutWithdrawn(a + b, proposalId, withdrawals)
         == WithoutWithdrawn(a, proposalId, withdrawals) + WithoutWithdrawn(b, proposalId, withdrawals)
  {
    FilterAppend(a, b, NotWithdrawn(proposalId, withdrawals));
  }

  /** When no row is withdrawn the table is unchanged. */
  lemma NothingWithdrawn<R>(rows: seq<R>, proposalId: R -> int, withdrawals: seq<int>)
    requires forall j :: 0 <= j < |rows| ==> proposalId(rows[j]) !in withdrawals
    ensures WithoutWithdrawn(rows, proposalId, withdrawals) == rows
  {
    FilterKeepsAll(rows, NotWithdrawn(proposalId, withdrawals));
  }
}
