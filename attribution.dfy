/**
  What the offer-attribution scan computes, column by column, stated
  directly on the log: one function per derived column of the transcript
  (received_and_completed, completed_and_viewed, influenced_transaction,
  completed_transaction_return, completed_transaction_qty, net_return).
  The imperative scan in module Transcripts is proved to fill the table
  with exactly these values.
*/
module Attribution {
  import opened Wrappers
  import opened Events
  import opened Timelines

  /**
    A completed offer is attributed to a view when the customer's offer
    event immediately before it is a view of the same offer (strict
    adjacency: a view further back does not count).
  */
  predicate CompletedAndViewed(log: seq<Event>, c: nat)
    requires c < |log|
  {
    log[c].kind == Completed &&
    match Prev(log, c)
    case None => false
    case Some(v) => log[v].kind == Viewed && log[v].offer == log[c].offer
  }

  /** The view an attributed completion is matched with: its immediate predecessor. */
  function ViewedOf(log: seq<Event>, c: nat): (v: nat)
    requires c < |log| && CompletedAndViewed(log, c)
    ensures v < c && log[v].person == log[c].person
    ensures log[v].kind == Viewed && log[v].offer == log[c].offer
  {
    Prev(log, c).value
  }

  /**
    The receipt an attributed completion traces back to: the customer's
    offer event just before the matched view, when it is a receipt of the
    same offer. There is none when the view is the customer's first offer
    event (this is the corrected boundary rule; see ReceiptLookupAsWritten
    in module AsWrittenLookback for the code as written).
  */
  function ReceiptOf(log: seq<Event>, c: nat): (r: Option<nat>)
    requires c < |log|
    ensures r.Some? ==> CompletedAndViewed(log, c)
    ensures r.Some? ==> r.value < ViewedOf(log, c) && log[r.value].person == log[c].person
    ensures r.Some? ==> log[r.value].kind == Received && log[r.value].offer == log[c].offer
    ensures r.Some? ==> Prev(log, ViewedOf(log, c)) == r
  {
    if !CompletedAndViewed(log, c) then None
    else
      match Prev(log, ViewedOf(log, c))
      case None => None
      case Some(x) => if log[x].kind == Received && log[x].offer == log[c].offer then Some(x) else None
  }

  /** received_and_completed: some attributed completion traces back to receipt `r`. */
  predicate ReceivedAndCompleted(log: seq<Event>, r: nat)
    requires r < |log|
  {
    exists c :: 0 <= c < |log| && ReceiptOf(log, c) == Some(r)
  }

  /** Row `t` lies in the influence window [view, completion] of attributed completion `c`. */
  predicate InWindow(log: seq<Event>, c: nat, t: nat)
    requires c < |log| && t < |log|
  {
    CompletedAndViewed(log, c) && log[c].person == log[t].person && ViewedOf(log, c) <= t <= c
  }

  /**
    influenced_transaction: a transaction that lies in the influence window
    of at least one attributed completion of the same customer.
  */
  predicate InfluencedTransaction(log: seq<Event>, t: nat)
    requires t < |log|
  {
    log[t].kind == Transaction && exists c :: 0 <= c < |log| && InWindow(log, c, t)
  }

  /** Sum of the amounts of customer `p`'s transactions at positions lo <= t < hi. */
  function WindowSum(log: seq<Event>, p: PersonId, lo: nat, hi: nat): int
    requires hi <= |log|
    decreases hi
  {
    if hi <= lo then 0
    else WindowSum(log, p, lo, hi - 1) + (if IsTransactionOf(log, p, hi - 1) then log[hi - 1].amount else 0)
  }

  /** Number of customer `p`'s transactions at positions lo <= t < hi. */
  function WindowCount(log: seq<Event>, p: PersonId, lo: nat, hi: nat): nat
    requires hi <= |log|
    decreases hi
  {
    if hi <= lo then 0
    else WindowCount(log, p, lo, hi - 1) + (if IsTransactionOf(log, p, hi - 1) then 1 else 0)
  }

  /** completed_transaction_return: the amount the customer spent inside the closed window [view, completion]. */
  function CompletedReturn(log: seq<Event>, c: nat): int
    requires c < |log|
  {
    if CompletedAndViewed(log, c) then WindowSum(log, log[c].person, ViewedOf(log, c), c + 1) else 0
  }

  /** completed_transaction_qty: the number of the customer's transactions inside [view, completion]. */
  function CompletedQty(log: seq<Event>, c: nat): nat
    requires c < |log|
  {
    if CompletedAndViewed(log, c) then WindowCount(log, log[c].person, ViewedOf(log, c), c + 1) else 0
  }

  /** net_return: the completion's return less its reward, a missing reward counting as 0. */
  function NetReturn(log: seq<Event>, j: nat): int
    requires j < |log|
  {
    CompletedReturn(log, j) - RewardOrZero(log[j])
  }
}
