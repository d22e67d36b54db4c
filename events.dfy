/**
  The cleaned transcript log that the attribution scan works on.

  Each row is one event of one customer. The row's position in the log is
  its global index: positions increase strictly in log order, just as the
  table's labels do after duplicate rows are dropped, so a label range
  [v, c] selects exactly the rows positioned from v to c.
  Money (transaction amounts and offer rewards) is in integer cents.
*/
module Events {
  import opened Wrappers

  type PersonId = string
  type OfferId = string

  /** The four one-hot event columns: exactly one of them is set per row. */
  datatype Kind = Received | Viewed | Completed | Transaction

  /**
    One row of the transcript. `offer` is meaningful for received, viewed
    and completed events, `amount` for transactions; `reward` is present
    only where the raw record carried one (completed offers).
  */
  datatype Event = Event(person: PersonId, kind: Kind, offer: OfferId, amount: int, reward: Option<int>)

  /** The reward with a missing value filled as 0. */
  function RewardOrZero(e: Event): (r: int)
    ensures e.reward.None? ==> r == 0
    ensures e.reward.Some? ==> r == e.reward.value
  {
    match e.reward
    case None => 0
    case Some(x) => x
  }

  /** Row `j` is an offer event (received, viewed or completed) of customer `p`. */
  predicate IsOfferEventOf(log: seq<Event>, p: PersonId, j: int)
  {
    0 <= j < |log| && log[j].person == p && log[j].kind != Transaction
  }

  /** Row `t` is a transaction of customer `p`. */
  predicate IsTransactionOf(log: seq<Event>, p: PersonId, t: int)
  {
    0 <= t < |log| && log[t].person == p && log[t].kind == Transaction
  }
}
