/**
  Facts about the influence-window aggregates, and the prefix-sum
  alternative to re-filtering the log for every window: one pass per
  customer builds running totals, after which every window's amount total
  and transaction count is a difference of two entries.
*/
module Windows {
  import opened Events
  import opened Attribution

  /** The customer's transactions at positions lo <= t < hi. */
  function TransactionsIn(log: seq<Event>, p: PersonId, lo: nat, hi: nat): set<nat>
  {
    set t: nat | lo <= t < hi && IsTransactionOf(log, p, t)
  }

  /** The window count is the number of the customer's transactions in the window. */
  lemma {:induction false} WindowCountIsCardinality(log: seq<Event>, p: PersonId, lo: nat, hi: nat)
    requires hi <= |log|
    ensures WindowCount(log, p, lo, hi) == |TransactionsIn(log, p, lo, hi)|
    decreases hi
  {
    if hi <= lo {
      assert TransactionsIn(log, p, lo, hi) == {};
    } else {
      WindowCountIsCardinality(log, p, lo, hi - 1);
      if IsTransactionOf(log, p, hi - 1) {
        assert TransactionsIn(log, p, lo, hi) == TransactionsIn(log, p, lo, hi - 1) + {hi - 1};
      } else {
        assert TransactionsIn(log, p, lo, hi) == TransactionsIn(log, p, lo, hi - 1);
      }
    }
  }

  /** A window splits at any inner position into two windows whose totals add up. */
  lemma {:induction false} WindowSplit(log: seq<Event>, p: PersonId, lo: nat, mid: nat, hi: nat)
    requires lo <= mid <= hi <= |log|
    ensures WindowSum(log, p, lo, hi) == WindowSum(log, p, lo, mid) + WindowSum(log, p, mid, hi)
    ensures WindowCount(log, p, lo, hi) == WindowCount(log, p, lo, mid) + WindowCount(log, p, mid, hi)
    decreases hi
  {
    if mid < hi {
      WindowSplit(log, p, lo, mid, hi - 1);
    }
  }

  /**
    Running totals of customer `p`'s transaction amounts and counts:
    entry k covers positions 0 <= t < k.
  */
  method PrefixTotals(log: seq<Event>, p: PersonId) returns (sums: seq<int>, counts: seq<nat>)
    ensures |sums| == |log| + 1 && |counts| == |log| + 1
    ensures forall k :: 0 <= k <= |log| ==> sums[k] == WindowSum(log, p, 0, k) && counts[k] == WindowCount(log, p, 0, k)
  {
    sums, counts := [0], [0];
    var sum, count := 0, 0;
    for k := 0 to |log|
      invariant |sums| == k + 1 && |counts| == k + 1
      invariant sum == WindowSum(log, p, 0, k) && count == WindowCount(log, p, 0, k)
      invariant forall i :: 0 <= i <= k ==> sums[i] == WindowSum(log, p, 0, i) && counts[i] == WindowCount(log, p, 0, i)
    {
      if log[k].person == p && log[k].kind == Transaction {
        sum, count := sum + log[k].amount, count + 1;
      }
      sums, counts := sums + [sum], counts + [count];
    }
  }

  /**
    completed_transaction_return and completed_transaction_qty of row `c`
    read off running totals that PrefixTotals built once for the row's
    customer: two subtractions instead of re-filtering the window, with the
    same values as the source's range filter.
  */
  method CompletedTotals(log: seq<Event>, c: nat, sums: seq<int>, counts: seq<nat>) returns (ret: int, qty: nat)
    requires c < |log|
    requires |sums| == |log| + 1 && |counts| == |log| + 1
    requires forall k :: 0 <= k <= |log| ==>
      sums[k] == WindowSum(log, log[c].person, 0, k) && counts[k] == WindowCount(log, log[c].person, 0, k)
    ensures ret == CompletedReturn(log, c) && qty == CompletedQty(log, c)
  {
    if !CompletedAndViewed(log, c) {
      return 0, 0;
    }
    var p, v := log[c].person, ViewedOf(log, c);
    WindowSplit(log, p, 0, v, c + 1);
    ret := sums[c + 1] - sums[v];
    qty := counts[c + 1] - counts[v];
  }
}
