/**
  Properties of the attribution columns that relate several rows or
  several logs: windows of one customer never overlap, rows outside any
  match keep their defaults, and a customer's columns depend on that
  customer's rows alone.
*/
module AttributionProperties {
  import opened Wrappers
  import opened Events
  import opened Timelines
  import opened Attribution
  import opened Windows
  import opened Transcripts

  /**
    Two attributed completions of one customer have disjoint windows: the
    later one's view comes after the earlier completion, because the view
    must be the later completion's immediate predecessor.
  */
  lemma WindowsDisjoint(log: seq<Event>, c1: nat, c2: nat)
    requires c1 < c2 < |log| && log[c1].person == log[c2].person
    requires CompletedAndViewed(log, c1) && CompletedAndViewed(log, c2)
    ensures c1 < ViewedOf(log, c2)
  {
    PrevIsLatest(log, c2);
    assert IsOfferEventOf(log, log[c2].person, c1);
  }

  /**
    Hence a transaction lies in the window of at most one completion, and
    the source's missing de-duplication across windows never matters.
  */
  lemma InfluencingCompletionUnique(log: seq<Event>, c1: nat, c2: nat, t: nat)
    requires c1 < |log| && c2 < |log| && t < |log|
    requires InWindow(log, c1, t) && InWindow(log, c2, t)
    ensures c1 == c2
  {
    if c1 < c2 {
      WindowsDisjoint(log, c1, c2);
    } else if c2 < c1 {
      WindowsDisjoint(log, c2, c1);
    }
  }

  /**
    An influenced transaction adds its amount and 1 to the totals of the
    completion whose window holds it.
  */
  lemma InfluencedCounted(log: seq<Event>, c: nat, t: nat)
    requires c < |log| && t < |log|
    requires InWindow(log, c, t) && log[t].kind == Transaction
    ensures InfluencedTransaction(log, t)
    ensures CompletedReturn(log, c) ==
      WindowSum(log, log[c].person, ViewedOf(log, c), t) + log[t].amount + WindowSum(log, log[c].person, t + 1, c + 1)
    ensures CompletedQty(log, c) ==
      WindowCount(log, log[c].person, ViewedOf(log, c), t) + 1 + WindowCount(log, log[c].person, t + 1, c + 1)
  {
    var p, v := log[c].person, ViewedOf(log, c);
    WindowSplit(log, p, v, t, c + 1);
    WindowSplit(log, p, t, t + 1, c + 1);
  }

  /**
    Rows that no match touches keep the defaults: only attributed
    completions carry a return or a count, only transactions are
    influenced, only receipts are flagged received, and the net return of
    an unattributed row is minus its (filled) reward.
  */
  lemma DefaultsOutsideMatches(log: seq<Event>, j: nat)
    requires j < |log|
    ensures !CompletedAndViewed(log, j) ==> CompletedReturn(log, j) == 0 && CompletedQty(log, j) == 0
    ensures !CompletedAndViewed(log, j) ==> NetReturn(log, j) == -RewardOrZero(log[j])
    ensures log[j].kind != Transaction ==> !InfluencedTransaction(log, j)
    ensures log[j].kind != Received ==> !ReceivedAndCompleted(log, j)
    ensures log[j].kind != Completed ==> StatusOf(log, j).completedAndViewed == false
  {
  }

  /**
    A completion that is its customer's first offer event is never
    matched: all of its columns keep their initial values.
  */
  lemma FirstCompletionUnmatched(log: seq<Event>, c: nat)
    requires c < |log| && log[c].kind == Completed && Prev(log, c) == None
    ensures StatusOf(log, c) == INITIAL
    ensures NetReturn(log, c) == -RewardOrZero(log[c])
  {
  }

  /** Two logs that hold the same rows of customer `p` at the same positions. */
  predicate SameCustomerRows(log1: seq<Event>, log2: seq<Event>, p: PersonId)
  {
    |log1| == |log2| &&
    (forall i :: 0 <= i < |log1| ==> (log1[i].person == p <==> log2[i].person == p)) &&
    (forall i :: 0 <= i < |log1| && log1[i].person == p ==> log1[i] == log2[i])
  }

  lemma {:induction false} TimelineLocal(log1: seq<Event>, log2: seq<Event>, p: PersonId, n: nat)
    requires SameCustomerRows(log1, log2, p) && n <= |log1|
    ensures TimelineBefore(log1, p, n) == TimelineBefore(log2, p, n)
  {
    if n > 0 {
      TimelineLocal(log1, log2, p, n - 1);
      assert IsOfferEventOf(log1, p, n - 1) == IsOfferEventOf(log2, p, n - 1);
    }
  }

  lemma {:induction false} WindowLocal(log1: seq<Event>, log2: seq<Event>, p: PersonId, lo: nat, hi: nat)
    requires SameCustomerRows(log1, log2, p) && hi <= |log1|
    ensures WindowSum(log1, p, lo, hi) == WindowSum(log2, p, lo, hi)
    ensures WindowCount(log1, p, lo, hi) == WindowCount(log2, p, lo, hi)
    decreases hi
  {
    if lo < hi {
      WindowLocal(log1, log2, p, lo, hi - 1);
      assert IsTransactionOf(log1, p, hi - 1) == IsTransactionOf(log2, p, hi - 1);
    }
  }

  /** The match columns of a row of `p` depend only on `p`'s rows. */
  lemma MatchLocal(log1: seq<Event>, log2: seq<Event>, p: PersonId, c: nat)
    requires SameCustomerRows(log1, log2, p) && c < |log1| && log1[c].person == p
    ensures CompletedAndViewed(log1, c) == CompletedAndViewed(log2, c)
    ensures CompletedAndViewed(log1, c) ==> ViewedOf(log1, c) == ViewedOf(log2, c)
    ensures ReceiptOf(log1, c) == ReceiptOf(log2, c)
    ensures CompletedReturn(log1, c) == CompletedReturn(log2, c)
    ensures CompletedQty(log1, c) == CompletedQty(log2, c)
  {
    TimelineLocal(log1, log2, p, c);
    assert Prev(log1, c) == Prev(log2, c);
    if CompletedAndViewed(log1, c) {
      var v := ViewedOf(log1, c);
      TimelineLocal(log1, log2, p, v);
      assert Prev(log1, v) == Prev(log2, v);
      WindowLocal(log1, log2, p, v, c + 1);
    }
  }

  lemma ReceivedLocal(log1: seq<Event>, log2: seq<Event>, p: PersonId, j: nat)
    requires SameCustomerRows(log1, log2, p) && j < |log1| && log1[j].person == p
    ensures ReceivedAndCompleted(log1, j) == ReceivedAndCompleted(log2, j)
  {
    if ReceivedAndCompleted(log1, j) {
      var c :| 0 <= c < |log1| && ReceiptOf(log1, c) == Some(j);
      MatchLocal(log1, log2, p, c);
    }
    if ReceivedAndCompleted(log2, j) {
      var c :| 0 <= c < |log2| && ReceiptOf(log2, c) == Some(j);
      MatchLocal(log1, log2, p, c);
    }
  }

  lemma InfluencedLocal(log1: seq<Event>, log2: seq<Event>, p: PersonId, j: nat)
    requires SameCustomerRows(log1, log2, p) && j < |log1| && log1[j].person == p
    ensures InfluencedTransaction(log1, j) == InfluencedTransaction(log2, j)
  {
    if InfluencedTransaction(log1, j) {
      var c :| 0 <= c < |log1| && InWindow(log1, c, j);
      MatchLocal(log1, log2, p, c);
      assert InWindow(log2, c, j);
    }
    if InfluencedTransaction(log2, j) {
      var c :| 0 <= c < |log2| && InWindow(log2, c, j);
      MatchLocal(log1, log2, p, c);
      assert InWindow(log1, c, j);
    }
  }

  /**
    Processing one customer reads only that customer's rows: two logs that
    agree on `p`'s rows give every row of `p` the same columns and net
    return, whatever the other customers' rows hold.
  */
  lemma AttributionIsPerCustomer(log1: seq<Event>, log2: seq<Event>, p: PersonId, j: nat)
    requires SameCustomerRows(log1, log2, p) && j < |log1| && log1[j].person == p
    ensures StatusOf(log1, j) == StatusOf(log2, j)
    ensures NetReturn(log1, j) == NetReturn(log2, j)
  {
    MatchLocal(log1, log2, p, j);
    ReceivedLocal(log1, log2, p, j);
    InfluencedLocal(log1, log2, p, j);
  }
}
