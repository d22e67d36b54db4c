/**
  The customer timeline: the positions of one customer's offer events
  (everything but transactions), in log order. The scan walks this
  sequence; `Prev` names, for any row, the customer's offer event that
  immediately precedes it.
*/
module Timelines {
  import opened Wrappers
  import opened Events

  /**
    The positions below `n` that hold offer events of customer `p`,
    ascending: exactly the rows a boolean mask on person and
    non-transaction keeps, in the table's order.
  */
  function TimelineBefore(log: seq<Event>, p: PersonId, n: nat): (t: seq<nat>)
    requires n <= |log|
    ensures forall k :: 0 <= k < |t| ==> t[k] < n && IsOfferEventOf(log, p, t[k])
    ensures forall k, k' :: 0 <= k < k' < |t| ==> t[k] < t[k']
  {
    if n == 0 then []
    else TimelineBefore(log, p, n - 1) + (if IsOfferEventOf(log, p, n - 1) then [n - 1] else [])
  }

  /** The timeline misses none of the customer's offer events below the bound. */
  lemma {:induction false} TimelineComplete(log: seq<Event>, p: PersonId, n: nat)
    requires n <= |log|
    ensures forall j :: 0 <= j < n && IsOfferEventOf(log, p, j) ==> j in TimelineBefore(log, p, n)
  {
    if n > 0 {
      TimelineComplete(log, p, n - 1);
    }
  }

  /** The whole timeline of customer `p`. */
  function Timeline(log: seq<Event>, p: PersonId): seq<nat>
  {
    TimelineBefore(log, p, |log|)
  }

  /**
    The offer event of row `j`'s customer that comes last before `j`, if
    any: no offer event of that customer lies strictly between the two.
  */
  function Prev(log: seq<Event>, j: nat): (r: Option<nat>)
    requires j < |log|
    ensures r.Some? ==> r.value < j && IsOfferEventOf(log, log[j].person, r.value)
  {
    var t := TimelineBefore(log, log[j].person, j);
    if |t| == 0 then None else Some(t[|t| - 1])
  }

  /**
    The previous offer event is the latest one: none of the customer's
    offer events lies strictly between it and `j`, and there is none at all
    before `j` when it is absent.
  */
  lemma PrevIsLatest(log: seq<Event>, j: nat)
    requires j < |log|
    ensures Prev(log, j).Some? ==> forall i :: Prev(log, j).value < i < j ==> !IsOfferEventOf(log, log[j].person, i)
    ensures Prev(log, j).None? ==> forall i :: 0 <= i < j ==> !IsOfferEventOf(log, log[j].person, i)
  {
    var p := log[j].person;
    var t := TimelineBefore(log, p, j);
    TimelineComplete(log, p, j);
    forall i | 0 <= i < j && IsOfferEventOf(log, p, i)
      ensures |t| > 0 && i <= t[|t| - 1]
    {
      var k :| 0 <= k < |t| && t[k] == i;
    }
  }

  /** A timeline up to `m` extends the timeline up to `n <= m` with positions at or after `n` only. */
  lemma {:induction false} TimelineExtends(log: seq<Event>, p: PersonId, n: nat, m: nat)
    requires n <= m <= |log|
    ensures |TimelineBefore(log, p, n)| <= |TimelineBefore(log, p, m)|
    ensures TimelineBefore(log, p, m)[..|TimelineBefore(log, p, n)|] == TimelineBefore(log, p, n)
    ensures forall k :: |TimelineBefore(log, p, n)| <= k < |TimelineBefore(log, p, m)| ==> TimelineBefore(log, p, m)[k] >= n
  {
    if n < m {
      TimelineExtends(log, p, n, m - 1);
      var a, b := TimelineBefore(log, p, n), TimelineBefore(log, p, m - 1);
      assert TimelineBefore(log, p, m)[..|b|] == b;
    }
  }

  /** The events before the `k`-th timeline entry are exactly the first `k` entries. */
  lemma TimelineAt(log: seq<Event>, p: PersonId, k: nat)
    requires k < |Timeline(log, p)|
    ensures TimelineBefore(log, p, Timeline(log, p)[k]) == Timeline(log, p)[..k]
  {
    var tl := Timeline(log, p);
    var c := tl[k];
    TimelineExtends(log, p, c, |log|);
    var a := TimelineBefore(log, p, c);
    assert forall i :: 0 <= i < |a| ==> tl[i] == a[i] < c;
    assert |a| <= k;
    assert tl[|a|] >= c;
    assert |a| == k;
  }

  /**
    The source's pointer arithmetic: the predecessor of the `k`-th timeline
    entry is entry `k - 1`, and the first entry has none.
  */
  lemma PrevInTimeline(log: seq<Event>, p: PersonId, k: nat)
    requires k < |Timeline(log, p)|
    ensures log[Timeline(log, p)[k]].person == p
    ensures Prev(log, Timeline(log, p)[k]) == if k == 0 then None else Some(Timeline(log, p)[k - 1])
  {
    TimelineAt(log, p, k);
  }

  /** Every offer event of a customer sits at some position of that customer's timeline. */
  lemma TimelinePosition(log: seq<Event>, j: nat) returns (k: nat)
    requires j < |log| && IsOfferEventOf(log, log[j].person, j)
    ensures k < |Timeline(log, log[j].person)| && Timeline(log, log[j].person)[k] == j
  {
    var tl := Timeline(log, log[j].person);
    TimelineComplete(log, log[j].person, |log|);
    assert j in tl;
    k :| 0 <= k < |tl| && tl[k] == j;
  }
}
