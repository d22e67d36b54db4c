/**
  The offer-status scan of clean_transcript as the source runs it: the
  derived columns start at zero, then for each customer in order of first
  appearance the customer's offer events are scanned for view/completion
  matches, the matches are written back into the table, and finally the
  net return column is computed for every row.
*/
module Transcripts {
  import opened Wrappers
  import opened Events
  import opened Timelines
  import opened Attribution

  /** An entry of the source's match lists: [index of the completion, index of the earlier event]. */
  datatype Link = Link(completed: nat, earlier: nat)

  /** The five offer-status columns of one row. */
  datatype OfferStatus = OfferStatus(
    receivedAndCompleted: bool,
    completedAndViewed: bool,
    influencedTransaction: bool,
    completedTransactionReturn: int,
    completedTransactionQty: nat)

  /** The columns as they are created: all zero. */
  const INITIAL := OfferStatus(false, false, false, 0, 0)

  /** The value the scan leaves in row `j`. */
  function StatusOf(log: seq<Event>, j: nat): OfferStatus
    requires j < |log|
  {
    OfferStatus(ReceivedAndCompleted(log, j), CompletedAndViewed(log, j), InfluencedTransaction(log, j),
                CompletedReturn(log, j), CompletedQty(log, j))
  }

  /** The distinct customers of `log[..n]`, in order of first appearance. */
  function PersonsBefore(log: seq<Event>, n: nat): (ps: seq<PersonId>)
    requires n <= |log|
    ensures forall j :: 0 <= j < n ==> log[j].person in ps
    ensures forall q :: q in ps ==> exists j :: 0 <= j < n && log[j].person == q
    ensures forall a, b :: 0 <= a < b < |ps| ==> ps[a] != ps[b]
  {
    if n == 0 then []
    else
      var ps := PersonsBefore(log, n - 1);
      if log[n - 1].person in ps then ps else ps + [log[n - 1].person]
  }

  /** The distinct customers of the log, in order of first appearance. */
  function Persons(log: seq<Event>): seq<PersonId>
  {
    PersonsBefore(log, |log|)
  }

  /** A link of the completed-viewed list: an attributed completion of `p` and its view. */
  predicate IsViewLink(log: seq<Event>, p: PersonId, l: Link)
  {
    l.completed < |log| && log[l.completed].person == p &&
    CompletedAndViewed(log, l.completed) && l.earlier == ViewedOf(log, l.completed)
  }

  /** A link of the completed-viewed-received list: a completion of `p` and the receipt it traces back to. */
  predicate IsReceiptLink(log: seq<Event>, p: PersonId, l: Link)
  {
    l.completed < |log| && log[l.completed].person == p && ReceiptOf(log, l.completed) == Some(l.earlier)
  }

  /** The source's test at timeline position `i`: a completion right after a view of the same offer. */
  predicate ViewTest(log: seq<Event>, index: seq<nat>, i: nat)
    requires i < |index| && forall k :: 0 <= k < |index| ==> index[k] < |log|
  {
    log[index[i]].kind == Completed && i >= 1 &&
    log[index[i - 1]].kind == Viewed && log[index[i - 1]].offer == log[index[i]].offer
  }

  /** The corrected receipt test at position `i`: the view test, and a receipt of the same offer two positions back. */
  predicate ReceiptTest(log: seq<Event>, index: seq<nat>, i: nat)
    requires i < |index| && forall k :: 0 <= k < |index| ==> index[k] < |log|
  {
    ViewTest(log, index, i) && i >= 2 &&
    log[index[i - 2]].kind == Received && log[index[i - 2]].offer == log[index[i]].offer
  }

  /** The view test at a timeline position decides attribution, and the view is the previous entry. */
  lemma ScanPositionView(log: seq<Event>, p: PersonId, i: nat)
    requires i < |Timeline(log, p)|
    ensures CompletedAndViewed(log, Timeline(log, p)[i]) <==> ViewTest(log, Timeline(log, p), i)
    ensures CompletedAndViewed(log, Timeline(log, p)[i]) ==> ViewedOf(log, Timeline(log, p)[i]) == Timeline(log, p)[i - 1]
  {
    PrevInTimeline(log, p, i);
  }

  /** The receipt test at a timeline position finds the traced receipt, two entries back. */
  lemma ScanPositionReceipt(log: seq<Event>, p: PersonId, i: nat)
    requires i < |Timeline(log, p)|
    ensures ReceiptOf(log, Timeline(log, p)[i]) ==
      if ReceiptTest(log, Timeline(log, p), i) then Some(Timeline(log, p)[i - 2]) else None
  {
    var tl := Timeline(log, p);
    ScanPositionView(log, p, i);
    if ViewTest(log, tl, i) {
      var v := ViewedOf(log, tl[i]);
      assert v == tl[i - 1];
      PrevInTimeline(log, p, i - 1);
      assert Prev(log, v) == if i == 1 then None else Some(tl[i - 2]);
    } else {
      assert !CompletedAndViewed(log, tl[i]);
    }
  }

  /** The completed-viewed list after the scan has passed the first `i` timeline positions of `p`. */
  function ViewLinks(log: seq<Event>, p: PersonId, i: nat): seq<Link>
    requires i <= |Timeline(log, p)|
  {
    if i == 0 then []
    else
      var tl := Timeline(log, p);
      ViewLinks(log, p, i - 1) + if ViewTest(log, tl, i - 1) then [Link(tl[i - 1], tl[i - 2])] else []
  }

  /** The completed-viewed-received list after the scan has passed the first `i` timeline positions of `p`. */
  function ReceiptLinks(log: seq<Event>, p: PersonId, i: nat): seq<Link>
    requires i <= |Timeline(log, p)|
  {
    if i == 0 then []
    else
      var tl := Timeline(log, p);
      ReceiptLinks(log, p, i - 1) + if ReceiptTest(log, tl, i - 1) then [Link(tl[i - 1], tl[i - 3])] else []
  }

  /** Every entry of the completed-viewed list is an attributed completion of `p` with its view. */
  lemma {:induction false} ViewLinksSound(log: seq<Event>, p: PersonId, i: nat)
    requires i <= |Timeline(log, p)|
    ensures forall l :: l in ViewLinks(log, p, i) ==> IsViewLink(log, p, l)
  {
    if i > 0 {
      ViewLinksSound(log, p, i - 1);
      var tl := Timeline(log, p);
      var before := ViewLinks(log, p, i - 1);
      if ViewTest(log, tl, i - 1) {
        var l := Link(tl[i - 1], tl[i - 2]);
        ScanPositionView(log, p, i - 1);
        assert IsViewLink(log, p, l);
        assert ViewLinks(log, p, i) == before + [l];
      } else {
        assert ViewLinks(log, p, i) == before;
      }
    }
  }

  /** An attributed completion at timeline position k is in the list once the scan has passed it. */
  lemma {:induction false} ViewLinkAt(log: seq<Event>, p: PersonId, i: nat, k: nat)
    requires k < i <= |Timeline(log, p)| && CompletedAndViewed(log, Timeline(log, p)[k])
    ensures Link(Timeline(log, p)[k], ViewedOf(log, Timeline(log, p)[k])) in ViewLinks(log, p, i)
  {
    var tl := Timeline(log, p);
    var before := ViewLinks(log, p, i - 1);
    if k == i - 1 {
      ScanPositionView(log, p, k);
      assert ViewTest(log, tl, k);
      assert ViewLinks(log, p, i) == before + [Link(tl[k], tl[k - 1])];
    } else {
      ViewLinkAt(log, p, i - 1, k);
      assert ViewLinks(log, p, i)[..|before|] == before;
    }
  }

  /** Every entry of the completed-viewed-received list is a traced receipt of `p` with its completion. */
  lemma {:induction false} ReceiptLinksSound(log: seq<Event>, p: PersonId, i: nat)
    requires i <= |Timeline(log, p)|
    ensures forall l :: l in ReceiptLinks(log, p, i) ==> IsReceiptLink(log, p, l)
  {
    if i > 0 {
      ReceiptLinksSound(log, p, i - 1);
      var tl := Timeline(log, p);
      var before := ReceiptLinks(log, p, i - 1);
      if ReceiptTest(log, tl, i - 1) {
        var l := Link(tl[i - 1], tl[i - 3]);
        ScanPositionReceipt(log, p, i - 1);
        assert IsReceiptLink(log, p, l);
        assert ReceiptLinks(log, p, i) == before + [l];
      } else {
        assert ReceiptLinks(log, p, i) == before;
      }
    }
  }

  /** A traced receipt of the completion at timeline position k is in the list once the scan has passed it. */
  lemma {:induction false} ReceiptLinkAt(log: seq<Event>, p: PersonId, i: nat, k: nat)
    requires k < i <= |Timeline(log, p)| && ReceiptOf(log, Timeline(log, p)[k]).Some?
    ensures Link(Timeline(log, p)[k], ReceiptOf(log, Timeline(log, p)[k]).value) in ReceiptLinks(log, p, i)
  {
    var tl := Timeline(log, p);
    var before := ReceiptLinks(log, p, i - 1);
    if k == i - 1 {
      ScanPositionReceipt(log, p, k);
      assert ReceiptTest(log, tl, k);
      assert ReceiptLinks(log, p, i) == before + [Link(tl[k], tl[k - 2])];
    } else {
      ReceiptLinkAt(log, p, i - 1, k);
      assert ReceiptLinks(log, p, i)[..|before|] == before;
    }
  }

  /** Once the scan has passed the whole timeline, every row of the customer is covered. */
  lemma ListedEverywhere(log: seq<Event>, p: PersonId)
    ensures forall c :: 0 <= c < |log| && log[c].person == p && CompletedAndViewed(log, c) ==>
      Link(c, ViewedOf(log, c)) in ViewLinks(log, p, |Timeline(log, p)|)
    ensures forall c :: 0 <= c < |log| && log[c].person == p && ReceiptOf(log, c).Some? ==>
      Link(c, ReceiptOf(log, c).value) in ReceiptLinks(log, p, |Timeline(log, p)|)
  {
    var n := |Timeline(log, p)|;
    forall c | 0 <= c < |log| && log[c].person == p && CompletedAndViewed(log, c)
      ensures Link(c, ViewedOf(log, c)) in ViewLinks(log, p, n)
    {
      var k := TimelinePosition(log, c);
      ViewLinkAt(log, p, n, k);
    }
    forall c | 0 <= c < |log| && log[c].person == p && ReceiptOf(log, c).Some?
      ensures Link(c, ReceiptOf(log, c).value) in ReceiptLinks(log, p, n)
    {
      var k := TimelinePosition(log, c);
      ReceiptLinkAt(log, p, n, k);
    }
  }

  /**
    One iteration of the scan, at timeline position `i`: a completion whose
    previous offer event is a view of the same offer is listed with that
    view, and also with the event before the view when that is a receipt
    of the same offer.
  */
  method ScanStep(log: seq<Event>, p: PersonId, i: nat, views: seq<Link>, receipts: seq<Link>)
    returns (views': seq<Link>, receipts': seq<Link>)
    requires i < |Timeline(log, p)|
    ensures views' == views +
      if ViewTest(log, Timeline(log, p), i) then [Link(Timeline(log, p)[i], Timeline(log, p)[i - 1])] else []
    ensures receipts' == receipts +
      if ReceiptTest(log, Timeline(log, p), i) then [Link(Timeline(log, p)[i], Timeline(log, p)[i - 2])] else []
  {
    var index := Timeline(log, p);
    views', receipts' := views, receipts;
    if log[index[i]].kind == Completed {
      var pointer := i - 1;
      if pointer >= 0 {
        if log[index[pointer]].kind == Viewed && log[index[pointer]].offer == log[index[i]].offer {
          views' := views' + [Link(index[i], index[pointer])];
          if pointer >= 1 && log[index[pointer - 1]].kind == Received && log[index[pointer - 1]].offer == log[index[i]].offer {
            receipts' := receipts' + [Link(index[i], index[pointer - 1])];
          }
        }
      }
    }
  }

  /**
    The scan over one customer's offer events: every completion whose
    immediate predecessor is a view of the same offer is listed with that
    view, and when the event before the view is a receipt of the same offer
    the completion is listed with that receipt too.
  */
  method ScanCustomer(log: seq<Event>, p: PersonId) returns (completedViewed: seq<Link>, completedViewedReceived: seq<Link>)
    ensures forall l :: l in completedViewed ==> IsViewLink(log, p, l)
    ensures forall c :: 0 <= c < |log| && log[c].person == p && CompletedAndViewed(log, c) ==>
      Link(c, ViewedOf(log, c)) in completedViewed
    ensures forall l :: l in completedViewedReceived ==> IsReceiptLink(log, p, l)
    ensures forall c :: 0 <= c < |log| && log[c].person == p && ReceiptOf(log, c).Some? ==>
      Link(c, ReceiptOf(log, c).value) in completedViewedReceived
  {
    var index := Timeline(log, p);
    completedViewed, completedViewedReceived := [], [];
    for i := 0 to |index|
      invariant completedViewed == ViewLinks(log, p, i)
      invariant completedViewedReceived == ReceiptLinks(log, p, i)
    {
      completedViewed, completedViewedReceived := ScanStep(log, p, i, completedViewed, completedViewedReceived);
    }
    ViewLinksSound(log, p, |index|);
    ReceiptLinksSound(log, p, |index|);
    ListedEverywhere(log, p);
  }

  /** Some link of `links` names row `j` as its completion. */
  predicate Completes(links: seq<Link>, j: nat)
  {
    exists l :: l in links && l.completed == j
  }

  /** Some link of `links` names row `j` as its receipt. */
  predicate ReceiptIn(links: seq<Link>, j: nat)
  {
    exists l :: l in links && l.earlier == j
  }

  /** Row `t` is a transaction of `p` inside the window of some link of `links`. */
  predicate InSomeWindow(log: seq<Event>, p: PersonId, links: seq<Link>, t: nat)
  {
    IsTransactionOf(log, p, t) && exists l :: l in links && l.earlier <= t <= l.completed
  }

  /** A row of customer `p` after the links `links` of the completed-viewed list have been written. */
  function Partial(log: seq<Event>, links: seq<Link>, p: PersonId, j: nat): OfferStatus
    requires j < |log|
  {
    OfferStatus(ReceivedAndCompleted(log, j), Completes(links, j), InSomeWindow(log, p, links, j),
                if Completes(links, j) then CompletedReturn(log, j) else 0,
                if Completes(links, j) then CompletedQty(log, j) else 0)
  }

  /** What writing one completed-viewed link does to row `j`. */
  function ApplyLink(log: seq<Event>, p: PersonId, l: Link, s: OfferStatus, j: nat): OfferStatus
    requires l.completed < |log|
  {
    if j == l.completed then
      s.(completedAndViewed := true,
         completedTransactionReturn := WindowSum(log, p, l.earlier, l.completed + 1),
         completedTransactionQty := WindowCount(log, p, l.earlier, l.completed + 1))
    else if l.earlier <= j <= l.completed && IsTransactionOf(log, p, j) then
      s.(influencedTransaction := true)
    else s
  }

  /** Writing one more link moves every row of `p` from one partial state to the next. */
  lemma PartialStep(log: seq<Event>, p: PersonId, links: seq<Link>, l: Link, j: nat)
    requires IsViewLink(log, p, l)
    requires j < |log| && log[j].person == p
    ensures Partial(log, links + [l], p, j) == ApplyLink(log, p, l, Partial(log, links, p, j), j)
  {
    assert l in links + [l];
    assert Completes(links + [l], j) == (Completes(links, j) || j == l.completed);
    assert InSomeWindow(log, p, links + [l], j) ==
      (InSomeWindow(log, p, links, j) || (IsTransactionOf(log, p, j) && l.earlier <= j <= l.completed));
  }

  /** The receipts named by the scan's completed-viewed-received list are exactly the flagged ones. */
  lemma ReceiptsComplete(log: seq<Event>, p: PersonId, links: seq<Link>, j: nat)
    requires j < |log| && log[j].person == p
    requires forall l :: l in links ==> IsReceiptLink(log, p, l)
    requires forall c :: 0 <= c < |log| && log[c].person == p && ReceiptOf(log, c).Some? ==>
      Link(c, ReceiptOf(log, c).value) in links
    ensures ReceiptIn(links, j) == ReceivedAndCompleted(log, j)
  {
    if ReceiptIn(links, j) {
      var l :| l in links && l.earlier == j;
      assert IsReceiptLink(log, p, l);
    }
    if ReceivedAndCompleted(log, j) {
      var c :| 0 <= c < |log| && ReceiptOf(log, c) == Some(j);
      assert Link(c, j) in links;
    }
  }

  /** Once every link of the scan is written, a row of customer `p` holds its specified status. */
  lemma PartialComplete(log: seq<Event>, p: PersonId, links: seq<Link>, j: nat)
    requires j < |log| && log[j].person == p
    requires forall l :: l in links ==> IsViewLink(log, p, l)
    requires forall c :: 0 <= c < |log| && log[c].person == p && CompletedAndViewed(log, c) ==>
      Link(c, ViewedOf(log, c)) in links
    ensures Partial(log, links, p, j) == StatusOf(log, j)
  {
    if CompletedAndViewed(log, j) {
      assert Link(j, ViewedOf(log, j)) in links;
    }
    if Completes(links, j) {
      var l :| l in links && l.completed == j;
      assert IsViewLink(log, p, l);
    }
    if InSomeWindow(log, p, links, j) {
      var l :| l in links && l.earlier <= j <= l.completed;
      assert IsViewLink(log, p, l);
      assert InWindow(log, l.completed, j);
    }
    if InfluencedTransaction(log, j) {
      var c :| 0 <= c < |log| && InWindow(log, c, j);
      assert Link(c, ViewedOf(log, c)) in links;
    }
  }

  /**
    The transcript table being enriched: the cleaned event log and, per
    row, the offer-status columns the scan writes in place.
  */
  class Transcript {
    const log: seq<Event>
    const status: array<OfferStatus>

    ghost predicate Valid()
    {
      status.Length == |log|
    }

    /** The five offer-status columns are created with value 0 on every row. */
    constructor (log: seq<Event>)
      ensures Valid() && this.log == log && fresh(status)
      ensures forall j :: 0 <= j < status.Length ==> status[j] == INITIAL
    {
      this.log := log;
      status := new OfferStatus[|log|](_ => INITIAL);
    }

    /**
      The body of the per-customer loop: scan the customer's offer events,
      flag the traced receipts, then for each completion flag it, flag the
      customer's transactions in its window and store the window's total
      and count. Only the customer's own rows change.
    */
    method AttributeCustomer(p: PersonId)
      requires Valid()
      requires forall j :: 0 <= j < |log| && log[j].person == p ==> status[j] == INITIAL
      modifies status
      ensures forall j :: 0 <= j < |log| ==>
        status[j] == if log[j].person == p then StatusOf(log, j) else old(status[j])
    {
      var completedViewed, completedViewedReceived := ScanCustomer(log, p);
      FlagReceipts(p, completedViewedReceived);
      WriteCompletions(p, completedViewed);
      forall j | 0 <= j < |log| && log[j].person == p
        ensures Partial(log, completedViewed, p, j) == StatusOf(log, j)
      {
        PartialComplete(log, p, completedViewed, j);
      }
    }

    /** Sets received_and_completed on the receipt of every link of the completed-viewed-received list. */
    method FlagReceipts(p: PersonId, links: seq<Link>)
      requires Valid()
      requires forall l :: l in links ==> IsReceiptLink(log, p, l)
      requires forall c :: 0 <= c < |log| && log[c].person == p && ReceiptOf(log, c).Some? ==>
        Link(c, ReceiptOf(log, c).value) in links
      requires forall j :: 0 <= j < |log| && log[j].person == p ==> status[j] == INITIAL
      modifies status
      ensures forall j :: 0 <= j < |log| ==>
        status[j] == if log[j].person == p
                     then INITIAL.(receivedAndCompleted := ReceivedAndCompleted(log, j))
                     else old(status[j])
    {
      for m := 0 to |links|
        invariant forall j :: 0 <= j < |log| ==>
          status[j] == if log[j].person == p
                       then INITIAL.(receivedAndCompleted := ReceiptIn(links[..m], j))
                       else old(status[j])
      {
        var r := links[m].earlier;
        assert IsReceiptLink(log, p, links[m]);
        assert links[..m + 1] == links[..m] + [links[m]];
        assert forall j :: ReceiptIn(links[..m + 1], j) == (ReceiptIn(links[..m], j) || j == r);
        status[r] := status[r].(receivedAndCompleted := true);
      }
      assert links[..|links|] == links;
      forall j | 0 <= j < |log| && log[j].person == p
        ensures ReceiptIn(links, j) == ReceivedAndCompleted(log, j)
      {
        ReceiptsComplete(log, p, links, j);
      }
    }

    /**
      For every link of the completed-viewed list: flag the completion,
      flag the customer's transactions in the window, store the window's
      amount total and transaction count on the completion.
    */
    method WriteCompletions(p: PersonId, links: seq<Link>)
      requires Valid()
      requires forall l :: l in links ==> IsViewLink(log, p, l)
      requires forall j :: 0 <= j < |log| && log[j].person == p ==>
        status[j] == INITIAL.(receivedAndCompleted := ReceivedAndCompleted(log, j))
      modifies status
      ensures forall j :: 0 <= j < |log| ==>
        status[j] == if log[j].person == p
                     then Partial(log, links, p, j)
                     else old(status[j])
    {
      for m := 0 to |links|
        invariant forall j :: 0 <= j < |log| ==>
          status[j] == if log[j].person == p then Partial(log, links[..m], p, j) else old(status[j])
      {
        assert links[..m + 1] == links[..m] + [links[m]];
        assert IsViewLink(log, p, links[m]);
        WriteLink(p, links[m]);
        forall j | 0 <= j < |log| && log[j].person == p
          ensures Partial(log, links[..m + 1], p, j) == ApplyLink(log, p, links[m], Partial(log, links[..m], p, j), j)
        {
          PartialStep(log, p, links[..m], links[m], j);
        }
      }
      assert links[..|links|] == links;
    }

    /** Lines 166-172 for one link: the completion's flag and totals, the window's influence flags. */
    method WriteLink(p: PersonId, l: Link)
      requires Valid()
      requires IsViewLink(log, p, l)
      modifies status
      ensures forall j :: 0 <= j < |log| ==> status[j] == ApplyLink(log, p, l, old(status[j]), j)
    {
      var c, v := l.completed, l.earlier;
      status[c] := status[c].(completedAndViewed := true);
      forall t | v <= t <= c && IsTransactionOf(log, p, t) {
        status[t] := status[t].(influencedTransaction := true);
      }
      status[c] := status[c].(completedTransactionReturn := WindowSum(log, p, v, c + 1),
                              completedTransactionQty := WindowCount(log, p, v, c + 1));
    }

    /** The loop over every customer of the table, each processed once. */
    method FillOfferStatus()
      requires Valid()
      requires forall j :: 0 <= j < status.Length ==> status[j] == INITIAL
      modifies status
      ensures forall j :: 0 <= j < |log| ==> status[j] == StatusOf(log, j)
    {
      var persons := Persons(log);
      for q := 0 to |persons|
        invariant forall j :: 0 <= j < |log| ==>
          status[j] == if log[j].person in persons[..q] then StatusOf(log, j) else INITIAL
      {
        assert persons[..q + 1] == persons[..q] + [persons[q]];
        AttributeCustomer(persons[q]);
      }
      assert persons[..|persons|] == persons;
    }

    /** The net_return column: each row's return less its reward, a missing reward filled as 0. */
    method ComputeNetReturn() returns (netReturn: seq<int>)
      requires Valid()
      ensures |netReturn| == |log|
      ensures forall j :: 0 <= j < |log| ==>
        netReturn[j] == status[j].completedTransactionReturn - RewardOrZero(log[j])
    {
      netReturn := seq(status.Length, j requires 0 <= j < status.Length reads status =>
        status[j].completedTransactionReturn - RewardOrZero(log[j]));
    }
  }

  /**
    clean_transcript's offer-status part end to end: every row of the
    result holds the specified columns and its net return.
  */
  method CleanTranscript(log: seq<Event>) returns (columns: seq<OfferStatus>, netReturn: seq<int>)
    ensures |columns| == |log| && |netReturn| == |log|
    ensures forall j :: 0 <= j < |log| ==> columns[j] == StatusOf(log, j)
    ensures forall j :: 0 <= j < |log| ==> netReturn[j] == NetReturn(log, j)
  {
    var transcript := new Transcript(log);
    transcript.FillOfferStatus();
    netReturn := transcript.ComputeNetReturn();
    columns := transcript.status[..];
  }
}
