/**
  Two small logs worked through by hand: a receipt, a view, one purchase
  and the completion of one offer, with and without the receipt.
  Amounts are in cents.
*/
module Scenarios {
  import opened Wrappers
  import opened Events
  import opened Timelines
  import opened Attribution
  import opened Transcripts

  /** Receipt of O1, view of O1, a purchase of 10.00, completion of O1 with reward 2.00. */
  function FullLog(): seq<Event>
  {
    [Event("X", Received, "O1", 0, None),
     Event("X", Viewed, "O1", 0, None),
     Event("X", Transaction, "", 1000, None),
     Event("X", Completed, "O1", 0, Some(200))]
  }

  lemma FullLogTimeline()
    ensures Timeline(FullLog(), "X") == [0, 1, 3]
  {
    var log := FullLog();
    assert IsOfferEventOf(log, "X", 0) && IsOfferEventOf(log, "X", 1) && !IsOfferEventOf(log, "X", 2);
    assert IsOfferEventOf(log, "X", 3);
    var t0 := TimelineBefore(log, "X", 0);
    var t1 := TimelineBefore(log, "X", 1);
    assert t1 == t0 + [0];
    var t2 := TimelineBefore(log, "X", 2);
    assert t2 == t1 + [1];
    var t3 := TimelineBefore(log, "X", 3);
    assert t3 == t2;
    assert TimelineBefore(log, "X", 4) == t3 + [3];
  }

  lemma FullLogMatch()
    ensures CompletedAndViewed(FullLog(), 3) && ViewedOf(FullLog(), 3) == 1
    ensures ReceiptOf(FullLog(), 3) == Some(0)
  {
    FullLogTimeline();
    ScanPositionView(FullLog(), "X", 2);
    ScanPositionReceipt(FullLog(), "X", 2);
  }

  lemma FullLogWindow()
    ensures WindowSum(FullLog(), "X", 1, 4) == 1000 && WindowCount(FullLog(), "X", 1, 4) == 1
  {
    var log := FullLog();
    assert WindowSum(log, "X", 1, 2) == 0 && WindowCount(log, "X", 1, 2) == 0;
    assert WindowSum(log, "X", 1, 3) == 1000 && WindowCount(log, "X", 1, 3) == 1;
  }

  /**
    The completion is attributed to the view: it carries a return of 10.00
    from one transaction and a net return of 8.00.
  */
  lemma CompletionAttributed()
    ensures StatusOf(FullLog(), 3) == OfferStatus(false, true, false, 1000, 1)
    ensures NetReturn(FullLog(), 3) == 800
  {
    FullLogMatch();
    FullLogWindow();
  }

  /** The receipt is flagged as leading to the completion. */
  lemma ReceiptFlagged()
    ensures StatusOf(FullLog(), 0) == OfferStatus(true, false, false, 0, 0)
  {
    FullLogMatch();
    assert !CompletedAndViewed(FullLog(), 0);
  }

  /** The view itself keeps its defaults. */
  lemma ViewUnflagged()
    ensures StatusOf(FullLog(), 1) == INITIAL
  {
    assert !CompletedAndViewed(FullLog(), 1);
  }

  /** The purchase between view and completion is influenced. */
  lemma PurchaseInfluenced()
    ensures StatusOf(FullLog(), 2) == OfferStatus(false, false, true, 0, 0)
  {
    FullLogMatch();
    assert InWindow(FullLog(), 3, 2);
    assert !CompletedAndViewed(FullLog(), 2);
  }

  /** The same customer without the receipt. */
  function NoReceiptLog(): seq<Event>
  {
    [Event("X", Viewed, "O1", 0, None),
     Event("X", Transaction, "", 1000, None),
     Event("X", Completed, "O1", 0, Some(200))]
  }

  lemma NoReceiptLogTimeline()
    ensures Timeline(NoReceiptLog(), "X") == [0, 2]
  {
    var log := NoReceiptLog();
    assert IsOfferEventOf(log, "X", 0) && !IsOfferEventOf(log, "X", 1) && IsOfferEventOf(log, "X", 2);
    var t0 := TimelineBefore(log, "X", 0);
    var t1 := TimelineBefore(log, "X", 1);
    assert t1 == t0 + [0];
    var t2 := TimelineBefore(log, "X", 2);
    assert t2 == t1;
    assert TimelineBefore(log, "X", 3) == t2 + [2];
  }

  /** The completion is still attributed to the view, and no row is flagged as a traced receipt. */
  lemma ViewPurchaseCompletion()
    ensures CompletedAndViewed(NoReceiptLog(), 2)
    ensures CompletedReturn(NoReceiptLog(), 2) == 1000
    ensures forall j :: 0 <= j < 3 ==> !ReceivedAndCompleted(NoReceiptLog(), j)
  {
    var log := NoReceiptLog();
    NoReceiptLogTimeline();
    ScanPositionView(log, "X", 1);
    ScanPositionReceipt(log, "X", 1);
    assert ViewedOf(log, 2) == 0;
    assert WindowSum(log, "X", 0, 1) == 0;
    assert WindowSum(log, "X", 0, 2) == 1000;
    assert WindowSum(log, "X", 0, 3) == 1000;
    assert ReceiptOf(log, 2) == None;
    assert !CompletedAndViewed(log, 0) && !CompletedAndViewed(log, 1);
  }
}
