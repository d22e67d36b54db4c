/**
  The receipt lookback as the source writes it. When a completion sits at
  timeline position 1 its matched view is at position 0, and the lookback
  position 0 - 1 = -1 reads the LAST entry of the customer's timeline
  (negative indices count from the end). The model elsewhere uses the
  corrected rule (no receipt before position 0), Attribution.ReceiptOf.
*/
module AsWrittenLookback {
  import opened Wrappers
  import opened Events
  import opened Timelines
  import opened Attribution
  import opened Transcripts

  /** A sequence index with negative values counting back from the end. */
  function WrapIndex(n: nat, i: int): (r: nat)
    requires 0 <= n + i && i < n
    ensures r < n
    ensures i >= 0 ==> r == i
    ensures i < 0 ==> r == n + i
  {
    if i < 0 then n + i else i
  }

  /**
    The receipt flagged for the completion at timeline position `i`, with
    the lookback at position i - 2 taken as written (wrapping at i == 1).
  */
  function ReceiptLookupAsWritten(log: seq<Event>, p: PersonId, i: nat): (r: Option<nat>)
    requires i < |Timeline(log, p)|
    ensures r.Some? ==> r.value in Timeline(log, p) && log[r.value].kind == Received
  {
    var index := Timeline(log, p);
    if ViewTest(log, index, i) then
      var j := index[WrapIndex(|index|, i - 2)];
      if log[j].kind == Received && log[j].offer == log[index[i]].offer then Some(j) else None
    else None
  }

  /**
    Everywhere but timeline position 1 the code as written and the
    corrected rule agree: at position 0 neither matches a view, from
    position 2 on the lookback does not wrap.
  */
  lemma AsWrittenAgreesOffPositionOne(log: seq<Event>, p: PersonId, i: nat)
    requires i < |Timeline(log, p)| && i != 1
    ensures ReceiptLookupAsWritten(log, p, i) == ReceiptOf(log, Timeline(log, p)[i])
  {
    ScanPositionView(log, p, i);
    ScanPositionReceipt(log, p, i);
  }

  /** A customer who views offer O1, completes it, and only then receives O1 again. */
  function WrapLog(): seq<Event>
  {
    [Event("X", Viewed, "O1", 0, None),
     Event("X", Completed, "O1", 0, Some(200)),
     Event("X", Received, "O1", 0, None)]
  }

  lemma WrapLogTimeline()
    ensures Timeline(WrapLog(), "X") == [0, 1, 2]
  {
    var log := WrapLog();
    assert IsOfferEventOf(log, "X", 0) && IsOfferEventOf(log, "X", 1) && IsOfferEventOf(log, "X", 2);
    var t0 := TimelineBefore(log, "X", 0);
    var t1 := TimelineBefore(log, "X", 1);
    assert t1 == t0 + [0];
    var t2 := TimelineBefore(log, "X", 2);
    assert t2 == t1 + [1];
    assert TimelineBefore(log, "X", 3) == t2 + [2];
  }

  /**
    The as-written lookback flags the receipt at row 2, logged after the
    completion at row 1 that it is supposed to lead to; the corrected rule
    finds no receipt and leaves row 2 unflagged.
  */
  lemma WraparoundFlagsLaterReceipt()
    ensures Timeline(WrapLog(), "X") == [0, 1, 2]
    ensures ReceiptLookupAsWritten(WrapLog(), "X", 1) == Some(2)
    ensures ReceiptOf(WrapLog(), 1) == None
    ensures !ReceivedAndCompleted(WrapLog(), 2)
  {
    var log := WrapLog();
    WrapLogTimeline();
    ScanPositionView(log, "X", 1);
    ScanPositionReceipt(log, "X", 1);
  }
}
