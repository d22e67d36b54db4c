/**
  A small table worked through by hand: two offers, one unattributed row
  with a large loss that must be ignored, and the top-1 recommendation.
  Net returns are in cents.
*/
module RecommendationScenarios {
  import opened Wrappers
  import opened Buckets
  import opened IntLiterals
  import opened Recommendation

  /**
    Offer A averages 6.00 over two attributed rows, offer B 7.00 over one;
    B's second row, a loss of 50.00, is unattributed.
  */
  function SmallTable(): seq<Row>
  {
    [Row(true, "A", 800, "F", Range(20, 30), NoRange),
     Row(true, "B", 700, "M", Range(20, 30), NoRange),
     Row(false, "B", -5000, "M", Range(20, 30), NoRange),
     Row(true, "A", 400, "F", Range(20, 30), NoRange)]
  }

  /** The attributed rows: every row but the third. */
  function SmallSelection(): seq<Row>
  {
    [SmallTable()[0], SmallTable()[1], SmallTable()[3]]
  }

  lemma SmallTableSelected()
    ensures Selected(SmallTable(), Criteria(None, None, None)) == SmallSelection()
  {
    var f := (r: Row) => r.completedAndViewed && Matches(r, Criteria(None, None, None));
    SmallTableAttributed(f);
  }

  /** The mask of attributed rows, stepped through the table from the back. */
  lemma SmallTableAttributed(f: Row -> bool)
    requires forall r: Row :: f(r) == r.completedAndViewed
    ensures Where(SmallTable(), f) == SmallSelection()
  {
    var rows := SmallTable();
    assert rows[4..] == [];
    var w3 := Where(rows[3..], f);
    assert w3 == [rows[3]] + Where(rows[4..], f);
    var w2 := Where(rows[2..], f);
    assert rows[2..][1..] == rows[3..];
    assert w2 == w3;
    var w1 := Where(rows[1..], f);
    assert rows[1..][1..] == rows[2..];
    assert w1 == [rows[1]] + w2;
    assert Where(rows, f) == [rows[0]] + w1;
  }

  lemma SmallSelectionMeans()
    ensures MeanReturn(SmallSelection(), "A") == 600.0 && MeanReturn(SmallSelection(), "B") == 700.0
    ensures OffersOf(SmallSelection()) == ["A", "B"]
  {
    var s := SmallSelection();
    assert s[..0] == [] && s[..1][..0] == [] && s[..2][..1] == s[..1] && s[..3][..2] == s[..2];
    assert ReturnSum(s[..1], "A") == 800 && RowCount(s[..1], "A") == 1;
    assert ReturnSum(s[..2], "A") == 800 && RowCount(s[..2], "A") == 1;
    assert ReturnSum(s, "A") == 1200 && RowCount(s, "A") == 2;
    assert ReturnSum(s[..1], "B") == 0 && RowCount(s[..1], "B") == 0;
    assert ReturnSum(s[..2], "B") == 700 && RowCount(s[..2], "B") == 1;
    assert ReturnSum(s, "B") == 700 && RowCount(s, "B") == 1;
    assert OffersOf(s[..1]) == ["A"];
    assert OffersOf(s[..2]) == ["A", "B"];
  }

  /** Over every row, unattributed included, B would average -21.50 and fall behind A. */
  lemma UnfilteredMeansFlip()
    ensures MeanReturn(SmallTable(), "A") == 600.0 && MeanReturn(SmallTable(), "B") == -2150.0
  {
    var s := SmallTable();
    assert s[..0] == [] && s[..1][..0] == [] && s[..2][..1] == s[..1] && s[..3][..2] == s[..2] && s[..4][..3] == s[..3];
    assert s[..4] == s;
    assert ReturnSum(s[..1], "A") == 800 && RowCount(s[..1], "A") == 1;
    assert ReturnSum(s[..2], "A") == 800 && RowCount(s[..2], "A") == 1;
    assert ReturnSum(s[..3], "A") == 800 && RowCount(s[..3], "A") == 1;
    assert ReturnSum(s, "A") == 1200 && RowCount(s, "A") == 2;
    assert ReturnSum(s[..1], "B") == 0 && RowCount(s[..1], "B") == 0;
    assert ReturnSum(s[..2], "B") == 700 && RowCount(s[..2], "B") == 1;
    assert ReturnSum(s[..3], "B") == -4300 && RowCount(s[..3], "B") == 2;
    assert ReturnSum(s, "B") == -4300 && RowCount(s, "B") == 2;
  }

  /**
    With no criteria, the best offer is B: the unattributed loss, which
    would rank B below A, is left out of the means.
  */
  lemma BestOfferIgnoresUnattributedRows()
    ensures MakeRecommendation(SmallTable(), None, None, None, 1) == Success(["B"])
  {
    RecommendationRanksSelected(SmallTable(), None, None, None, 1);
    SmallTableSelected();
    SmallSelectionTop();
  }

  /** Over the attributed rows, the top-1 offer is B. */
  lemma SmallSelectionTop()
    ensures TopOffers(SmallSelection(), 1) == ["B"]
  {
    var s := SmallSelection();
    SmallSelectionMeans();
    var top := TopOffers(s, 1);
    assert |top| == 1;
    assert "A" in OffersOf(s) && "B" in OffersOf(s);
    assert top[0] in OffersOf(s);
    assert top[0] == "B";
  }

  /** A non-numeric age is an error, whatever the table holds. */
  lemma NonNumericAgeRejected()
    ensures MakeRecommendation(SmallTable(), None, Some("twenty"), None, 1) == Failure(NotAnInteger("twenty"))
  {
    assert ParseInt("twenty") == None by {
      assert TrimStart("twenty") == "twenty";
      assert TrimEnd("twenty") == "twenty";
      assert !IsDigit("twenty"[0]);
    }
  }
}
