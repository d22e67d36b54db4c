/**
  round_age and round_income: a number is mapped to the label "lo-hi" of
  the grid bucket lo < x <= hi that holds it, or to the integer 0 when it
  falls outside the covered range. The label is represented by the pair
  (lo, hi); the integer 0 by NoRange.
*/
module Buckets {

  datatype Bucket = NoRange | Range(lo: int, hi: int)

  /**
    The search loop of round_age from y on: for y, y + 10, ..., 110 the
    first bucket y - 10 < x <= y that holds x.
  */
  function AgeBucketFrom(x: int, y: int): (r: Bucket)
    requires 20 <= y <= 120 && y % 10 == 0
    ensures r.Range? <==> y - 10 < x <= 110
    ensures r.Range? ==> r.lo < x <= r.hi && r.hi - r.lo == 10 && r.hi % 10 == 0
    decreases 120 - y
  {
    if y > 110 then NoRange
    else if x > y - 10 && x <= y then Range(y - 10, y)
    else AgeBucketFrom(x, y + 10)
  }

  /** round_age: buckets 10-20, 20-30, ..., 100-110, searched from y = 20. */
  function RoundAge(x: int): (r: Bucket)
    ensures r.Range? <==> 10 < x <= 110
    ensures r.Range? ==> r.lo < x <= r.hi && r.hi - r.lo == 10 && r.hi % 10 == 0
  {
    AgeBucketFrom(x, 20)
  }

  /**
    The search loop of round_income from y on: for y, y + 10, ..., 120 the
    first bucket (y - 10) * 1000 < x <= y * 1000 that holds x.
  */
  function IncomeBucketFrom(x: int, y: int): (r: Bucket)
    requires 30 <= y <= 130 && y % 10 == 0
    ensures r.Range? <==> (y - 10) * 1000 < x <= 120000
    ensures r.Range? ==> r.lo < x <= r.hi && r.hi - r.lo == 10000 && r.hi % 10000 == 0
    decreases 130 - y
  {
    if y > 120 then NoRange
    else if x > (y - 10) * 1000 && x <= y * 1000 then
      assert y * 1000 == (y / 10) * 10000;
      Range((y - 10) * 1000, y * 1000)
    else IncomeBucketFrom(x, y + 10)
  }

  /** round_income: buckets 20000-30000, ..., 110000-120000, searched from y = 30. */
  function RoundIncome(x: int): (r: Bucket)
    ensures r.Range? <==> 20000 < x <= 120000
    ensures r.Range? ==> r.lo < x <= r.hi && r.hi - r.lo == 10000 && r.hi % 10000 == 0
  {
    IncomeBucketFrom(x, 30)
  }

  /** round_age returns the one bucket of the age grid that holds x. */
  lemma RoundAgeIsTheBucket(x: int, lo: int, hi: int)
    requires 20 <= hi <= 110 && hi % 10 == 0 && lo == hi - 10 && lo < x <= hi
    ensures RoundAge(x) == Range(lo, hi)
  {
    var r := RoundAge(x);
    assert r.hi == hi by {
      assert r.hi % 10 == 0 && r.hi - 10 < x <= r.hi;
    }
  }

  /** round_income returns the one bucket of the income grid that holds x. */
  lemma RoundIncomeIsTheBucket(x: int, lo: int, hi: int)
    requires 30000 <= hi <= 120000 && hi % 10000 == 0 && lo == hi - 10000 && lo < x <= hi
    ensures RoundIncome(x) == Range(lo, hi)
  {
    var r := RoundIncome(x);
    assert r.hi == hi by {
      assert r.hi % 10000 == 0 && r.hi - 10000 < x <= r.hi;
    }
  }
}
