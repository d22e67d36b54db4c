/**
  make_recommendation: from the cleaned table, keep the completions
  attributed to a view, narrow them to a customer segment (gender, age
  bucket, income bucket, each optional), average the net return per offer,
  and return the offers with the highest average, best first, cut to
  n_top with Python slice semantics.

  Net returns are integers (cents); averages are reals.
*/
module Recommendation {
  import opened Wrappers
  import opened Events
  import opened Buckets
  import opened IntLiterals

  /** One row of the cleaned table, reduced to the columns the engine reads. */
  datatype Row = Row(
    completedAndViewed: bool,
    offer: OfferId,
    netReturn: int,
    gender: string,
    ageRange: Bucket,
    incomeRange: Bucket)

  /** int() raised ValueError on this argument. */
  datatype Error = NotAnInteger(literal: string)

  /** A customer segment; None means "any". */
  datatype Criteria = Criteria(gender: Option<string>, age: Option<Bucket>, income: Option<Bucket>)

  predicate Distinct<T(==)>(s: seq<T>)
  {
    forall i, j :: 0 <= i < j < |s| ==> s[i] != s[j]
  }

  /**
    The rows that `keep` accepts, in their original order (a boolean mask).
    Every accepted row is kept as often as it occurs: duplicates count in
    the group means.
  */
  function Where(rows: seq<Row>, keep: Row -> bool): (r: seq<Row>)
    ensures |r| <= |rows|
    ensures forall x :: x in r <==> x in rows && keep(x)
  {
    if rows == [] then []
    else (if keep(rows[0]) then [rows[0]] else []) + Where(rows[1..], keep)
  }

  /** The mask keeps every accepted row as many times as it occurs and drops every other. */
  lemma {:induction false} WhereCounts(rows: seq<Row>, keep: Row -> bool)
    ensures forall x :: multiset(Where(rows, keep))[x] == if keep(x) then multiset(rows)[x] else 0
  {
    if rows != [] {
      WhereCounts(rows[1..], keep);
      assert rows == [rows[0]] + rows[1..];
    }
  }

  /** Two masks that agree on every row select the same rows. */
  lemma {:induction false} WhereExtensional(rows: seq<Row>, f: Row -> bool, g: Row -> bool)
    requires forall x :: f(x) == g(x)
    ensures Where(rows, f) == Where(rows, g)
  {
    if rows != [] {
      WhereExtensional(rows[1..], f, g);
    }
  }

  /** Masking twice is masking once with the conjunction. */
  lemma {:induction false} WhereWhere(rows: seq<Row>, f: Row -> bool, g: Row -> bool, h: Row -> bool)
    requires forall x :: h(x) == (f(x) && g(x))
    ensures Where(Where(rows, f), g) == Where(rows, h)
  {
    if rows != [] {
      WhereWhere(rows[1..], f, g, h);
      var rest := Where(rows[1..], f);
      if f(rows[0]) {
        assert Where(rows, f) == [rows[0]] + rest;
        assert ([rows[0]] + rest)[1..] == rest;
      } else {
        assert Where(rows, f) == rest;
      }
    }
  }

  /** A mask that accepts everything keeps the table as it is. */
  lemma {:induction false} WhereAll(rows: seq<Row>, f: Row -> bool)
    requires forall x :: f(x)
    ensures Where(rows, f) == rows
  {
    if rows != [] {
      WhereAll(rows[1..], f);
      assert [rows[0]] + rows[1..] == rows;
    }
  }

  /**
    The age argument: absent stays absent; otherwise it goes through int()
    and round_age, and an age outside every bucket counts as absent.
  */
  function NormaliseAge(arg: Option<string>): (r: Result<Option<Bucket>, Error>)
    ensures r.Failure? <==> arg.Some? && ParseInt(arg.value).None?
    ensures r.Failure? ==> r.error == NotAnInteger(arg.value)
    ensures r.Success? && arg.None? ==> r.value.None?
    ensures r.Success? && arg.Some? ==>
      (r.value.Some? <==> 10 < ParseInt(arg.value).value <= 110)
    ensures r.Success? && r.value.Some? ==>
      r.value.value.Range? && arg.Some? &&
      r.value.value.lo < ParseInt(arg.value).value <= r.value.value.hi &&
      r.value.value.hi - r.value.value.lo == 10 && r.value.value.hi % 10 == 0
    ensures r.Success? && r.value.Some? ==> arg.Some? && r.value.value == RoundAge(ParseInt(arg.value).value)
  {
    match arg
    case None => Success(None)
    case Some(s) =>
      match ParseInt(s)
      case None => Failure(NotAnInteger(s))
      case Some(n) =>
        var b := RoundAge(n);
        Success(if b == NoRange then None else Some(b))
  }

  /** The income argument, likewise with round_income. */
  function NormaliseIncome(arg: Option<string>): (r: Result<Option<Bucket>, Error>)
    ensures r.Failure? <==> arg.Some? && ParseInt(arg.value).None?
    ensures r.Failure? ==> r.error == NotAnInteger(arg.value)
    ensures r.Success? && arg.None? ==> r.value.None?
    ensures r.Success? && arg.Some? ==>
      (r.value.Some? <==> 20000 < ParseInt(arg.value).value <= 120000)
    ensures r.Success? && r.value.Some? ==>
      r.value.value.Range? && arg.Some? &&
      r.value.value.lo < ParseInt(arg.value).value <= r.value.value.hi &&
      r.value.value.hi - r.value.value.lo == 10000 && r.value.value.hi % 10000 == 0
    ensures r.Success? && r.value.Some? ==> arg.Some? && r.value.value == RoundIncome(ParseInt(arg.value).value)
  {
    match arg
    case None => Success(None)
    case Some(s) =>
      match ParseInt(s)
      case None => Failure(NotAnInteger(s))
      case Some(n) =>
        var b := RoundIncome(n);
        Success(if b == NoRange then None else Some(b))
  }

  /** A row belongs to the segment when it agrees on every criterion given. */
  predicate Matches(r: Row, c: Criteria)
  {
    (c.gender.None? || r.gender == c.gender.value) &&
    (c.age.None? || r.ageRange == c.age.value) &&
    (c.income.None? || r.incomeRange == c.income.value)
  }

  /** The eight-way branch on which criteria are present, one mask per case. */
  function SegmentRows(rows: seq<Row>, gender: Option<string>, age: Option<Bucket>, income: Option<Bucket>): seq<Row>
  {
    if gender.None? && age.None? && income.None? then rows
    else if gender.Some? && age.None? && income.None? then
      var g := gender.value;
      Where(rows, (r: Row) => r.gender == g)
    else if gender.None? && age.Some? && income.None? then
      var a := age.value;
      Where(rows, (r: Row) => r.ageRange == a)
    else if gender.None? && age.None? && income.Some? then
      var i := income.value;
      Where(rows, (r: Row) => r.incomeRange == i)
    else if gender.Some? && age.Some? && income.None? then
      var g, a := gender.value, age.value;
      Where(rows, (r: Row) => r.gender == g && r.ageRange == a)
    else if gender.None? && age.Some? && income.Some? then
      var a, i := age.value, income.value;
      Where(rows, (r: Row) => r.ageRange == a && r.incomeRange == i)
    else if gender.Some? && age.None? && income.Some? then
      var g, i := gender.value, income.value;
      Where(rows, (r: Row) => r.gender == g && r.incomeRange == i)
    else
      var g, a, i := gender.value, age.value, income.value;
      Where(rows, (r: Row) => r.gender == g && r.ageRange == a && r.incomeRange == i)
  }

  /** Every branch keeps exactly the rows that match all criteria given. */
  lemma SegmentIsConjunction(rows: seq<Row>, gender: Option<string>, age: Option<Bucket>, income: Option<Bucket>)
    ensures SegmentRows(rows, gender, age, income) == Where(rows, (r: Row) => Matches(r, Criteria(gender, age, income)))
  {
    var c := Criteria(gender, age, income);
    var m := (r: Row) => Matches(r, c);
    if gender.None? && age.None? && income.None? {
      WhereAll(rows, m);
    } else if gender.Some? && age.None? && income.None? {
      var g := gender.value;
      WhereExtensional(rows, (r: Row) => r.gender == g, m);
    } else if gender.None? && age.Some? && income.None? {
      var a := age.value;
      WhereExtensional(rows, (r: Row) => r.ageRange == a, m);
    } else if gender.None? && age.None? && income.Some? {
      var i := income.value;
      WhereExtensional(rows, (r: Row) => r.incomeRange == i, m);
    } else if gender.Some? && age.Some? && income.None? {
      var g, a := gender.value, age.value;
      WhereExtensional(rows, (r: Row) => r.gender == g && r.ageRange == a, m);
    } else if gender.None? && age.Some? && income.Some? {
      var a, i := age.value, income.value;
      WhereExtensional(rows, (r: Row) => r.ageRange == a && r.incomeRange == i, m);
    } else if gender.Some? && age.None? && income.Some? {
      var g, i := gender.value, income.value;
      WhereExtensional(rows, (r: Row) => r.gender == g && r.incomeRange == i, m);
    } else {
      var g, a, i := gender.value, age.value, income.value;
      WhereExtensional(rows, (r: Row) => r.gender == g && r.ageRange == a && r.incomeRange == i, m);
    }
  }

  /** The group keys: each offer of the table once, in order of first appearance. */
  function OffersOf(rows: seq<Row>): (offers: seq<OfferId>)
    ensures Distinct(offers)
    ensures forall o :: o in offers <==> exists k :: 0 <= k < |rows| && rows[k].offer == o
  {
    if rows == [] then []
    else
      var earlier := OffersOf(rows[..|rows| - 1]);
      var last := rows[|rows| - 1];
      assert forall k :: 0 <= k < |rows| - 1 ==> rows[..|rows| - 1][k] == rows[k];
      if last.offer in earlier then earlier else earlier + [last.offer]
  }

  /** The sum of the net returns of the rows of offer `o`. */
  function ReturnSum(rows: seq<Row>, o: OfferId): int
  {
    if rows == [] then 0
    else ReturnSum(rows[..|rows| - 1], o) + (if rows[|rows| - 1].offer == o then rows[|rows| - 1].netReturn else 0)
  }

  /** The number of rows of offer `o`. */
  function RowCount(rows: seq<Row>, o: OfferId): (n: nat)
    ensures n > 0 <==> exists k :: 0 <= k < |rows| && rows[k].offer == o
  {
    if rows == [] then 0
    else
      assert forall k :: 0 <= k < |rows| - 1 ==> rows[..|rows| - 1][k] == rows[k];
      RowCount(rows[..|rows| - 1], o) + (if rows[|rows| - 1].offer == o then 1 else 0)
  }

  /** The group mean of net_return for offer `o` (0 for an offer with no rows). */
  function MeanReturn(rows: seq<Row>, o: OfferId): real
  {
    var n := RowCount(rows, o);
    if n == 0 then 0.0 else ReturnSum(rows, o) as real / n as real
  }

  /** The positions of the rows of offer `o`. */
  function OfferRows(rows: seq<Row>, o: OfferId): set<nat>
  {
    set k: nat | k < |rows| && rows[k].offer == o
  }

  /** The group size is the number of rows of the offer. */
  lemma {:induction false} RowCountIsCardinality(rows: seq<Row>, o: OfferId)
    ensures RowCount(rows, o) == |OfferRows(rows, o)|
  {
    if rows == [] {
      assert OfferRows(rows, o) == {};
    } else {
      var init := rows[..|rows| - 1];
      RowCountIsCardinality(init, o);
      assert OfferRows(init, o) == set k: nat | k < |rows| - 1 && rows[k].offer == o;
      if rows[|rows| - 1].offer == o {
        assert OfferRows(rows, o) == OfferRows(init, o) + {|rows| - 1};
      } else {
        assert OfferRows(rows, o) == OfferRows(init, o);
      }
    }
  }

  /** Net returns of at least lo give a group total of at least lo times the group size. */
  lemma {:induction false} SumAtLeast(rows: seq<Row>, o: OfferId, lo: int)
    requires forall k :: 0 <= k < |rows| && rows[k].offer == o ==> lo <= rows[k].netReturn
    ensures lo * RowCount(rows, o) <= ReturnSum(rows, o)
  {
    if rows != [] {
      var init := rows[..|rows| - 1];
      var last := rows[|rows| - 1];
      assert forall k :: 0 <= k < |init| ==> init[k] == rows[k];
      SumAtLeast(init, o, lo);
      var n0 := RowCount(init, o);
      if last.offer == o {
        assert RowCount(rows, o) == n0 + 1;
        assert lo * (n0 + 1) == lo * n0 + lo;
      }
    }
  }

  /** Net returns of at most hi give a group total of at most hi times the group size. */
  lemma {:induction false} SumAtMost(rows: seq<Row>, o: OfferId, hi: int)
    requires forall k :: 0 <= k < |rows| && rows[k].offer == o ==> rows[k].netReturn <= hi
    ensures ReturnSum(rows, o) <= hi * RowCount(rows, o)
  {
    if rows != [] {
      var init := rows[..|rows| - 1];
      var last := rows[|rows| - 1];
      assert forall k :: 0 <= k < |init| ==> init[k] == rows[k];
      SumAtMost(init, o, hi);
      var n0 := RowCount(init, o);
      if last.offer == o {
        assert RowCount(rows, o) == n0 + 1;
        assert hi * (n0 + 1) == hi * n0 + hi;
      }
    }
  }

  /** A total between lo * n and hi * n, shared out over n, gives between lo and hi each. */
  lemma DivideBetween(s: int, n: int, lo: int, hi: int)
    requires n > 0 && lo * n <= s <= hi * n
    ensures lo as real <= s as real / n as real <= hi as real
  {
    assert (lo * n) as real == lo as real * n as real;
    assert (hi * n) as real == hi as real * n as real;
  }

  /** The group mean lies between the least and the greatest net return of the offer's rows. */
  lemma MeanBetween(rows: seq<Row>, o: OfferId, lo: int, hi: int)
    requires RowCount(rows, o) > 0
    requires forall k :: 0 <= k < |rows| && rows[k].offer == o ==> lo <= rows[k].netReturn <= hi
    ensures lo as real <= MeanReturn(rows, o) <= hi as real
  {
    SumAtLeast(rows, o, lo);
    SumAtMost(rows, o, hi);
    DivideBetween(ReturnSum(rows, o), RowCount(rows, o), lo, hi);
  }

  /** Offers listed from the highest mean net return to the lowest. */
  predicate RankedByMean(rows: seq<Row>, s: seq<OfferId>)
  {
    forall i, j :: 0 <= i < j < |s| ==> MeanReturn(rows, s[i]) >= MeanReturn(rows, s[j])
  }

  /** Insertion of one offer into a ranked list, ahead of every offer with a lower or equal mean. */
  function InsertByMean(rows: seq<Row>, o: OfferId, s: seq<OfferId>): (r: seq<OfferId>)
    requires RankedByMean(rows, s)
    ensures multiset(r) == multiset(s) + multiset{o}
    ensures RankedByMean(rows, r)
    ensures Distinct(s) && o !in s ==> Distinct(r)
  {
    if s == [] then [o]
    else if MeanReturn(rows, o) >= MeanReturn(rows, s[0]) then
      PrependBest(rows, o, s);
      [o] + s
    else
      var rest := InsertByMean(rows, o, s[1..]);
      InsertBehind(rows, o, s, rest);
      [s[0]] + rest
  }

  /** An offer whose mean is at least the head's may go in front of a ranked list. */
  lemma PrependBest(rows: seq<Row>, o: OfferId, s: seq<OfferId>)
    requires s != [] && RankedByMean(rows, s) && MeanReturn(rows, o) >= MeanReturn(rows, s[0])
    ensures RankedByMean(rows, [o] + s)
    ensures Distinct(s) && o !in s ==> Distinct([o] + s)
  {
    var r := [o] + s;
    forall i, j | 0 <= i < j < |r|
      ensures MeanReturn(rows, r[i]) >= MeanReturn(rows, r[j])
    {
      assert r[j] == s[j - 1];
      if i > 0 {
        assert r[i] == s[i - 1];
      } else if j > 1 {
        assert MeanReturn(rows, s[0]) >= MeanReturn(rows, s[j - 1]);
      }
    }
  }

  /** The head of a ranked list has a mean at least that of every offer of an insertion into its tail. */
  lemma HeadAboveInsertion(rows: seq<Row>, o: OfferId, s: seq<OfferId>, rest: seq<OfferId>)
    requires s != [] && RankedByMean(rows, s)
    requires MeanReturn(rows, o) < MeanReturn(rows, s[0])
    requires multiset(rest) == multiset(s[1..]) + multiset{o}
    ensures forall k :: 0 <= k < |rest| ==> MeanReturn(rows, s[0]) >= MeanReturn(rows, rest[k])
  {
    forall k | 0 <= k < |rest|
      ensures MeanReturn(rows, s[0]) >= MeanReturn(rows, rest[k])
    {
      assert rest[k] in multiset(s[1..]) + multiset{o};
      if rest[k] != o {
        assert rest[k] in s[1..];
        var i :| 0 <= i < |s[1..]| && s[1..][i] == rest[k];
        assert s[i + 1] == rest[k];
      }
    }
  }

  /** The offer at the head of a ranked list stays ahead of an insertion into its tail. */
  lemma InsertBehind(rows: seq<Row>, o: OfferId, s: seq<OfferId>, rest: seq<OfferId>)
    requires s != [] && RankedByMean(rows, s) && RankedByMean(rows, rest)
    requires MeanReturn(rows, o) < MeanReturn(rows, s[0])
    requires multiset(rest) == multiset(s[1..]) + multiset{o}
    ensures multiset([s[0]] + rest) == multiset(s) + multiset{o}
    ensures RankedByMean(rows, [s[0]] + rest)
    ensures Distinct(s) && o !in s && Distinct(rest) ==> Distinct([s[0]] + rest)
  {
    assert s == [s[0]] + s[1..];
    HeadAboveInsertion(rows, o, s, rest);
    var r := [s[0]] + rest;
    forall i, j | 0 <= i < j < |r|
      ensures MeanReturn(rows, r[i]) >= MeanReturn(rows, r[j])
    {
      if i > 0 {
        assert r[i] == rest[i - 1] && r[j] == rest[j - 1];
      } else {
        assert r[j] == rest[j - 1];
      }
    }
    if Distinct(s) && o !in s && Distinct(rest) {
      assert s[0] !in s[1..];
      assert s[0] !in multiset(rest);
    }
  }

  /** sort_values(ascending=False): a permutation of the offers, highest mean first. */
  function RankByMean(rows: seq<Row>, offers: seq<OfferId>): (r: seq<OfferId>)
    ensures multiset(r) == multiset(offers)
    ensures RankedByMean(rows, r)
    ensures Distinct(offers) ==> Distinct(r)
  {
    if offers == [] then []
    else
      var rest := RankByMean(rows, offers[1..]);
      SplitHead(offers);
      InsertByMean(rows, offers[0], rest)
  }

  lemma SplitHead<T>(s: seq<T>)
    requires s != []
    ensures multiset(s) == multiset(s[1..]) + multiset{s[0]}
    ensures Distinct(s) ==> Distinct(s[1..]) && s[0] !in multiset(s[1..])
  {
    assert s == [s[0]] + s[1..];
  }

  /** s[:n] in Python: a prefix, with a negative n counting back from the end. */
  function TakeTop(s: seq<OfferId>, n: int): (r: seq<OfferId>)
    ensures |r| <= |s| && r == s[..|r|]
    ensures n >= 0 ==> |r| == if n < |s| then n else |s|
    ensures n < 0 ==> |r| == if |s| + n > 0 then |s| + n else 0
  {
    if n >= 0 then (if n < |s| then s[..n] else s)
    else if |s| + n > 0 then s[..|s| + n]
    else []
  }

  /** Every offer left out of a prefix of a ranked list has a mean no higher than any offer kept. */
  lemma PrefixKeepsBest(rows: seq<Row>, ranked: seq<OfferId>, m: nat)
    requires RankedByMean(rows, ranked) && m <= |ranked|
    ensures forall o, x :: o in ranked && o !in ranked[..m] && x in ranked[..m] ==>
      MeanReturn(rows, x) >= MeanReturn(rows, o)
  {
    forall o, x | o in ranked && o !in ranked[..m] && x in ranked[..m]
      ensures MeanReturn(rows, x) >= MeanReturn(rows, o)
    {
      var k :| 0 <= k < |ranked| && ranked[k] == o;
      var i :| 0 <= i < m && ranked[..m][i] == x;
      assert forall t :: 0 <= t < m ==> ranked[..m][t] == ranked[t];
      assert m <= k;
      assert ranked[i] == x;
    }
  }

  /** A prefix of a ranking of distinct offers keeps their properties. */
  lemma TopOfRanking(rows: seq<Row>, offers: seq<OfferId>, ranked: seq<OfferId>, top: seq<OfferId>)
    requires multiset(ranked) == multiset(offers) && RankedByMean(rows, ranked) && Distinct(ranked)
    requires |top| <= |ranked| && top == ranked[..|top|]
    ensures |ranked| == |offers|
    ensures Distinct(top) && RankedByMean(rows, top)
    ensures forall o :: o in top ==> o in offers
    ensures forall o, x :: o in offers && o !in top && x in top ==>
      MeanReturn(rows, x) >= MeanReturn(rows, o)
  {
    assert |multiset(ranked)| == |multiset(offers)|;
    forall o | o in top
      ensures o in offers
    {
      assert o in multiset(ranked);
    }
    forall o | o in offers
      ensures o in ranked
    {
      assert o in multiset(offers);
    }
    PrefixKeepsBest(rows, ranked, |top|);
  }

  /**
    groupby(offer).mean().sort_values(ascending=False)[:n_top].index over
    the selected rows: the offers with the best mean net return, best first.
  */
  function TopOffers(rows: seq<Row>, nTop: int): (top: seq<OfferId>)
    ensures nTop >= 0 ==> |top| == if nTop < |OffersOf(rows)| then nTop else |OffersOf(rows)|
    ensures nTop < 0 ==> |top| == if |OffersOf(rows)| + nTop > 0 then |OffersOf(rows)| + nTop else 0
    ensures Distinct(top)
    ensures forall o :: o in top ==> exists k :: 0 <= k < |rows| && rows[k].offer == o
    ensures RankedByMean(rows, top)
    ensures forall o, x :: o in OffersOf(rows) && o !in top && x in top ==>
      MeanReturn(rows, x) >= MeanReturn(rows, o)
  {
    var ranked := RankByMean(rows, OffersOf(rows));
    var top := TakeTop(ranked, nTop);
    TopOfRanking(rows, OffersOf(rows), ranked, top);
    top
  }

  /** make_recommendation; a Failure stands for the ValueError that int() raises. */
  function MakeRecommendation(rows: seq<Row>, gender: Option<string>, ageArg: Option<string>,
                              incomeArg: Option<string>, nTop: int): (r: Result<seq<OfferId>, Error>)
    ensures r.Failure? <==>
      (ageArg.Some? && ParseInt(ageArg.value).None?) || (incomeArg.Some? && ParseInt(incomeArg.value).None?)
    ensures r.Failure? && ageArg.Some? && ParseInt(ageArg.value).None? ==> r.error == NotAnInteger(ageArg.value)
  {
    var attributed := Where(rows, (r: Row) => r.completedAndViewed);
    match NormaliseAge(ageArg)
    case Failure(e) => Failure(e)
    case Success(age) =>
      match NormaliseIncome(incomeArg)
      case Failure(e) => Failure(e)
      case Success(income) => Success(TopOffers(SegmentRows(attributed, gender, age, income), nTop))
  }

  /** The rows a recommendation is computed from: attributed completions in the segment. */
  function Selected(rows: seq<Row>, c: Criteria): (s: seq<Row>)
    ensures forall x :: x in s <==> x in rows && x.completedAndViewed && Matches(x, c)
    ensures forall x :: multiset(s)[x] == if x.completedAndViewed && Matches(x, c) then multiset(rows)[x] else 0
  {
    WhereCounts(rows, (r: Row) => r.completedAndViewed && Matches(r, c));
    Where(rows, (r: Row) => r.completedAndViewed && Matches(r, c))
  }

  /**
    A successful recommendation ranks the offers of the attributed
    completions that match every criterion given, with age and income
    replaced by their buckets.
  */
  lemma RecommendationRanksSelected(rows: seq<Row>, gender: Option<string>, ageArg: Option<string>,
                                    incomeArg: Option<string>, nTop: int)
    requires NormaliseAge(ageArg).Success? && NormaliseIncome(incomeArg).Success?
    ensures MakeRecommendation(rows, gender, ageArg, incomeArg, nTop) ==
      Success(TopOffers(Selected(rows, Criteria(gender, NormaliseAge(ageArg).value, NormaliseIncome(incomeArg).value)), nTop))
  {
    var c := Criteria(gender, NormaliseAge(ageArg).value, NormaliseIncome(incomeArg).value);
    var attributed := Where(rows, (r: Row) => r.completedAndViewed);
    SegmentIsConjunction(attributed, c.gender, c.age, c.income);
    WhereWhere(rows, (r: Row) => r.completedAndViewed, (r: Row) => Matches(r, c), (r: Row) => r.completedAndViewed && Matches(r, c));
  }

  /** Every recommended offer was completed after a view by some customer of the segment. */
  lemma RecommendedOffersAttributed(rows: seq<Row>, gender: Option<string>, ageArg: Option<string>,
                                    incomeArg: Option<string>, nTop: int)
    requires NormaliseAge(ageArg).Success? && NormaliseIncome(incomeArg).Success?
    ensures MakeRecommendation(rows, gender, ageArg, incomeArg, nTop).Success?
    ensures forall o :: o in MakeRecommendation(rows, gender, ageArg, incomeArg, nTop).value ==>
      exists r :: (r in rows && r.completedAndViewed && r.offer == o &&
        Matches(r, Criteria(gender, NormaliseAge(ageArg).value, NormaliseIncome(incomeArg).value)))
  {
    RecommendationRanksSelected(rows, gender, ageArg, incomeArg, nTop);
    var s := Selected(rows, Criteria(gender, NormaliseAge(ageArg).value, NormaliseIncome(incomeArg).value));
    forall o | o in MakeRecommendation(rows, gender, ageArg, incomeArg, nTop).value
      ensures exists r :: (r in rows && r.completedAndViewed && r.offer == o &&
        Matches(r, Criteria(gender, NormaliseAge(ageArg).value, NormaliseIncome(incomeArg).value)))
    {
      var k :| 0 <= k < |s| && s[k].offer == o;
      assert s[k] in s;
    }
  }

  /** An age that falls in no bucket is ignored, as if no age had been given. */
  lemma UnbucketedAgeIgnored(rows: seq<Row>, gender: Option<string>, age: string,
                             incomeArg: Option<string>, nTop: int)
    requires ParseInt(age).Some? && !(10 < ParseInt(age).value <= 110)
    ensures MakeRecommendation(rows, gender, Some(age), incomeArg, nTop) ==
            MakeRecommendation(rows, gender, None, incomeArg, nTop)
  {
  }

  /** An income that falls in no bucket is ignored, as if no income had been given. */
  lemma UnbucketedIncomeIgnored(rows: seq<Row>, gender: Option<string>, ageArg: Option<string>,
                                income: string, nTop: int)
    requires ParseInt(income).Some? && !(20000 < ParseInt(income).value <= 120000)
    ensures MakeRecommendation(rows, gender, ageArg, Some(income), nTop) ==
            MakeRecommendation(rows, gender, ageArg, None, nTop)
  {
  }

  /** Two ages in the same bucket give the same recommendation. */
  lemma SameAgeBucketSameAnswer(rows: seq<Row>, gender: Option<string>, a1: int, a2: int,
                                incomeArg: Option<string>, nTop: int)
    requires RoundAge(a1) == RoundAge(a2)
    ensures MakeRecommendation(rows, gender, Some(ShowInt(a1)), incomeArg, nTop) ==
            MakeRecommendation(rows, gender, Some(ShowInt(a2)), incomeArg, nTop)
  {
    ParseShowInt(a1);
    ParseShowInt(a2);
  }

  /** Two incomes in the same bucket give the same recommendation. */
  lemma SameIncomeBucketSameAnswer(rows: seq<Row>, gender: Option<string>, ageArg: Option<string>,
                                   i1: int, i2: int, nTop: int)
    requires RoundIncome(i1) == RoundIncome(i2)
    ensures MakeRecommendation(rows, gender, ageArg, Some(ShowInt(i1)), nTop) ==
            MakeRecommendation(rows, gender, ageArg, Some(ShowInt(i2)), nTop)
  {
    ParseShowInt(i1);
    ParseShowInt(i2);
  }
}
