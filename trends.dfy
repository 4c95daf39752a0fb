/**
 * `GET /reviews/trends`: per category with at least one review, its review count and
 * mean star rating; ranked by mean, highest first, with ties in category order; the
 * first five are returned and one access description is scheduled.
 */
module Trends {
  import opened Wrappers
  import opened Schema
  import Sorting
  import Audit
  import opened Indexing

  const TrendLimit: nat := 5

  type PositiveCount = n: nat | 0 < n witness 1

  /**
   * One response record. The mean `average_stars` is kept exact, as the pair
   * `starSum / totalReviews`; a category without reviews never gets a record.
   */
  datatype Trend = Trend(
    id: int,
    name: string,
    description: Option<string>,
    starSum: int,
    totalReviews: PositiveCount)

  /** The mean star rating the record stands for. */
  ghost function AverageStars(t: Trend): real {
    t.starSum as real / t.totalReviews as real
  }

  /** `a` has the lower mean, compared by cross-multiplication. */
  predicate RanksBelow(a: Trend, b: Trend) {
    a.starSum * b.totalReviews < b.starSum * a.totalReviews
  }

  predicate HasReviews(c: Category, table: seq<Review>) {
    ReviewsIn(table, c.id) != []
  }

  /** The record built for a category that has reviews. */
  function TrendOf(c: Category, table: seq<Review>): (t: Trend)
    requires HasReviews(c, table)
  {
    var rows := ReviewsIn(table, c.id);
    Trend(c.id, c.name, c.description, StarSum(rows), |rows|)
  }

  /** The records the loop appends, one per category with reviews, in category order. */
  function Collected(categories: seq<Category>, table: seq<Review>): (r: seq<Trend>)
    ensures |r| <= |categories|
  {
    if categories == [] then []
    else
      var init, c := categories[..|categories| - 1], categories[|categories| - 1];
      Collected(init, table) + if HasReviews(c, table) then [TrendOf(c, table)] else []
  }

  /** Which categories have reviews, position by position. */
  function ReviewFlags(categories: seq<Category>, table: seq<Review>): (flags: seq<bool>)
    ensures |flags| == |categories|
  {
    seq(|categories|, j requires 0 <= j < |categories| => HasReviews(categories[j], table))
  }

  /** The positions, in `categories`, of the categories that have reviews. */
  function CategoriesWithReviews(categories: seq<Category>, table: seq<Review>): seq<nat> {
    Positions(ReviewFlags(categories, table))
  }

  function Ranked(trends: seq<Trend>): seq<Trend> {
    Sorting.SortBy(trends, RanksBelow)
  }

  /** The slice `[:5]`: the first five records, or all of them when there are fewer. */
  function TopFive(ranked: seq<Trend>): (r: seq<Trend>)
    ensures |r| == (if |ranked| < TrendLimit then |ranked| else TrendLimit)
    ensures r <= ranked
  {
    if |ranked| <= TrendLimit then ranked else ranked[..TrendLimit]
  }

  /** The handler's answer: `sorted(trends, key=average_stars, reverse=True)[:5]`. */
  function TrendsOf(categories: seq<Category>, table: seq<Review>): seq<Trend> {
    TopFive(Ranked(Collected(categories, table)))
  }

  function BeyondTopFive(ranked: seq<Trend>): seq<Trend> {
    if |ranked| <= TrendLimit then [] else ranked[TrendLimit..]
  }

  /** The non-empty categories ranked below the fifth place. */
  function Omitted(categories: seq<Category>, table: seq<Review>): seq<Trend> {
    BeyondTopFive(Ranked(Collected(categories, table)))
  }

  /** Means do not increase along `s`. */
  ghost predicate MeansNonIncreasing(s: seq<Trend>) {
    forall i, j :: 0 <= i < j < |s| ==> AverageStars(s[j]) <= AverageStars(s[i])
  }

  /**
   * The mean of a category's record lies between the lowest and the highest star
   * rating its reviews can have.
   */
  lemma {:induction false} TrendMeanInRange(c: Category, table: seq<Review>, lo: int, hi: int)
    requires HasReviews(c, table)
    requires forall r :: r in ReviewsIn(table, c.id) ==> lo <= r.stars <= hi
    ensures lo as real <= AverageStars(TrendOf(c, table)) <= hi as real
  {
    var t := TrendOf(c, table);
    StarSumBounds(ReviewsIn(table, c.id), lo, hi);
    assert lo * t.totalReviews <= t.starSum <= hi * t.totalReviews;
    MeanBounds(t, lo, hi);
  }

  /** A record whose star sum lies between `lo` and `hi` times its count has its mean in `[lo, hi]`. */
  lemma MeanBounds(t: Trend, lo: int, hi: int)
    requires lo * t.totalReviews <= t.starSum <= hi * t.totalReviews
    ensures lo as real <= AverageStars(t) <= hi as real
  {
    ScaledBounds(t.starSum, t.totalReviews, lo, hi);
    QuotientBounds(t.starSum as real, t.totalReviews as real, lo as real, hi as real);
  }

  /** Integer bounds on `s` carry over to the reals. */
  lemma ScaledBounds(s: int, n: nat, lo: int, hi: int)
    requires lo * n <= s <= hi * n
    ensures lo as real * n as real <= s as real <= hi as real * n as real
  {
    assert (lo * n) as real == lo as real * n as real;
    assert (hi * n) as real == hi as real * n as real;
  }

  /** A quotient by a positive number lies between the bounds its numerator is scaled from. */
  lemma QuotientBounds(s: real, n: real, lo: real, hi: real)
    requires n > 0.0 && lo * n <= s <= hi * n
    ensures lo <= s / n <= hi
  {
    var q := s / n;
    assert q * n == s;
  }

  /** Comparing cross products decides the same order as comparing the means. */
  lemma {:induction false} CrossMultiplication(a: Trend, b: Trend)
    ensures RanksBelow(a, b) <==> AverageStars(a) < AverageStars(b)
  {
    var ca, cb := a.totalReviews as real, b.totalReviews as real;
    var ma, mb := AverageStars(a), AverageStars(b);
    assert a.starSum as real == ma * ca;
    assert b.starSum as real == mb * cb;
    assert (a.starSum * b.totalReviews) as real == (ma * ca) * cb;
    assert (b.starSum * a.totalReviews) as real == (mb * cb) * ca;
    assert (ma * ca) * cb == ma * (ca * cb);
    assert (mb * cb) * ca == mb * (ca * cb);
    assert ca * cb > 0.0;
  }

  /** Records are ranked by their mean, so the sorting lemmas apply with the mean as key. */
  lemma {:induction false} RanksBelowByMean()
    ensures Sorting.RanksByKey(RanksBelow, AverageStars)
  {
    forall a, b ensures RanksBelow(a, b) <==> AverageStars(a) < AverageStars(b) {
      CrossMultiplication(a, b);
    }
  }

  /**
   * The positions of the categories with reviews: in range, strictly increasing, and a
   * position occurs exactly when its category has reviews.
   */
  lemma {:induction false} CategoriesWithReviewsPositions(categories: seq<Category>, table: seq<Review>)
    ensures var idx := CategoriesWithReviews(categories, table);
      && (forall k :: 0 <= k < |idx| ==> idx[k] < |categories|)
      && (forall k, l :: 0 <= k < l < |idx| ==> idx[k] < idx[l])
      && (forall j :: 0 <= j < |categories| ==> (HasReviews(categories[j], table) <==> j in idx))
  {
    var flags := ReviewFlags(categories, table);
    PositionsShape(flags);
    assert forall j :: 0 <= j < |categories| ==> flags[j] == HasReviews(categories[j], table);
  }

  /**
   * `Collected` holds exactly one record per category with reviews, in category
   * order: record k is built from the category at position `idx[k]`, where `idx`
   * lists the positions of the categories with reviews.
   */
  lemma {:induction false} CollectedFromCategories(categories: seq<Category>, table: seq<Review>)
    ensures var idx, all := CategoriesWithReviews(categories, table), Collected(categories, table);
      && |idx| == |all|
      && (forall k :: 0 <= k < |idx| ==>
            idx[k] < |categories| && HasReviews(categories[idx[k]], table)
            && all[k] == TrendOf(categories[idx[k]], table))
  {
    if categories != [] {
      var n := |categories| - 1;
      var init, last := categories[..n], categories[n];
      var idx0, all0 := CategoriesWithReviews(init, table), Collected(init, table);
      var idx, all := CategoriesWithReviews(categories, table), Collected(categories, table);
      CollectedFromCategories(init, table);
      var has := HasReviews(last, table);
      assert ReviewFlags(categories, table)[..n] == ReviewFlags(init, table);
      assert idx == idx0 + if has then [n] else [];
      assert all == all0 + if has then [TrendOf(last, table)] else [];
      forall k | 0 <= k < |idx0|
        ensures idx[k] < |categories| && HasReviews(categories[idx[k]], table)
        ensures all[k] == TrendOf(categories[idx[k]], table)
      {
        assert idx[k] == idx0[k] && all[k] == all0[k];
        assert init[idx0[k]] == categories[idx0[k]];
      }
    }
  }

  /** Every record is built from some category that has reviews. */
  lemma {:induction false} CollectedEntries(categories: seq<Category>, table: seq<Review>)
    ensures forall t :: t in Collected(categories, table) ==>
      exists c :: c in categories && HasReviews(c, table) && t == TrendOf(c, table)
  {
    var idx, all := CategoriesWithReviews(categories, table), Collected(categories, table);
    CollectedFromCategories(categories, table);
    forall t | t in all ensures exists c :: c in categories && HasReviews(c, table) && t == TrendOf(c, table) {
      var k :| 0 <= k < |all| && all[k] == t;
      assert categories[idx[k]] in categories;
    }
  }

  /** The ranked records: a permutation of the input, means non-increasing along it. */
  lemma {:induction false} RankedByMean(trends: seq<Trend>)
    ensures multiset(Ranked(trends)) == multiset(trends)
    ensures MeansNonIncreasing(Ranked(trends))
  {
    RanksBelowByMean();
    Sorting.SortBySorted(trends, RanksBelow, AverageStars);
    Sorting.SortByPermutes(trends, RanksBelow);
  }

  /** Cutting a ranked list after the fifth record: the kept part is ranked and outranks the rest. */
  lemma {:induction false} TopFiveSplit(ranked: seq<Trend>)
    requires MeansNonIncreasing(ranked)
    ensures var out, rest := TopFive(ranked), BeyondTopFive(ranked);
      && out + rest == ranked
      && |out| == (if |ranked| < TrendLimit then |ranked| else TrendLimit)
      && MeansNonIncreasing(out)
      && (forall t :: t in rest ==> AverageStars(t) <= AverageStars(out[|out| - 1]))
  {
    var out, rest := TopFive(ranked), BeyondTopFive(ranked);
    forall t | t in rest ensures AverageStars(t) <= AverageStars(out[|out| - 1]) {
      var j :| 0 <= j < |rest| && rest[j] == t;
      assert ranked[TrendLimit + j] == t;
    }
  }

  /**
   * The ranking: at most five records, means non-increasing along the output, the
   * output and the omitted records together are exactly the collected records, and
   * no omitted record has a higher mean than the last one kept.
   */
  lemma {:induction false} TrendsRanking(categories: seq<Category>, table: seq<Review>)
    ensures var out, all, rest := TrendsOf(categories, table), Collected(categories, table), Omitted(categories, table);
      && |out| == (if |all| < TrendLimit then |all| else TrendLimit)
      && (forall i, j :: 0 <= i < j < |out| ==> AverageStars(out[j]) <= AverageStars(out[i]))
      && multiset(out) + multiset(rest) == multiset(all)
      && (forall t :: t in rest ==> AverageStars(t) <= AverageStars(out[|out| - 1]))
  {
    var all := Collected(categories, table);
    var ranked := Ranked(all);
    RankedByMean(all);
    TopFiveSplit(ranked);
    assert multiset(TopFive(ranked) + BeyondTopFive(ranked)) == multiset(all);
  }

  /** Records with equal means keep the order of their categories. */
  lemma {:induction false} TrendsTiesKeepCategoryOrder(categories: seq<Category>, table: seq<Review>, k: Trend)
    ensures var tied := Sorting.TiedWith(Collected(categories, table), k, RanksBelow);
      Sorting.TiedWith(TrendsOf(categories, table), k, RanksBelow) <= tied
  {
    var all := Collected(categories, table);
    var ranked := Ranked(all);
    var out := TrendsOf(categories, table);
    RanksBelowByMean();
    Sorting.SortByStable(all, k, RanksBelow, AverageStars);
    assert ranked == out + ranked[|out|..];
    Sorting.TiedWithAppend(out, ranked[|out|..], k, RanksBelow);
  }

  /**
   * Every returned record is some category's record, with that category's id, name and
   * description, its review count and its star sum; so a category without reviews
   * (whose id no record carries) never appears.
   */
  lemma {:induction false} TrendsFromCategories(categories: seq<Category>, table: seq<Review>)
    ensures forall t :: t in TrendsOf(categories, table) ==>
      exists c :: c in categories && HasReviews(c, table) && t == TrendOf(c, table)
    ensures forall c, t :: c in categories && !HasReviews(c, table) && t in TrendsOf(categories, table) ==>
      t.id != c.id
  {
    var all, out := Collected(categories, table), TrendsOf(categories, table);
    TrendsRanking(categories, table);
    CollectedEntries(categories, table);
    forall t | t in out ensures t in all {
      assert t in multiset(out);
      assert t in multiset(all);
    }
  }

  /**
   * The loop of the handler: for each category, in query order, skip it when it has
   * no reviews, otherwise append its record.
   */
  method CollectTrends(categories: seq<Category>, table: seq<Review>) returns (trends: seq<Trend>)
    ensures trends == Collected(categories, table)
  {
    trends := [];
    var i := 0;
    while i < |categories|
      invariant 0 <= i <= |categories|
      invariant trends == Collected(categories[..i], table)
    {
      var category := categories[i];
      var reviews := ReviewsIn(table, category.id);
      if reviews != [] {
        trends := trends + [Trend(category.id, category.name, category.description, StarSum(reviews), |reviews|)];
      }
      assert categories[..i + 1][..i] == categories[..i];
      i := i + 1;
    }
    assert categories[..i] == categories;
  }

  /** `get_reviews_trends`: the ranked top five, and exactly one access description. */
  method GetReviewsTrends(categories: seq<Category>, table: seq<Review>) returns (trends: seq<Trend>, audit: seq<string>)
    ensures trends == TrendsOf(categories, table)
    ensures |trends| <= TrendLimit
    ensures forall i, j :: 0 <= i < j < |trends| ==> AverageStars(trends[j]) <= AverageStars(trends[i])
    ensures forall t :: t in trends ==> exists c :: c in categories && HasReviews(c, table) && t == TrendOf(c, table)
    ensures audit == [Audit.TrendsAccess]
  {
    var collected := CollectTrends(categories, table);
    trends := TopFive(Ranked(collected));
    audit := [Audit.TrendsAccess];
    TrendsRanking(categories, table);
    TrendsFromCategories(categories, table);
  }
}
