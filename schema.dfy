/**
 * The stored rows the handlers read (the `category` and `reviewhistory` tables) and
 * the storage queries they issue, as functions over the table contents.
 */
module Schema {
  import opened Wrappers
  import Sorting

  /** A `category` row; `description` is a nullable text column. */
  datatype Category = Category(id: int, name: string, description: Option<string>)

  /**
   * A `reviewhistory` row. `text`, `tone`, `sentiment` and the foreign key `categoryId`
   * are nullable; `createdAt` is an opaque timestamp in which ties are allowed.
   */
  datatype Review = Review(
    id: int,
    text: Option<string>,
    stars: int,
    reviewId: string,
    tone: Option<string>,
    sentiment: Option<string>,
    categoryId: Option<int>,
    createdAt: int)

  /** Python truthiness of a nullable string column: neither None nor empty. */
  predicate Truthy(field: Option<string>) {
    field.Some? && field.value != []
  }

  /** The rows whose `category_id` equals `categoryId`, in table order (a NULL key never matches). */
  function ReviewsIn(table: seq<Review>, categoryId: int): seq<Review> {
    if table == [] then []
    else
      var init, last := table[..|table| - 1], table[|table| - 1];
      ReviewsIn(init, categoryId) + (if last.categoryId == Some(categoryId) then [last] else [])
  }

  /**
   * The filter keeps each row of the category exactly as often as it is stored and
   * drops every other row.
   */
  lemma {:induction false} ReviewsInCounts(table: seq<Review>, categoryId: int)
    ensures var r := ReviewsIn(table, categoryId);
      forall x :: multiset(r)[x] == if x.categoryId == Some(categoryId) then multiset(table)[x] else 0
  {
    if table != [] {
      var init, last := table[..|table| - 1], table[|table| - 1];
      assert table == init + [last];
      ReviewsInCounts(init, categoryId);
    }
  }

  lemma {:induction false} ReviewsInMembers(table: seq<Review>, categoryId: int)
    ensures forall x :: x in ReviewsIn(table, categoryId) <==> x in table && x.categoryId == Some(categoryId)
  {
    ReviewsInCounts(table, categoryId);
    forall x ensures x in ReviewsIn(table, categoryId) <==> x in table && x.categoryId == Some(categoryId) {
      assert x in ReviewsIn(table, categoryId) <==> x in multiset(ReviewsIn(table, categoryId));
      assert x in table <==> x in multiset(table);
    }
  }

  /** The sum of `stars` over some rows (the numerator of SQL `AVG(stars)`). */
  function StarSum(rows: seq<Review>): int {
    if rows == [] then 0 else StarSum(rows[..|rows| - 1]) + rows[|rows| - 1].stars
  }

  /** Star ratings within `[lo, hi]` sum to between `lo` and `hi` times their count. */
  lemma {:induction false} StarSumBounds(rows: seq<Review>, lo: int, hi: int)
    requires forall r :: r in rows ==> lo <= r.stars <= hi
    ensures lo * |rows| <= StarSum(rows) <= hi * |rows|
  {
    if rows != [] {
      var init := rows[..|rows| - 1];
      assert forall r :: r in init ==> r in rows;
      StarSumBounds(init, lo, hi);
      assert rows[|rows| - 1] in rows;
      var m := |init|;
      assert lo * (m + 1) == lo * m + lo && hi * (m + 1) == hi * m + hi;
    }
  }

  /** `a` sorts after `b` under `ORDER BY created_at DESC`. */
  predicate OlderThan(a: Review, b: Review) {
    a.createdAt < b.createdAt
  }

  /** `ORDER BY created_at DESC`; rows with equal timestamps keep table order. */
  function NewestFirst(rows: seq<Review>): seq<Review> {
    Sorting.SortBy(rows, OlderThan)
  }

  /** `query(ReviewHistory).filter(category_id == categoryId).order_by(created_at.desc()).all()` */
  function ReviewsByCategory(table: seq<Review>, categoryId: int): seq<Review> {
    NewestFirst(ReviewsIn(table, categoryId))
  }

  /** The timestamp as the sort key. */
  ghost function CreatedAtKey(r: Review): real {
    r.createdAt as real
  }

  /**
   * The category query returns exactly the rows of that category, each as often as it
   * is stored, newest first; a category nothing refers to yields no rows.
   */
  lemma {:induction false} ReviewsByCategoryShape(table: seq<Review>, categoryId: int)
    ensures var q := ReviewsByCategory(table, categoryId);
      && (forall x :: multiset(q)[x] == if x.categoryId == Some(categoryId) then multiset(table)[x] else 0)
      && (forall x :: x in q ==> x.categoryId == Some(categoryId))
      && (forall i, j :: 0 <= i < j < |q| ==> q[j].createdAt <= q[i].createdAt)
      && ((forall x :: x in table ==> x.categoryId != Some(categoryId)) ==> q == [])
  {
    var q := ReviewsByCategory(table, categoryId);
    ReviewsInCounts(table, categoryId);
    Sorting.SortByPermutes(ReviewsIn(table, categoryId), OlderThan);
    assert Sorting.RanksByKey(OlderThan, CreatedAtKey);
    Sorting.SortBySorted(ReviewsIn(table, categoryId), OlderThan, CreatedAtKey);
    forall x | x in q ensures x.categoryId == Some(categoryId) {
      assert x in multiset(q);
    }
    if forall x :: x in table ==> x.categoryId != Some(categoryId) {
      if q != [] {
        assert q[0] in q;
      }
    }
  }
}
