# Review trends and lazily enriched review listing

A Dafny model of the two read endpoints of the review service in
`assignment_1/main.py`:

- **`GET /reviews/trends`** (`get_reviews_trends`): for every category, in query
  order, that has at least one review, a record with the category's id, name and
  description, its review count and its mean star rating; the records are sorted by
  mean, highest first (Python's `sorted(..., reverse=True)`, which is stable), and
  the first five are returned. One access description, `"GET /reviews/trends"`, is
  handed to the background logging task.
- **`GET /reviews/?category_id=N`** (`get_reviews`): the reviews of category `N`,
  newest first. A review whose `tone` or `sentiment` is falsy (NULL or empty) is sent
  to the classifier and both labels are overwritten with its answer in the loaded
  row; one response record per review. When the loop finishes, one access
  description, `"GET /reviews/?category_id=N"`, is scheduled.
- **Marker stripping** in `get_tone_and_sentiment`: the classifier's reply goes
  through `replace('json', '')` and then `replace('```', '')` before it is parsed.

Modules:

| file | module | contents |
|---|---|---|
| `wrappers.dfy` | `Wrappers` | `Option` (nullable columns) and `Result` (exceptions that abort a request) |
| `sorting.dfy` | `Sorting` | stable insertion sort by a "ranks below" relation; permutation, order and stability lemmas for relations that compare a numeric key |
| `schema.dfy` | `Schema` | `Category` and `Review` rows; the storage queries (filter by category, `ORDER BY created_at DESC`, star sum) as functions |
| `markers.dfy` | `Markers` | Python `str.replace(p, '')` and the two-step marker stripping |
| `audit.dfy` | `Audit` | the two access descriptions and the decimal rendering of the category id |
| `indexing.dfy` | `Indexing` | the positions at which a list of flags holds `true`: the rows a loop acts on when it skips the others |
| `trends.dfy` | `Trends` | the aggregation loop (a method), the ranking and the top five, the handler |
| `listing.dfy` | `Listing` | the classifier call, the enrichment loop over an array of loaded rows (a method), the handler |

Design choices:

- The database is a value: the handlers receive the `category` rows and the
  `reviewhistory` rows as sequences; each query is a function over them.
- `average_stars` is kept exact as the pair (star sum, review count). Records are
  ordered by cross-multiplying, `Trends.RanksBelow`, which is proved equivalent to
  comparing the real means (`Trends.CrossMultiplication`).
- `ORDER BY created_at DESC` is modelled by the same stable sort, so rows with equal
  timestamps keep table order. SQL leaves their order open; this is one admissible
  choice. The properties of the query itself (which rows, newest first) hold for any
  tie order, but `Listing.GetReviews` states its result as the listing of this
  particular order, so the order of records with equal timestamps, and which row's
  failure is raised when several would fail, follow the choice made here.
- The rows that `get_reviews` loads are an `array<Review>` that the loop updates in
  place, as the loop assigns `review.tone` and `review.sentiment` on the loaded
  objects.
- The classifier is two parameters: `generate`, the model's reply text to the call
  made for the row at a given position of the loaded rows, or `None` when that call
  raises, and `parse`, an abstract `json.loads` that yields an object
  of strings or `None`. `Listing.Classify` strips the markers in between and reads
  `"Review Tone"` before `"Review Sentiment"`, so a reply lacking both fails on the
  tone key first.
- A handler "schedules" its access description by returning it in a list. The list
  holds exactly one description on success. It is empty when a classifier failure
  aborts `get_reviews`, because `log_access.apply_async` comes after the loop.
- `Listing.EnrichAndRespond` also returns the classifier requests it made, so that
  "not passed to the classifier" can be stated.

Behaviour of the code that is easy to overlook, and that the model follows:

- An empty label counts as missing, like NULL: the test is `not review.tone`.
- The enriched labels are only assigned on the loaded objects. Nothing commits them,
  and `updated_at` is not touched by this code.
- No access description is scheduled when the request fails.
- Categories with equal means stay in category query order, because `sorted` is
  stable; the model proves that.

## Model

| member | source | states |
|---|---|---|
| `Sorting.InsertByPermutes` | assignment_1/main.py:89 | inserting adds exactly the new element: nothing is lost or duplicated |
| `Sorting.SortByPermutes` | assignment_1/main.py:89 | the sorted list is a permutation of the records (same multiset) |
| `Sorting.InsertBySorted` | assignment_1/main.py:89 | when ranks compare a numeric key, inserting into a sorted list keeps it sorted |
| `Sorting.SortBySorted` | assignment_1/main.py:89 | when ranks compare a numeric key, every element ranks at least as high as every later one |
| `Sorting.SortByStable` | assignment_1/main.py:89 | when ranks compare a numeric key, the elements tied with any given element keep their input order (the stability of `sorted`) |
| `Sorting.InsertByStable` | assignment_1/main.py:89 | inserting into a sorted list puts the new element after all its equals |
| `Sorting.InsertBehindStable` | assignment_1/main.py:89 | inserting behind a head that does not rank below the new element keeps the head's tied entries in front |
| `Schema.ReviewsIn` | assignment_1/main.py:73-74 | `filter(ReviewHistory.category_id == id)` as a function over the table; what it selects is stated by `Schema.ReviewsInCounts` and `Schema.ReviewsInMembers` |
| `Schema.StarSum` | assignment_1/main.py:77-78 | the sum of `stars` that `func.avg` divides by the row count; bounded by `Schema.StarSumBounds` |
| `Schema.NewestFirst` | assignment_1/main.py:100-101 | `order_by(created_at.desc())` as the stable sort by timestamp; stated by `Schema.ReviewsByCategoryShape` |
| `Schema.ReviewsByCategory` | assignment_1/main.py:100-101 | the whole category query of `get_reviews`; stated by `Schema.ReviewsByCategoryShape` |
| `Schema.ReviewsInCounts` | assignment_1/main.py:73-79 | filtering by `category_id` keeps each row of the category exactly as often as it is stored and drops all others |
| `Schema.ReviewsInMembers` | assignment_1/main.py:100 | a row is selected if and only if it is stored and its `category_id` equals the argument |
| `Schema.ReviewsByCategoryShape` | assignment_1/main.py:100-101 | the category query returns exactly that category's rows, ordered by non-increasing `created_at`; an unknown category yields no rows |
| `Schema.StarSumBounds` | assignment_1/main.py:77-78 | star ratings within `[lo, hi]` sum to between `lo` and `hi` times their count |
| `Markers.RemoveAll` | assignment_1/main.py:63 | `replace(p, '')` never lengthens the string |
| `Markers.AbsentUnchanged` | assignment_1/main.py:63 | `replace(p, '')` returns the string itself when `p` does not occur in it |
| `Markers.PresentShortens` | assignment_1/main.py:63 | `replace(p, '')` strictly shortens a string in which `p` occurs |
| `Markers.RemoveAllUnchangedIff` | assignment_1/main.py:63 | `replace(p, '')` leaves a string unchanged if and only if `p` does not occur in it |
| `Markers.NoFenceAfterRemoval` | assignment_1/main.py:63 | after `replace('```', '')` no three backticks in a row remain |
| `Markers.StripMarkersProperties` | assignment_1/main.py:63 | the stripped reply is no longer than the reply, equals it when neither marker occurs, is strictly shorter when either occurs, and contains no fence |
| `Markers.WrappedReply` | assignment_1/main.py:63 | a reply wrapped as "```json" + body + "```" is cleaned to the body, when the body holds neither marker |
| `Markers.TagRemoved` | assignment_1/main.py:63 | the first `replace` removes the `json` tag of a wrapped reply and leaves both fences |
| `Markers.ClosingFenceRemoved` | assignment_1/main.py:63 | a fence-free string followed by one fence loses exactly that fence under the second `replace`, even when the string ends in backticks |
| `Markers.StripMarkers` | assignment_1/main.py:63 | `replace('json','').replace('```','')` as two `Markers.RemoveAll` steps; stated by `Markers.StripMarkersProperties` |
| `Audit.NatString` | assignment_1/main.py:123 | Python's rendering of a non-negative int is a non-empty string of digits; a leading zero occurs only in `"0"`, the rendering of 0 |
| `Audit.DecimalString` | assignment_1/main.py:123 | how the f-string renders `category_id`: a minus sign before the digits of a negative number; stated by `Audit.DecimalRoundTrip` |
| `Audit.ListingAccess` | assignment_1/main.py:123 | the listing's access description; stated by `Audit.ListingAccessNamesCategory` and `Audit.DescriptionsDistinct` |
| `Audit.NatStringRoundTrip` | assignment_1/main.py:123 | the digits Python writes for a non-negative int read back as that int |
| `Audit.DecimalRoundTrip` | assignment_1/main.py:123 | the f-string rendering of any int, sign included, reads back as that int |
| `Audit.ListingAccessNamesCategory` | assignment_1/main.py:123 | the listing description carries the category id: it can be read back, and distinct ids give distinct descriptions |
| `Audit.DescriptionsDistinct` | assignment_1/main.py:92-123 | no listing description equals the trends description |
| `Trends.TrendOf` | assignment_1/main.py:76-86 | the record appended for a category with reviews: its id, name and description, its star sum and review count; stated by `Trends.CollectedFromCategories` and `Trends.TrendMeanInRange` |
| `Trends.TrendMeanInRange` | assignment_1/main.py:77-78 | a category's mean lies between the lowest and the highest star rating its reviews can have |
| `Trends.MeanBounds` | assignment_1/main.py:77-78 | a record whose star sum lies between `lo` and `hi` times its count has its mean in `[lo, hi]` |
| `Trends.Collected` | assignment_1/main.py:72-86 | the records the loop appends, in category order; stated by `Trends.CollectedFromCategories` and `Trends.CollectedEntries` |
| `Trends.CrossMultiplication` | assignment_1/main.py:77-89 | comparing cross products orders records exactly as comparing their mean star ratings |
| `Trends.RanksBelowByMean` | assignment_1/main.py:89 | the record order ranks records by their mean star rating, so the sort lemmas apply with the mean as key |
| `Indexing.Positions` | assignment_1/main.py:72-76 | the positions of the elements a loop keeps, in order; stated by `Indexing.PositionsShape` |
| `Indexing.PositionsShape` | assignment_1/main.py:72-76 | the kept positions are in range, strictly increasing, and a position is listed exactly when its flag is `true` |
| `Trends.CategoriesWithReviewsPositions` | assignment_1/main.py:72-76 | a category's position is listed exactly when it has reviews, and positions follow category order |
| `Trends.CollectedFromCategories` | assignment_1/main.py:72-86 | one record per category with reviews: record k is built from the k-th category with reviews, in category order |
| `Trends.CollectedEntries` | assignment_1/main.py:72-86 | every collected record is the record of some category that has reviews |
| `Trends.Ranked` | assignment_1/main.py:89 | `sorted(trends, key=average_stars, reverse=True)`; stated by `Trends.RankedByMean` and `Trends.TrendsTiesKeepCategoryOrder` |
| `Trends.TopFive` | assignment_1/main.py:89 | the slice `[:5]`: a prefix of the ranked list of length min(n, 5) |
| `Trends.TrendsOf` | assignment_1/main.py:72-89 | the handler's answer; stated by `Trends.TrendsRanking` and `Trends.TrendsFromCategories` |
| `Trends.RankedByMean` | assignment_1/main.py:89 | the sorted records are a permutation of the collected ones with non-increasing means |
| `Trends.TopFiveSplit` | assignment_1/main.py:89 | slicing `[:5]` keeps at most five records, still ranked, and no record cut off has a higher mean than the last one kept |
| `Trends.TrendsRanking` | assignment_1/main.py:89 | at most five records with non-increasing means; kept and omitted records together are all the collected ones; no omitted record has a higher mean than the last one kept |
| `Trends.TrendsTiesKeepCategoryOrder` | assignment_1/main.py:89 | records with equal means appear in the order of their categories |
| `Trends.TrendsFromCategories` | assignment_1/main.py:72-89 | each returned record copies a category's id, name and description with that category's review count and star sum; no category without reviews appears |
| `Trends.CollectTrends` | assignment_1/main.py:70-86 | the aggregation loop builds exactly the records of the categories with reviews, in category order |
| `Trends.GetReviewsTrends` | assignment_1/main.py:67-94 | the handler returns the ranked top five, means non-increasing, every record from a category with reviews, and schedules exactly `"GET /reviews/trends"` |
| `Listing.Classify` | assignment_1/main.py:55-64 | `get_tone_and_sentiment`; stated by `Listing.ClassifyOutcome` and `Listing.ClassifyIgnoresMarkers` |
| `Listing.ClassifyOutcome` | assignment_1/main.py:55-64 | the call raising gives `ClassifierUnavailable` and nothing else does; a reply that does not parse gives `MalformedReply`; success exactly when the reply with its markers stripped parses and holds both keys, the pair then read from them; a parsed object without `"Review Tone"` fails on that key |
| `Listing.ClassifyIgnoresMarkers` | assignment_1/main.py:55-64 | a reply wrapped as a code block tagged `json` is classified exactly as its bare body, when the body holds neither marker |
| `Listing.Enrich` | assignment_1/main.py:106-109 | a row with both labels truthy is kept without consulting the classifier; otherwise both labels become the classifier's pair, or the classifier's failure is raised; no other field changes |
| `Listing.Respond` | assignment_1/main.py:111-120 | the response record of a row; stated by `Listing.ListingRecords` |
| `Listing.ListingOutcome` | assignment_1/main.py:103-120 | the loop's outcome as a function of the loaded rows; stated by `Listing.ListingShape` and `Listing.ListingRecords` |
| `Listing.Requests` | assignment_1/main.py:106-107 | the classifier calls the loop makes; stated by `Listing.RequestsPerIncompleteRow` and `Listing.RequestsForIncomplete` |
| `Listing.ListingStep` | assignment_1/main.py:104-120 | one more row either appends its record to the response list or raises that row's failure |
| `Listing.RequestsStep` | assignment_1/main.py:106-107 | one more row adds a classifier request exactly when that row is incomplete |
| `Listing.ListingFailureSticks` | assignment_1/main.py:104-109 | once a row fails, later rows do not change the outcome: the first failure is what the request raises |
| `Listing.ListingShape` | assignment_1/main.py:103-120 | the listing succeeds if and only if every row can be enriched; then it has one record per row, in order; otherwise it fails with the first failing row's failure |
| `Listing.ListingRecords` | assignment_1/main.py:104-120 | each record keeps the row's id, text, stars, review_id, created_at and category_id; the labels are the stored ones for a complete row, the classifier's pair otherwise |
| `Listing.RequestsForIncomplete` | assignment_1/main.py:106-107 | a request is made exactly when some incomplete row carries it; there are at most as many calls as rows, and none when every row is complete |
| `Listing.RequestsAtPositions` | assignment_1/main.py:104-107 | the k-th call is the request of the row at the k-th incomplete position |
| `Listing.RequestsPerIncompleteRow` | assignment_1/main.py:104-107 | exactly one classifier call per incomplete row, in row order, and none for a complete row |
| `Listing.RequestsPrefix` | assignment_1/main.py:104-107 | the calls made for the first rows are a prefix of the calls made for all of them |
| `Listing.EnrichAndRespond` | assignment_1/main.py:103-120 | the loop over the loaded rows yields the listing; rows before the first failure are enriched in place, the others untouched; the calls made are those of the incomplete rows reached |
| `Listing.CategoryListing` | assignment_1/main.py:100-120 | the records of a successful listing of a category belong to it and come newest first; a category no row refers to has no rows |
| `Listing.GetReviews` | assignment_1/main.py:97-125 | records only of the requested category, newest first; an unknown category gives an empty list and no classifier call; exactly one description `"GET /reviews/?category_id=N"` on success, none on failure; on failure the calls made are those of the rows up to the first failing one, a prefix of the calls a full run would make |

## Left out

- The generative model call (`assignment_1/main.py:15-20`, `56-62`): it is a network call to a non-deterministic service. It is a parameter `generate`; it takes the row's position in the loaded list besides the request, so rows that carry the same request can still get different replies, or one can fail while the other succeeds. The prompt text is not modelled, only the four values it carries.
- `json.loads` (`assignment_1/main.py:63`): it is an abstract parser returning an object of strings. A JSON value of another type (a number, `null`) stored into the label columns is not modelled. A parse error and a missing key are failures that abort the request.
- Storage (`get_db`, sessions, `db.query`): the tables are sequences and the queries are functions. Storage failures are not modelled. `func.avg` returns a float; the model uses the exact mean, so two means that differ but round to the same float would compare differently.
- `Trends.CollectTrends` tests whether a category has reviews on the filtered rows. The source queries them ordered by `created_at` only to look at the first one, and that order does not affect the outcome.
- Persistence of the enriched labels: the code never commits the session, so the model promises only the in-memory update. `updated_at` is left out: its `onupdate` value is computed once at import time, and nothing is flushed.
- The Celery task `log_access` (`assignment_1/tasks/task.py:8-25`): it is fire-and-forget over a queue, and its body only reads and prints existing rows. The model states only which description each handler schedules, never an append to the access log.
- Timestamps: `created_at` is an opaque integer with ties allowed; the `isoformat()` rendering in the response is not modelled.
- FastAPI routing, the pydantic response models and `uvicorn.run` (`assignment_1/main.py:22-45`, `128-129`), and environment loading. Response validation of a NULL `text`, `description` or label against a `str` field is not modelled; the records carry the nullable values.
- Concurrency: two requests enriching the same review race, and the last write wins. Nothing in the code handles it, and the model is sequential.
