/**
 * `GET /reviews/?category_id=...`: the category's reviews, newest first; each review
 * whose tone or sentiment is missing or empty is sent to the classifier and gets both
 * fields overwritten with its answer, in the loaded row; one response record per
 * review; one access description is scheduled once the loop has finished.
 */
module Listing {
  import opened Wrappers
  import opened Schema
  import Markers
  import Audit
  import opened Indexing

  /** What the prompt sent to the classifier carries: text, stars, tone and sentiment. */
  datatype ClassifierRequest = ClassifierRequest(
    text: Option<string>,
    stars: int,
    tone: Option<string>,
    sentiment: Option<string>)

  /** The exceptions that abort the request. */
  datatype Failure =
    | ClassifierUnavailable     // the call to the generative model raised
    | MalformedReply            // `json.loads` rejected the cleaned reply
    | MissingKey(key: string)   // the parsed object lacks one of the two keys

  /**
   * The generative model: the reply text to the call made for the row at a given
   * position of the loaded rows, or `None` when that call raises. Each row is its own
   * call, so two rows carrying the same request may get different replies.
   */
  type Generator = (nat, ClassifierRequest) -> Option<string>

  /** `json.loads` restricted to objects of strings: `None` when the text is not one. */
  type JsonParser = string -> Option<map<string, string>>

  const ToneKey: string := "Review Tone"
  const SentimentKey: string := "Review Sentiment"

  /** One element of the response list. */
  datatype ReviewResponse = ReviewResponse(
    id: int,
    text: Option<string>,
    stars: int,
    reviewId: string,
    createdAt: int,
    tone: Option<string>,
    sentiment: Option<string>,
    categoryId: Option<int>)

  /** Both labels are truthy: the classifier is not consulted. */
  predicate Complete(r: Review) {
    Truthy(r.tone) && Truthy(r.sentiment)
  }

  function RequestFor(r: Review): ClassifierRequest {
    ClassifierRequest(r.text, r.stars, r.tone, r.sentiment)
  }

  /**
   * `get_tone_and_sentiment`: ask the model, strip the markers from its reply, parse
   * it, and read "Review Tone" and then "Review Sentiment".
   */
  function Classify(position: nat, request: ClassifierRequest, generate: Generator, parse: JsonParser): Result<(string, string), Failure> {
    match generate(position, request)
    case None => Failure(ClassifierUnavailable)
    case Some(reply) =>
      match parse(Markers.StripMarkers(reply))
      case None => Failure(MalformedReply)
      case Some(data) =>
        if ToneKey !in data then Failure(MissingKey(ToneKey))
        else if SentimentKey !in data then Failure(MissingKey(SentimentKey))
        else Success((data[ToneKey], data[SentimentKey]))
  }

  /**
   * What one pass of the loop does to a row: a complete row is kept as it is without
   * consulting the classifier; otherwise both labels are replaced by the classifier's
   * pair (even one that was set), or the request fails with the classifier's failure.
   * No other field changes.
   */
  function Enrich(r: Review, position: nat, generate: Generator, parse: JsonParser): (e: Result<Review, Failure>)
    ensures Complete(r) ==> e == Success(r)
    ensures e.Failure? ==> !Complete(r) && Classify(position, RequestFor(r), generate, parse) == Failure(e.error)
    ensures e.Success? ==> e.value.(tone := r.tone, sentiment := r.sentiment) == r
    ensures e.Success? && !Complete(r) ==>
      && e.value.tone.Some? && e.value.sentiment.Some?
      && Classify(position, RequestFor(r), generate, parse) == Success((e.value.tone.value, e.value.sentiment.value))
  {
    if Complete(r) then Success(r)
    else
      match Classify(position, RequestFor(r), generate, parse)
      case Failure(err) => Failure(err)
      case Success((tone, sentiment)) => Success(r.(tone := Some(tone), sentiment := Some(sentiment)))
  }

  function Respond(r: Review): ReviewResponse {
    ReviewResponse(r.id, r.text, r.stars, r.reviewId, r.createdAt, r.tone, r.sentiment, r.categoryId)
  }

  /** The loop over the rows, as a function: the first failure aborts it. */
  function ListingOutcome(rows: seq<Review>, generate: Generator, parse: JsonParser): Result<seq<ReviewResponse>, Failure> {
    if rows == [] then Success([])
    else
      match ListingOutcome(rows[..|rows| - 1], generate, parse)
      case Failure(err) => Failure(err)
      case Success(done) =>
        match Enrich(rows[|rows| - 1], |rows| - 1, generate, parse)
        case Failure(err) => Failure(err)
        case Success(r) => Success(done + [Respond(r)])
  }

  /** The classifier calls the loop makes over some rows: one per incomplete row, in order. */
  function Requests(rows: seq<Review>): seq<ClassifierRequest> {
    if rows == [] then []
    else
      var last := rows[|rows| - 1];
      Requests(rows[..|rows| - 1]) + if Complete(last) then [] else [RequestFor(last)]
  }

  /** One more row: the listing grows by its record, or fails with its failure. */
  lemma {:induction false} ListingStep(rows: seq<Review>, x: Review, generate: Generator, parse: JsonParser)
    requires ListingOutcome(rows, generate, parse).Success?
    ensures ListingOutcome(rows + [x], generate, parse) ==
      match Enrich(x, |rows|, generate, parse)
      case Failure(err) => Failure(err)
      case Success(r) => Success(ListingOutcome(rows, generate, parse).value + [Respond(r)])
  {
    assert (rows + [x])[..|rows|] == rows;
  }

  lemma {:induction false} RequestsStep(rows: seq<Review>, x: Review)
    ensures Requests(rows + [x]) == Requests(rows) + if Complete(x) then [] else [RequestFor(x)]
  {
    assert (rows + [x])[..|rows|] == rows;
  }

  lemma {:induction false} ListingFailureSticks(done: seq<Review>, rest: seq<Review>, generate: Generator, parse: JsonParser)
    requires ListingOutcome(done, generate, parse).Failure?
    ensures ListingOutcome(done + rest, generate, parse) == ListingOutcome(done, generate, parse)
    decreases |rest|
  {
    if rest != [] {
      var init := rest[..|rest| - 1];
      ListingFailureSticks(done, init, generate, parse);
      assert (done + rest)[..|done + rest| - 1] == done + init;
    } else {
      assert done + rest == done;
    }
  }

  /**
   * The listing succeeds exactly when every row can be enriched; then it has one
   * record per row, in row order, built from the enriched row. Otherwise it fails with
   * the failure of the first row that cannot be enriched.
   */
  lemma {:induction false} ListingShape(rows: seq<Review>, generate: Generator, parse: JsonParser)
    ensures var l := ListingOutcome(rows, generate, parse);
      && (l.Success? <==> forall i :: 0 <= i < |rows| ==> Enrich(rows[i], i, generate, parse).Success?)
      && (l.Success? ==>
            && |l.value| == |rows|
            && forall i :: 0 <= i < |rows| ==> l.value[i] == Respond(Enrich(rows[i], i, generate, parse).value))
      && (l.Failure? ==>
            exists k ::
              && 0 <= k < |rows|
              && (forall i :: 0 <= i < k ==> Enrich(rows[i], i, generate, parse).Success?)
              && Enrich(rows[k], k, generate, parse) == Failure(l.error))
  {
    if rows != [] {
      var n := |rows| - 1;
      var init := rows[..n];
      ListingShape(init, generate, parse);
      assert forall i :: 0 <= i < n ==> init[i] == rows[i];
    }
  }

  /**
   * What each record of a successful listing shows: the row's id, text, stars,
   * review_id, created_at and category_id unchanged; the stored labels when both were
   * truthy; otherwise the classifier's pair for that row, in both labels.
   */
  lemma {:induction false} ListingRecords(rows: seq<Review>, generate: Generator, parse: JsonParser)
    ensures var l := ListingOutcome(rows, generate, parse);
      l.Success? ==> |l.value| == |rows| && forall i :: 0 <= i < |rows| ==>
        var r, out := rows[i], l.value[i];
        && out.id == r.id && out.text == r.text && out.stars == r.stars && out.reviewId == r.reviewId
        && out.createdAt == r.createdAt && out.categoryId == r.categoryId
        && (Complete(r) ==> out.tone == r.tone && out.sentiment == r.sentiment)
        && (!Complete(r) ==>
              && out.tone.Some? && out.sentiment.Some?
              && Classify(i, RequestFor(r), generate, parse) == Success((out.tone.value, out.sentiment.value)))
  {
    ListingShape(rows, generate, parse);
  }

  /** The classifier is called once per incomplete row and never for a complete one. */
  lemma {:induction false} RequestsForIncomplete(rows: seq<Review>)
    ensures forall q :: q in Requests(rows) <==> exists r :: r in rows && !Complete(r) && q == RequestFor(r)
    ensures |Requests(rows)| <= |rows|
    ensures Requests(rows) == [] <==> forall r :: r in rows ==> Complete(r)
  {
    if rows != [] {
      var init, last := rows[..|rows| - 1], rows[|rows| - 1];
      RequestsForIncomplete(init);
      assert rows == init + [last];
      assert forall r :: r in rows <==> r in init || r == last;
    }
  }

  /** Which rows are incomplete, position by position. */
  function IncompleteFlags(rows: seq<Review>): (flags: seq<bool>)
    ensures |flags| == |rows|
  {
    seq(|rows|, j requires 0 <= j < |rows| => !Complete(rows[j]))
  }

  /**
   * Exactly one classifier call per incomplete row, in row order: the k-th call is the
   * request of the k-th incomplete row, and there are as many calls as such rows.
   */
  lemma {:induction false} RequestsPerIncompleteRow(rows: seq<Review>)
    ensures var idx, calls := Positions(IncompleteFlags(rows)), Requests(rows);
      && |calls| == |idx|
      && (forall k :: 0 <= k < |idx| ==> idx[k] < |rows| && !Complete(rows[idx[k]]) && calls[k] == RequestFor(rows[idx[k]]))
      && (forall k, l :: 0 <= k < l < |idx| ==> idx[k] < idx[l])
      && (forall j :: 0 <= j < |rows| ==> (!Complete(rows[j]) <==> j in idx))
  {
    var flags := IncompleteFlags(rows);
    PositionsShape(flags);
    RequestsAtPositions(rows);
    assert forall j :: 0 <= j < |rows| ==> flags[j] == !Complete(rows[j]);
  }

  /** The k-th call is the request of the row at the k-th incomplete position. */
  lemma {:induction false} RequestsAtPositions(rows: seq<Review>)
    ensures var idx, calls := Positions(IncompleteFlags(rows)), Requests(rows);
      && |calls| == |idx|
      && forall k :: 0 <= k < |idx| ==> idx[k] < |rows| && calls[k] == RequestFor(rows[idx[k]])
  {
    if rows != [] {
      var n := |rows| - 1;
      var init, last := rows[..n], rows[n];
      var idx0, calls0 := Positions(IncompleteFlags(init)), Requests(init);
      var idx, calls := Positions(IncompleteFlags(rows)), Requests(rows);
      RequestsAtPositions(init);
      assert IncompleteFlags(rows)[..n] == IncompleteFlags(init);
      assert idx == idx0 + if Complete(last) then [] else [n];
      assert calls == calls0 + if Complete(last) then [] else [RequestFor(last)];
      forall k | 0 <= k < |idx0|
        ensures idx[k] < |rows| && calls[k] == RequestFor(rows[idx[k]])
      {
        assert idx[k] == idx0[k] && calls[k] == calls0[k];
        assert init[idx0[k]] == rows[idx0[k]];
      }
    }
  }

  /** The calls made for a prefix of the rows are a prefix of the calls for all of them. */
  lemma {:induction false} RequestsPrefix(rows: seq<Review>, m: nat)
    requires m <= |rows|
    ensures Requests(rows[..m]) <= Requests(rows)
    decreases |rows|
  {
    if m < |rows| {
      var init := rows[..|rows| - 1];
      RequestsPrefix(init, m);
      assert init[..m] == rows[..m];
    } else {
      assert rows[..m] == rows;
    }
  }

  /**
   * The classifier succeeds exactly when the call answers, the reply with its markers
   * stripped parses, and the object holds both keys; the pair is then read from those
   * keys. A reply that does not parse is malformed; a parsed object lacking "Review Tone"
   * fails on that key, whatever else it holds.
   */
  lemma {:induction false} ClassifyOutcome(position: nat, request: ClassifierRequest, generate: Generator, parse: JsonParser)
    ensures var c := Classify(position, request, generate, parse);
      && (c == Failure(ClassifierUnavailable) <==> generate(position, request).None?)
      && (c.Success? <==>
            && generate(position, request).Some?
            && parse(Markers.StripMarkers(generate(position, request).value)).Some?
            && ToneKey in parse(Markers.StripMarkers(generate(position, request).value)).value
            && SentimentKey in parse(Markers.StripMarkers(generate(position, request).value)).value)
      && (c.Success? ==>
            var data := parse(Markers.StripMarkers(generate(position, request).value)).value;
            c.value == (data[ToneKey], data[SentimentKey]))
      && (generate(position, request).Some? ==>
            var parsed := parse(Markers.StripMarkers(generate(position, request).value));
            && (parsed.None? ==> c == Failure(MalformedReply))
            && (parsed.Some? && ToneKey !in parsed.value ==> c == Failure(MissingKey(ToneKey))))
  {
  }

  /**
   * A reply wrapped in a code block tagged `json` is classified exactly as its bare
   * body would be, when the body holds neither marker: the wrapping is tolerated.
   */
  lemma {:induction false} ClassifyIgnoresMarkers(
    position: nat, request: ClassifierRequest, generate: Generator, other: Generator, parse: JsonParser, body: string)
    requires !Markers.Occurs(body, Markers.JsonTag) && !Markers.Occurs(body, Markers.Fence)
    requires generate(position, request) == Some(Markers.Fence + Markers.JsonTag + body + Markers.Fence)
    requires other(position, request) == Some(body)
    ensures Classify(position, request, generate, parse) == Classify(position, request, other, parse)
  {
    Markers.WrappedReply(body);
    Markers.StripMarkersProperties(body);
  }

  /** Row `k` is the first row that cannot be enriched, and it fails with `err`. */
  ghost predicate FailsFirstAt(rows: seq<Review>, k: int, generate: Generator, parse: JsonParser, err: Failure) {
    && 0 <= k < |rows|
    && (forall j :: 0 <= j < k ==> Enrich(rows[j], j, generate, parse).Success?)
    && Enrich(rows[k], k, generate, parse) == Failure(err)
  }

  /**
   * The loop of `get_reviews` over the loaded rows. Each incomplete row is classified
   * and overwritten in place; the first failure aborts the loop, leaving the rows
   * already processed enriched and the rest as they were.
   */
  method EnrichAndRespond(rows: array<Review>, generate: Generator, parse: JsonParser)
    returns (outcome: Result<seq<ReviewResponse>, Failure>, calls: seq<ClassifierRequest>)
    modifies rows
    ensures outcome == ListingOutcome(old(rows[..]), generate, parse)
    ensures outcome.Success? ==>
      && calls == Requests(old(rows[..]))
      && forall j :: 0 <= j < rows.Length ==> Enrich(old(rows[j]), j, generate, parse) == Success(rows[j])
    ensures outcome.Failure? ==>
      exists k ::
        && FailsFirstAt(old(rows[..]), k, generate, parse, outcome.error)
        && (forall j :: 0 <= j < k ==> Enrich(old(rows[j]), j, generate, parse) == Success(rows[j]))
        && (forall j :: k <= j < rows.Length ==> rows[j] == old(rows[j]))
        && calls == Requests(old(rows[..k + 1]))
  {
    ghost var orig := rows[..];
    var responses: seq<ReviewResponse> := [];
    calls := [];
    var i := 0;
    while i < rows.Length
      invariant 0 <= i <= rows.Length
      invariant ListingOutcome(orig[..i], generate, parse) == Success(responses)
      invariant forall j :: 0 <= j < i ==> Enrich(orig[j], j, generate, parse) == Success(rows[j])
      invariant forall j :: i <= j < rows.Length ==> rows[j] == orig[j]
      invariant calls == Requests(orig[..i])
    {
      var review := rows[i];
      assert orig[..i + 1] == orig[..i] + [review];
      RequestsStep(orig[..i], review);
      if !Complete(review) {
        var request := RequestFor(review);
        calls := calls + [request];
        var answer := Classify(i, request, generate, parse);
        if answer.Failure? {
          outcome := Failure(answer.error);
          ListingStep(orig[..i], review, generate, parse);
          ListingFailureSticks(orig[..i + 1], orig[i + 1..], generate, parse);
          assert orig[..i + 1] + orig[i + 1..] == orig;
          assert FailsFirstAt(orig, i, generate, parse, outcome.error);
          return;
        }
        var (tone, sentiment) := answer.value;
        rows[i] := review.(tone := Some(tone), sentiment := Some(sentiment));
      }
      assert Enrich(orig[i], i, generate, parse) == Success(rows[i]);
      ListingStep(orig[..i], review, generate, parse);
      responses := responses + [Respond(rows[i])];
      i := i + 1;
    }
    outcome := Success(responses);
    assert orig[..i] == orig;
  }

  /**
   * `get_reviews`: load the category's rows newest first, run the loop, and schedule one
   * access description naming the category when the loop completes (none when it
   * raised). Every record belongs to the category and they come newest first; a
   * category no row refers to yields an empty list, no classifier call and the
   * description.
   */
  method GetReviews(table: seq<Review>, categoryId: int, generate: Generator, parse: JsonParser)
    returns (outcome: Result<seq<ReviewResponse>, Failure>, audit: seq<string>, calls: seq<ClassifierRequest>)
    ensures outcome == ListingOutcome(ReviewsByCategory(table, categoryId), generate, parse)
    ensures audit == if outcome.Success? then [Audit.ListingAccess(categoryId)] else []
    ensures outcome.Success? ==> calls == Requests(ReviewsByCategory(table, categoryId))
    ensures outcome.Success? ==>
      && (forall r :: r in outcome.value ==> r.categoryId == Some(categoryId))
      && (forall i, j :: 0 <= i < j < |outcome.value| ==> outcome.value[j].createdAt <= outcome.value[i].createdAt)
    ensures outcome.Failure? ==>
      var selected := ReviewsByCategory(table, categoryId);
      && calls <= Requests(selected)
      && exists k :: FailsFirstAt(selected, k, generate, parse, outcome.error) && calls == Requests(selected[..k + 1])
    ensures (forall x :: x in table ==> x.categoryId != Some(categoryId)) ==>
      outcome == Success([]) && calls == [] && audit == [Audit.ListingAccess(categoryId)]
  {
    var selected := ReviewsByCategory(table, categoryId);
    var rows := new Review[|selected|](i requires 0 <= i < |selected| => selected[i]);
    assert rows[..] == selected;
    outcome, calls := EnrichAndRespond(rows, generate, parse);
    if outcome.Failure? {
      ghost var k :| FailsFirstAt(selected, k, generate, parse, outcome.error) && calls == Requests(selected[..k + 1]);
      assert FailsFirstAt(selected, k, generate, parse, outcome.error);
      assert 0 <= k < |selected|;
      RequestsPrefix(selected, k + 1);
    }
    if outcome.Success? {
      audit := [Audit.ListingAccess(categoryId)];
    } else {
      audit := [];
    }
    CategoryListing(table, categoryId, generate, parse);
  }

  /**
   * The records of a successful category listing all belong to the category and come
   * newest first; a category no row refers to yields no rows and so no call.
   */
  lemma {:induction false} CategoryListing(table: seq<Review>, categoryId: int, generate: Generator, parse: JsonParser)
    ensures var l := ListingOutcome(ReviewsByCategory(table, categoryId), generate, parse);
      l.Success? ==>
        && (forall r :: r in l.value ==> r.categoryId == Some(categoryId))
        && (forall i, j :: 0 <= i < j < |l.value| ==> l.value[j].createdAt <= l.value[i].createdAt)
    ensures (forall x :: x in table ==> x.categoryId != Some(categoryId)) ==> ReviewsByCategory(table, categoryId) == []
  {
    var selected := ReviewsByCategory(table, categoryId);
    var l := ListingOutcome(selected, generate, parse);
    ReviewsByCategoryShape(table, categoryId);
    ListingRecords(selected, generate, parse);
    if l.Success? {
      forall r | r in l.value ensures r.categoryId == Some(categoryId) {
        var i :| 0 <= i < |l.value| && l.value[i] == r;
        assert selected[i] in selected;
      }
    }
  }
}
