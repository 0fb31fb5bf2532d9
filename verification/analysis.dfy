/** The review analysis of `analyzeRestaurants` and `findTopSuggestion`,
    and their composition with the sampler in `getNewSuggestions`. The
    review catalog is an input (the fetch is not modelled). A TypeError
    thrown inside the promise chain is swallowed by its `.catch`, so the
    chain resolves to `undefined`: that outcome is `None` here. */
module Analysis {
  import opened Optional
  import opened Records
  import opened FirstMax
  import opened Utilities
  import Arith
  import Sampling

  /** `reviews.filter(review => review.restaurant === name)`. */
  function Relevant(reviews: seq<Review>, name: string): (r: seq<Review>)
    ensures |r| <= |reviews|
    ensures forall k :: 0 <= k < |r| ==> r[k].restaurant == name
  {
    if |reviews| == 0 then []
    else
      var last := reviews[|reviews| - 1];
      Relevant(reviews[..|reviews| - 1], name) + (if last.restaurant == name then [last] else [])
  }

  /** The filter keeps exactly the reviews that name the restaurant. */
  lemma {:induction false} RelevantMembers(reviews: seq<Review>, name: string)
    ensures forall rv :: rv in Relevant(reviews, name) <==> rv in reviews && rv.restaurant == name
  {
    if |reviews| > 0 {
      var init, last := reviews[..|reviews| - 1], reviews[|reviews| - 1];
      RelevantMembers(init, name);
      assert reviews == init + [last];
    }
  }

  /** The filter distributes over concatenation. */
  lemma {:induction false} RelevantAppend(a: seq<Review>, b: seq<Review>, name: string)
    ensures Relevant(a + b, name) == Relevant(a, name) + Relevant(b, name)
    decreases |b|
  {
    if |b| == 0 {
      assert a + b == a;
    } else {
      assert (a + b)[..|a + b| - 1] == a + b[..|b| - 1];
      RelevantAppend(a, b[..|b| - 1], name);
    }
  }

  /** A restaurant has at least one review naming it. */
  predicate Reviewed(reviews: seq<Review>, name: string)
  {
    exists rv :: rv in reviews && rv.restaurant == name
  }

  /** The filter is empty exactly for a restaurant nobody reviewed. */
  lemma ReviewedIffRelevant(reviews: seq<Review>, name: string)
    ensures Reviewed(reviews, name) <==> |Relevant(reviews, name)| > 0
  {
    var rel := Relevant(reviews, name);
    RelevantMembers(reviews, name);
    if |rel| > 0 {
      assert rel[0] in rel;
    }
  }

  function Ratings(rs: seq<Review>): (keys: seq<int>)
    ensures |keys| == |rs|
    ensures forall k :: 0 <= k < |rs| ==> keys[k] == rs[k].rating
  {
    seq(|rs|, k requires 0 <= k < |rs| => rs[k].rating)
  }

  /** The ratings added from the right: the first rating plus the total
      of the rest. */
  function TotalRating(rs: seq<Review>): (total: int)
  {
    if |rs| == 0 then 0 else rs[0].rating + TotalRating(rs[1..])
  }

  lemma {:induction false} TotalRatingSnoc(rs: seq<Review>)
    requires |rs| > 0
    ensures TotalRating(rs) == TotalRating(rs[..|rs| - 1]) + rs[|rs| - 1].rating
  {
    if |rs| > 1 {
      TotalRatingSnoc(rs[1..]);
      assert rs[1..][..|rs| - 2] == rs[..|rs| - 1][1..];
    }
  }

  /** The `reduce` accumulator `sum + parseInt(review.rating, 10)`, which
      adds the ratings from the left; the order does not change the total. */
  function Sum(rs: seq<Review>): (s: int)
    ensures s == TotalRating(rs)
  {
    if |rs| == 0 then 0
    else
      TotalRatingSnoc(rs);
      Sum(rs[..|rs| - 1]) + rs[|rs| - 1].rating
  }

  /** A sum of ratings that all lie in [lo, hi] lies in [n * lo, n * hi]. */
  lemma {:induction false} SumBounds(rs: seq<Review>, lo: int, hi: int)
    requires forall k :: 0 <= k < |rs| ==> lo <= rs[k].rating <= hi
    ensures |rs| * lo <= Sum(rs) <= |rs| * hi
  {
    if |rs| > 0 {
      SumBounds(rs[..|rs| - 1], lo, hi);
      assert |rs| * lo == (|rs| - 1) * lo + lo;
      assert |rs| * hi == (|rs| - 1) * hi + hi;
    }
  }

  /** The exact mean of the ratings, `reviewSum / relevantReviews.length`. */
  function Mean(rs: seq<Review>): (m: real)
    requires |rs| > 0
  {
    Sum(rs) as real / |rs| as real
  }

  /** `Math.round(average * 10) / 10`, counted in tenths. */
  function AverageTenths(rs: seq<Review>): (r: int)
    requires |rs| > 0
    ensures 10.0 * Mean(rs) - 0.5 < r as real <= 10.0 * Mean(rs) + 0.5
  {
    Arith.RoundTenths(Sum(rs), |rs|);
    (20 * Sum(rs) + |rs|) / (2 * |rs|)
  }

  /** The stored average is the exact mean times ten, rounded half up. */
  lemma AverageIsRoundedMean(rs: seq<Review>)
    requires |rs| > 0
    ensures AverageTenths(rs) == (10.0 * Mean(rs) + 0.5).Floor
  {
    Arith.RoundTenths(Sum(rs), |rs|);
  }

  /** The rounded average lies between ten times the lowest and ten times
      the highest rating. */
  lemma AverageWithinRatings(rs: seq<Review>, lo: int, hi: int)
    requires |rs| > 0
    requires forall k :: 0 <= k < |rs| ==> lo <= rs[k].rating <= hi
    ensures 10 * lo <= AverageTenths(rs) <= 10 * hi
  {
    SumBounds(rs, lo, hi);
    Arith.AverageBounds(Sum(rs), |rs|, lo, hi);
  }

  /** The body of `restaurants.forEach` for one restaurant: `None` when no
      review names it, since reading `reviewer` of the missing top review
      throws. */
  function AnalyzeRestaurant(restaurant: Restaurant, reviews: seq<Review>): (r: Option<ReviewAnalysis>)
    ensures r.None? <==> !Reviewed(reviews, restaurant.name)
    ensures r.Some? ==>
      r.value.id == restaurant.id && r.value.name == restaurant.name &&
      r.value.description == restaurant.description
    ensures r.Some? ==>
      var rel := Relevant(reviews, restaurant.name);
      |rel| > 0 && r.value.averageReview == AverageTenths(rel)
    ensures r.Some? ==>
      var rel := Relevant(reviews, restaurant.name);
      exists t :: IsFirstMax(Ratings(rel), t) &&
        r.value.topReviewer == rel[t].reviewer && r.value.review == rel[t].review
  {
    var rel := Relevant(reviews, restaurant.name);
    ReviewedIffRelevant(reviews, restaurant.name);
    if |rel| == 0 then
      None
    else
      var t := FirstMaxIndex(Ratings(rel));
      Some(ReviewAnalysis(restaurant.id, restaurant.name, restaurant.description,
                          AverageTenths(rel), rel[t].reviewer, rel[t].review))
  }

  /** The average of an analysed restaurant is ten times the mean of its
      ratings, rounded half up. */
  lemma AnalyzedAverage(restaurant: Restaurant, reviews: seq<Review>)
    requires Reviewed(reviews, restaurant.name)
    ensures
      var rel := Relevant(reviews, restaurant.name);
      |rel| > 0 && AnalyzeRestaurant(restaurant, reviews).value.averageReview == (10.0 * Mean(rel) + 0.5).Floor
  {
    AverageIsRoundedMean(Relevant(reviews, restaurant.name));
  }

  /** Reviews of other restaurants, wherever they sit in the catalog, do not
      change the analysis of this one. */
  lemma IrrelevantReviewIgnored(restaurant: Restaurant, before: seq<Review>, other: Review, after: seq<Review>)
    requires other.restaurant != restaurant.name
    ensures AnalyzeRestaurant(restaurant, before + [other] + after)
         == AnalyzeRestaurant(restaurant, before + after)
  {
    var name := restaurant.name;
    RelevantAppend(before + [other], after, name);
    RelevantAppend(before, [other], name);
    RelevantAppend(before, after, name);
    assert Relevant([other], name) == [];
    assert Relevant(before + [other], name) == Relevant(before, name);
    assert Relevant(before + [other] + after, name) == Relevant(before + after, name);
  }

  /** The analysis of one restaurant depends on its own reviews only: any
      two catalogs that agree on them agree on the analysis. */
  lemma OnlyOwnReviewsCount(restaurant: Restaurant, a: seq<Review>, b: seq<Review>)
    requires Relevant(a, restaurant.name) == Relevant(b, restaurant.name)
    ensures AnalyzeRestaurant(restaurant, a) == AnalyzeRestaurant(restaurant, b)
  {
    ReviewedIffRelevant(a, restaurant.name);
    ReviewedIffRelevant(b, restaurant.name);
  }

  /** `restaurants.forEach(...)` collecting `analysisResults`: the first
      restaurant without a review throws, so the whole list is `None`. */
  function AnalyzeAll(restaurants: seq<Restaurant>, reviews: seq<Review>): (r: Option<seq<ReviewAnalysis>>)
    ensures r.Some? <==> forall k :: 0 <= k < |restaurants| ==> Reviewed(reviews, restaurants[k].name)
    ensures r.Some? ==> |r.value| == |restaurants|
    ensures r.Some? ==> forall k :: 0 <= k < |restaurants| ==>
      AnalyzeRestaurant(restaurants[k], reviews) == Some(r.value[k])
  {
    if exists k :: 0 <= k < |restaurants| && !Reviewed(reviews, restaurants[k].name) then None
    else Some(seq(|restaurants|, k requires 0 <= k < |restaurants| => AnalyzeRestaurant(restaurants[k], reviews).value))
  }

  function Averages(options: seq<ReviewAnalysis>): (keys: seq<int>)
    ensures |keys| == |options|
    ensures forall k :: 0 <= k < |options| ==> keys[k] == options[k].averageReview
  {
    seq(|options|, k requires 0 <= k < |options| => options[k].averageReview)
  }

  /** The five fields kept for the suggestion. */
  function ToSuggestion(a: ReviewAnalysis): (s: Suggestion)
    ensures s.id == a.id && s.name == a.name && s.averageReview == a.averageReview
    ensures s.topReviewer == a.topReviewer && s.review == a.review
  {
    Suggestion(a.id, a.name, a.averageReview, a.topReviewer, a.review)
  }

  /** The fields kept for a ballot choice, with a fresh vote counter. */
  function ToChoice(a: ReviewAnalysis): (c: Choice)
    ensures c.id == a.id && c.name == a.name && c.averageReview == a.averageReview
    ensures c.description == a.description && c.votes == 0
  {
    Choice(a.id, a.name, a.averageReview, a.description, 0)
  }

  /** `findTopSuggestion(options)`: the trimmed first option of highest
      average. An empty list has no `options[0]`, hence the precondition. */
  function FindTopSuggestion(options: seq<ReviewAnalysis>): (r: Suggestion)
    requires |options| > 0
    ensures forall k :: 0 <= k < |options| ==> options[k].averageReview <= r.averageReview
    ensures exists t :: IsFirstMax(Averages(options), t) && r == ToSuggestion(options[t])
  {
    ToSuggestion(options[FirstMaxIndex(Averages(options))])
  }

  /** The second `.then` of `analyzeRestaurants`: the suggestion set for the
      sampled restaurants, or `None` when a restaurant has no review or the
      list is empty (`findTopSuggestion` then reads a field of `undefined`). */
  function Analyze(restaurants: seq<Restaurant>, reviews: seq<Review>): (r: Option<SuggestionSet>)
    ensures r.Some? <==>
      |restaurants| > 0 && forall k :: 0 <= k < |restaurants| ==> Reviewed(reviews, restaurants[k].name)
    ensures r.Some? ==> |r.value.choices| == |restaurants|
    ensures r.Some? ==> forall k :: 0 <= k < |restaurants| ==>
      var c := r.value.choices[k];
      c.id == restaurants[k].id && c.name == restaurants[k].name &&
      c.description == restaurants[k].description && c.votes == 0 &&
      c.averageReview == AnalyzeRestaurant(restaurants[k], reviews).value.averageReview
    ensures r.Some? ==> forall k :: 0 <= k < |restaurants| ==>
      r.value.choices[k].averageReview <= r.value.suggestion.averageReview
    ensures r.Some? ==> exists t :: (
      IsFirstMax(Averages(AnalyzeAll(restaurants, reviews).value), t) &&
      var s := r.value.suggestion;
      s.id == r.value.choices[t].id && s.name == r.value.choices[t].name &&
      s.averageReview == r.value.choices[t].averageReview &&
      s.topReviewer == AnalyzeRestaurant(restaurants[t], reviews).value.topReviewer &&
      s.review == AnalyzeRestaurant(restaurants[t], reviews).value.review)
  {
    match AnalyzeAll(restaurants, reviews)
    case None => None
    case Some(analyses) =>
      if |analyses| == 0 then None
      else
        var choices := MapSeq(ToChoice, analyses);
        Some(SuggestionSet(FindTopSuggestion(analyses), choices))
  }

  /** A restaurant with exactly one review averages that review's rating,
      and that review is its top review. */
  lemma SingleReviewAnalysis(restaurant: Restaurant, reviews: seq<Review>, only: Review)
    requires Relevant(reviews, restaurant.name) == [only]
    ensures AnalyzeRestaurant(restaurant, reviews)
         == Some(ReviewAnalysis(restaurant.id, restaurant.name, restaurant.description,
                                10 * only.rating, only.reviewer, only.review))
  {
    var rel := [only];
    assert rel[..0] == [];
    assert Sum(rel) == only.rating;
    assert (20 * only.rating + 1) / 2 == 10 * only.rating;
    assert Ratings(rel) == [only.rating];
    FirstMaxUnique(Ratings(rel), 0, FirstMaxIndex(Ratings(rel)));
  }

  /** A list whose every review names the restaurant passes the filter whole. */
  lemma {:induction false} RelevantAll(reviews: seq<Review>, name: string)
    requires forall k :: 0 <= k < |reviews| ==> reviews[k].restaurant == name
    ensures Relevant(reviews, name) == reviews
  {
    if |reviews| > 0 {
      var init, last := reviews[..|reviews| - 1], reviews[|reviews| - 1];
      assert forall k :: 0 <= k < |init| ==> init[k] == reviews[k];
      RelevantAll(init, name);
      assert Relevant(reviews, name) == Relevant(init, name) + [last];
      assert reviews == init + [last];
    }
  }

  /** The three reviews of the worked example, as the filter sees them. */
  lemma ThreeReviewsFacts(restaurant: Restaurant, reviews: seq<Review>)
    requires |reviews| == 3 && forall k :: 0 <= k < 3 ==> reviews[k].restaurant == restaurant.name
    requires reviews[0].rating == 3 && reviews[1].rating == 5 && reviews[2].rating == 4
    ensures Relevant(reviews, restaurant.name) == reviews
    ensures Sum(reviews) == 12
    ensures Ratings(reviews) == [3, 5, 4]
  {
    RelevantAll(reviews, restaurant.name);
    assert reviews[..2][..1] == reviews[..1];
    assert Sum(reviews[..1]) == 3;
    assert Sum(reviews[..2]) == 8;
  }

  /** Three reviews rated 3, 5 and 4 average to 4.0 stars, and the review
      rated 5 is the top review. */
  lemma ThreeReviewsExample(restaurant: Restaurant, reviews: seq<Review>)
    requires |reviews| == 3 && forall k :: 0 <= k < 3 ==> reviews[k].restaurant == restaurant.name
    requires reviews[0].rating == 3 && reviews[1].rating == 5 && reviews[2].rating == 4
    ensures AnalyzeRestaurant(restaurant, reviews)
         == Some(ReviewAnalysis(restaurant.id, restaurant.name, restaurant.description,
                                40, reviews[1].reviewer, reviews[1].review))
  {
    ThreeReviewsFacts(restaurant, reviews);
    assert reviews[0] in reviews;
    assert AverageTenths(reviews) == 243 / 6 == 40;
    assert IsFirstMax([3, 5, 4], 1);
    FirstMaxUnique([3, 5, 4], 1, FirstMaxIndex([3, 5, 4]));
  }

  lemma TwoRestaurantsAnalyses(catalog: seq<Restaurant>, reviews: seq<Review>)
    requires catalog == [Restaurant(1, "A", ""), Restaurant(2, "B", "")]
    requires reviews == [Review("A", 5, "x", "great"), Review("B", 3, "y", "ok")]
    ensures AnalyzeRestaurant(catalog[0], reviews) == Some(ReviewAnalysis(1, "A", "", 50, "x", "great"))
    ensures AnalyzeRestaurant(catalog[1], reviews) == Some(ReviewAnalysis(2, "B", "", 30, "y", "ok"))
  {
    assert reviews[..1] == [reviews[0]];
    assert Relevant(reviews, "A") == [reviews[0]];
    assert Relevant(reviews, "B") == [reviews[1]];
    SingleReviewAnalysis(catalog[0], reviews, reviews[0]);
    SingleReviewAnalysis(catalog[1], reviews, reviews[1]);
  }

  /** An option whose average beats every other option's is the suggestion. */
  lemma StrictBestSuggested(options: seq<ReviewAnalysis>, t: nat)
    requires t < |options|
    requires forall k :: 0 <= k < |options| && k != t ==> options[k].averageReview < options[t].averageReview
    ensures FindTopSuggestion(options) == ToSuggestion(options[t])
  {
    var keys := Averages(options);
    var w :| IsFirstMax(keys, w) && FindTopSuggestion(options) == ToSuggestion(options[w]);
    assert IsFirstMax(keys, w);
    assert keys[t] <= keys[w];
  }

  /** Two sampled restaurants, each with one review: the better-rated one is
      the suggestion, and both choices start with no votes. */
  lemma TwoRestaurantsExample(catalog: seq<Restaurant>, reviews: seq<Review>)
    requires catalog == [Restaurant(1, "A", ""), Restaurant(2, "B", "")]
    requires reviews == [Review("A", 5, "x", "great"), Review("B", 3, "y", "ok")]
    ensures
      var r := Analyze(catalog, reviews);
      r.Some? && r.value.suggestion.name == "A" && |r.value.choices| == 2 &&
      r.value.choices[0].votes == 0 && r.value.choices[1].votes == 0
  {
    TwoRestaurantsAnalyses(catalog, reviews);
    assert forall k :: 0 <= k < |catalog| ==> Reviewed(reviews, catalog[k].name) by {
      forall k | 0 <= k < |catalog| ensures Reviewed(reviews, catalog[k].name) {
        assert k == 0 || k == 1;
      }
    }
    var all := AnalyzeAll(catalog, reviews);
    assert all.Some? && |all.value| == 2;
    assert AnalyzeRestaurant(catalog[0], reviews) == Some(all.value[0]);
    assert AnalyzeRestaurant(catalog[1], reviews) == Some(all.value[1]);
    var r := Analyze(catalog, reviews);
    var keys := Averages(all.value);
    assert keys[0] == 50 && keys[1] == 30;
    var t :| IsFirstMax(keys, t) && r.value.suggestion.name == r.value.choices[t].name;
    assert t == 0;
  }

  /** What `getNewSuggestions` resolves to: the options of a new ballot,
      `undefined`, or nothing yet because the sampler is still drawing when
      the oracle ends. */
  datatype SuggestionOutcome = Created(options: SuggestionSet) | Undefined | StillDrawing

  /** `randomRestaurants`: the catalog entries at the chosen positions. */
  function Chosen(catalog: seq<Restaurant>, indexes: seq<int>): (r: seq<Restaurant>)
    requires forall k :: 0 <= k < |indexes| ==> 0 <= indexes[k] < |catalog|
    ensures |r| == |indexes|
  {
    seq(|indexes|, k requires 0 <= k < |indexes| => catalog[indexes[k]])
  }

  /** `getNewSuggestions(numToGet)` on a fetched catalog and review list.
      `indexes` are the catalog positions the sampler chose. The sampler is
      still drawing exactly when no run of the rejection loop over the draws
      reaches `numToGet` indexes; otherwise the result is `undefined`
      exactly when nothing was asked for, the catalog is empty or a chosen
      restaurant has no review, and is the analysis of the chosen
      restaurants otherwise. */
  method GetNewSuggestions(catalog: seq<Restaurant>, reviews: seq<Review>, numToGet: nat, draws: seq<real>)
    returns (res: SuggestionOutcome, indexes: seq<int>)
    requires AllDraws(draws)
    ensures res.Created? ==> 0 < numToGet <= |catalog|
    ensures res.Created? ==> |res.options.choices| == numToGet && |indexes| == numToGet
    ensures res.Created? ==> Sampling.Distinct(indexes)
    ensures res.Created? ==> forall k :: 0 <= k < numToGet ==>
      0 <= indexes[k] < |catalog| &&
      res.options.choices[k].id == catalog[indexes[k]].id &&
      res.options.choices[k].name == catalog[indexes[k]].name &&
      res.options.choices[k].votes == 0
    ensures numToGet > Sampling.DrawRange(|catalog|) ==> res.StillDrawing?
    ensures numToGet == 0 ==> res.Undefined?
    ensures res.StillDrawing? <==> Sampling.NoRunReaches(Sampling.Produced(draws, |catalog|), numToGet)
    ensures !res.StillDrawing? ==>
      |indexes| == numToGet && Sampling.Distinct(indexes) &&
      (forall k :: 0 <= k < numToGet ==> 0 <= indexes[k] < Sampling.DrawRange(|catalog|)) &&
      exists u: seq<nat> :: Sampling.IsRejectionRun(Sampling.Produced(draws, |catalog|), indexes, u)
    ensures res.Undefined? <==> (
      !res.StillDrawing? &&
      (numToGet == 0 || |catalog| == 0 ||
       exists k :: 0 <= k < numToGet && !Reviewed(reviews, catalog[indexes[k]].name)))
    ensures res.Created? ==> Analyze(Chosen(catalog, indexes), reviews) == Some(res.options)
  {
    var sample := Sampling.GetRandomRestaurants(catalog, numToGet, draws);
    if sample.OutOfDraws? {
      return StillDrawing, [];
    }
    indexes := sample.indexes;
    if |catalog| == 0 && numToGet > 0 {
      // restaurants[0] is undefined, and analysing `undefined` throws
      return Undefined, indexes;
    }
    var restaurants := Chosen(catalog, indexes);
    match Analyze(restaurants, reviews)
    case None =>
      res := Undefined;
    case Some(options) =>
      res := Created(options);
  }

}
