# Lunchinator core in Dafny

A model of the data-transformation core of a small lunch-voting service.
A ballot offers a handful of randomly sampled restaurants. Each one is
annotated with the average and the top review from an upstream review
catalog, and one of them is marked as the top suggestion. After the
deadline the ballot reports the choice with the most votes. The model
covers:

- the restaurant sampler, a rejection loop over random indexes
  (`Sampling`);
- the per-restaurant review analysis and the top-suggestion pick
  (`Analysis`);
- the open and closed ballot views (`BallotFormat`);
- the in-place Fisher-Yates shuffle and the bounded random integer
  (`Utilities`);
- the request validators (`Validation`).

The three "first maximum" scans share one definition (`FirstMax`). The
rounding arithmetic is in `Arith`. `Records` and `Optional` hold the data
types.

Modelling conventions:

- Every call of `Math.random()` is the next value of an oracle sequence of
  reals in [0, 1). The sampler needs as many draws as it performs, and the
  shuffle needs one per element.
- A TypeError is `None`. In the analysis the promise chain swallows it and
  resolves to `undefined`: an empty review list, an empty restaurant list,
  an out-of-range catalog index. Formatting a closed ballot with no choices
  reads `winner.id` of `undefined`; nothing catches that TypeError, and it
  reaches the route.
- Ratings are integers, as `parseInt` would produce them. `averageReview`
  counts tenths of a star. It is `floor(10 * mean + 1/2)` over the exact
  rational mean, which is what `Math.round(mean * 10)` means.
- `Date.parse` results are `Option<int>`, where `None` stands for `NaN`.
  The current time `now` and the display date `today` are parameters.
- A response is the pair (headers sent, errors passed to `sendError` so far).
- `shuffle` reorders the stored ballot's choices in place. So formatting
  returns the view together with the ballot as the store now holds it.

The model keeps these behaviours of the code, which a reader may not
expect:

- A ballot whose end time equals the current time is still open.
- An unparsable end time never closes.
- A restaurant without reviews makes the whole analysis resolve to
  `undefined`.
- Asking for more restaurants than the draws can reach (the catalog size,
  or 1 for an empty catalog) never finishes (`OutOfDraws` here).
- With an empty catalog, one restaurant can still be "sampled": it is
  `undefined`.

## Model

| member | source | states |
|---|---|---|
| Utilities.GetRandomInt | app/utilities.js:24-28 | for integer bounds `min < max` the result lies in [min, max); `getRandomInt(0, 0)` is 0; reversed bounds give a value between them |
| Utilities.RandomBelowBounds | app/utilities.js:10 | `Math.floor(Math.random() * n)` lies in [0, n) for n > 0 and is 0 for n = 0 |
| Utilities.SwapPermutes | app/utilities.js:14-16 | the three-assignment swap through `temporaryValue` keeps the multiset of elements |
| Utilities.ShuffleLoop | app/utilities.js:7-17 | the loop keeps the length, and positions at or above `currentIndex` are never written again |
| Utilities.ShuffleLoopPermutes | app/utilities.js:7-17 | whatever the draws, the loop only permutes the elements |
| Utilities.Shuffled | app/utilities.js:3-20 | `shuffle` returns an array of the same length |
| Utilities.ShuffledPermutes | app/utilities.js:3-20 | the shuffled array is a permutation of the input (same multiset) |
| Utilities.ShuffleEmpty | app/utilities.js:4-7 | an empty array comes back unchanged |
| Utilities.Pick | app/utilities.js:10 | the index drawn while `currentIndex` is c lies in [0, c) |
| Utilities.SwapInPlace | app/utilities.js:14-16 | after the three assignments through `temporaryValue` the array holds its old contents with positions c and j exchanged |
| Utilities.Shuffle | app/utilities.js:3-20 | the in-place method returns the same array, which now holds the value `Shuffled` gives for its old contents and the same draws |
| Utilities.ShuffledMapPermutes | app/suggestions.js:137-141 | projecting the shuffled choices equals shuffling the projected choices, so the view is a permutation of the projected stored choices |
| FirstMax.ScanFrom | app/suggestions.js:40-45 | the strict-`>` scan ends on the earliest position of the largest key |
| FirstMax.FirstMaxIndex | app/suggestions.js:124-129 | a full scan from candidate 0 returns the first maximum |
| FirstMax.FirstMaxUnique | app/suggestions.js:76-80 | there is only one first maximum, so ties always resolve to the earliest index |
| Sampling.DrawRange | app/suggestions.js:22 | `getRandomInt(0, restaurants.length)` lands in [0, length), or on 0 for an empty catalog |
| Sampling.Lookup | app/suggestions.js:28 | `restaurants[i]` is defined exactly for indexes inside the catalog |
| Sampling.DrawNewIndex | app/suggestions.js:22-26 | the draw plus the re-draw loop yields an index not yet taken. Every draw it skipped produced a taken index. When it fails, every remaining draw produced a taken index |
| Sampling.RejectionRunExtend | app/suggestions.js:27-28 | accepting a new index keeps the record of accepted and rejected draws consistent |
| Sampling.GetRandomRestaurants | app/suggestions.js:17-31 | the result has `numToGet` pairwise distinct indexes, each within range, with `randomRestaurants[k] == restaurants[idx[k]]`. Each index is the first new one drawn after the previous acceptance, and no other run of the loop over the same draws reaches `numToGet` indexes with different ones. It runs out of draws exactly when no run reaches `numToGet` indexes. It then reports the run it reached, which has fewer indexes and is stuck: every later draw produced a taken index. When `numToGet` exceeds the reachable indexes, no draw sequence finishes |
| Sampling.RunsAgree | app/suggestions.js:21-29 | two runs of the rejection loop over the same draws agree on their common prefix of indexes and accepted draws |
| Sampling.StuckRunIsLongest | app/suggestions.js:24-26 | a run whose every later draw produces a taken index is at least as long as any run over the same draws |
| Sampling.DistinctBelow | app/suggestions.js:21-29 | distinct indexes below b number at most b |
| Sampling.DistinctCover | app/suggestions.js:21-29 | b distinct indexes below b use up every index below b |
| Sampling.RejectionLoopStuck | app/suggestions.js:24-26 | once every reachable index is taken, every draw is rejected, so the `while` never exits |
| Analysis.Relevant | app/suggestions.js:71 | every review the filter keeps names the restaurant, and it keeps no more reviews than it was given |
| Analysis.RelevantMembers | app/suggestions.js:71 | a review is kept exactly when it is in the catalog and names the restaurant |
| Analysis.ReviewedIffRelevant | app/suggestions.js:71 | the filtered list is empty exactly when no review names the restaurant |
| Analysis.RelevantAll | app/suggestions.js:71 | a list whose every review names the restaurant passes the filter unchanged |
| Analysis.RelevantAppend | app/suggestions.js:71 | filtering a concatenation concatenates the filtered parts |
| Analysis.Sum | app/suggestions.js:75-82 | the left-to-right `reduce` total equals the ratings added from the right (`TotalRating`): the order of accumulation does not matter |
| Analysis.SumBounds | app/suggestions.js:75-82 | a sum of n ratings in [lo, hi] lies in [n*lo, n*hi] |
| Analysis.AverageTenths | app/suggestions.js:88 | the stored count of tenths is within half a tenth of ten times the exact mean, halves rounding up: 10 x mean - 1/2 < r <= 10 x mean + 1/2 |
| Analysis.AverageIsRoundedMean | app/suggestions.js:84-88 | the stored average, in tenths, is `Math.round(10 * mean)` of the exact mean: floor(10 * mean + 1/2) |
| Analysis.AverageWithinRatings | app/suggestions.js:75-91 | the rounded average lies between 10 x the lowest and 10 x the highest relevant rating |
| Arith.RoundTenths | app/suggestions.js:88 | integer division `(20*sum + n) / (2*n)` equals floor(10*sum/n + 1/2) |
| Arith.AverageBounds | app/suggestions.js:84-88 | rounding an average of values in [lo, hi] stays in [10*lo, 10*hi] |
| Analysis.AnalyzeRestaurant | app/suggestions.js:65-95 | fails exactly when no review names the restaurant. Otherwise it keeps id, name and description, and the average is taken over the relevant reviews only. The top review is the first relevant review of maximal rating |
| Analysis.AnalyzedAverage | app/suggestions.js:84-88 | an analysed restaurant's average is ten times the mean of its relevant ratings, rounded half up |
| Analysis.IrrelevantReviewIgnored | app/suggestions.js:71 | inserting a review of another restaurant anywhere leaves this restaurant's analysis unchanged |
| Analysis.OnlyOwnReviewsCount | app/suggestions.js:71-91 | two review catalogs that agree on a restaurant's reviews give it the same analysis |
| Analysis.AnalyzeAll | app/suggestions.js:66-95 | succeeds exactly when every restaurant has a review, giving one analysis per restaurant in input order |
| Analysis.ToSuggestion | app/suggestions.js:48-54 | the suggestion keeps exactly id, name, averageReview, topReviewer and review of the analysis |
| Analysis.ToChoice | app/suggestions.js:98-105 | a choice keeps id, name, averageReview and description of the analysis and starts with no votes |
| Analysis.FindTopSuggestion | app/suggestions.js:38-55 | the result is the five-field projection of the first option with the highest average, and its average is at least every option's |
| Analysis.Analyze | app/suggestions.js:64-107 | succeeds exactly when the list is non-empty and every restaurant is reviewed. Choices keep the input order and copy id, name, description and average, with `votes == 0`. The suggestion is the first choice of maximal average, with that restaurant's top review |
| Analysis.SingleReviewAnalysis | app/suggestions.js:75-91 | a single review gives an average of ten times its rating and is the top review |
| Analysis.ThreeReviewsExample | app/suggestions.js:75-91 | a restaurant whose three reviews are rated 3, 5, 4 averages 4.0, and the review rated 5 is on top |
| Analysis.StrictBestSuggested | app/suggestions.js:38-55 | an option whose average is strictly higher than every other option's is the one suggested, wherever it sits in the list |
| Analysis.TwoRestaurantsExample | app/suggestions.js:96-107 | restaurants A (one review rated 5) and B (one review rated 3): A is suggested, and two choices with no votes are returned |
| Analysis.GetNewSuggestions | app/suggestions.js:116-119 | still drawing exactly when no run of the sampler over the draws reaches `numToGet` indexes. Otherwise the indexes are a run of the sampler. The result is `undefined` exactly when `numToGet` is 0, the catalog is empty or a chosen restaurant has no review. A created suggestion set is the analysis of the chosen catalog entries, has `numToGet` choices from distinct catalog positions, copies id and name, and has no votes. Asking for more indexes than the draws can reach (the catalog size, or 1 for an empty catalog) never completes |
| BallotFormat.IsDead | app/suggestions.js:150 | an end time that did not parse (`NaN`) never closes the ballot |
| BallotFormat.DeadStaysDead | app/suggestions.js:150 | a ballot that has closed stays closed at every later time |
| BallotFormat.ToClosed | app/suggestions.js:138-141 | a closed ballot lists id, name and votes of each choice |
| BallotFormat.ToOpen | app/suggestions.js:159-163 | an open ballot lists id, name, averageReview and description of each choice; the votes are not shown |
| BallotFormat.Reshuffled | app/suggestions.js:158 | shuffling in place changes only the order of the stored choices |
| BallotFormat.FormatSuggestionsForDeadBallot | app/suggestions.js:121-143 | the winner is the first choice with the most votes in stored order before the shuffle, and has at least every choice's votes. The listed choices are a permutation of the stored choices projected to id, name and votes. No choices means a throw |
| BallotFormat.FormatSuggestions | app/suggestions.js:147-166 | the closed view is chosen exactly when the end time is strictly before now. A closed view names the first choice with the most votes and lists the choices in their new stored order. An open view passes the stored suggestion through and lists the choices without votes in their new stored order, a permutation of the old one |
| BallotFormat.OpenAtDeadline | app/suggestions.js:150 | at the exact end time the ballot is still open |
| BallotFormat.ZeroDrawsSwapPair | app/suggestions.js:137 | with both draws 0, shuffling two stored choices swaps them |
| BallotFormat.TiedPairWinner | app/suggestions.js:124-129 | on a closed ballot with two choices tied on votes, the first stored choice wins |
| BallotFormat.ReadsChangeTieBreak | app/suggestions.js:124-137 | two tied choices read twice with zero draws: the first read names the first choice and swaps them in the store, so the second read names the other |
| Validation.SendError | app/validation.js:2-6 | the headers count as sent and the error is appended after everything sent before |
| Validation.ValidateDate | app/validation.js:9-17 | an unparsable date sends one date error; a parsable one sends nothing |
| Validation.AsList | app/validation.js:22-24 | a single required property is wrapped into a one-element list |
| Validation.MissingErrorsMembers | app/validation.js:25-32 | there is an error for every required key that is not an own property, and for no other key |
| Validation.ValidateFieldsFrom | app/validation.js:25-32 | the loop appends the missing-key errors in order, regardless of `headersSent` |
| Validation.ValidateFields | app/validation.js:20-33 | one error per missing key, with headers sent exactly when something is missing. A lone key is handled as a one-element list |
| Validation.VoterErrorsMembers | app/validation.js:37-45 | there is an error for every voter lacking a truthy name or email, and for no other voter |
| Validation.ValidateVotersFrom | app/validation.js:37-45 | the loop appends the voter errors in order |
| Validation.ValidateVoters | app/validation.js:36-46 | one error per incomplete voter, with headers sent exactly when some voter is incomplete |
| Validation.ValidateCreateBallotBody | app/validation.js:49-53 | field errors come first. Voter errors follow only if nothing was sent yet. For an unparsable end time `sendError` is always called last, even on a response that already failed, where that second call throws before anything is sent |
| Validation.ValidateCreateBallotBodyGuarded | app/validation.js:49-53 | with the guard spelled `headersSent`, a date error is only ever the sole error. On a fresh response with all fields and complete voters, it is sent exactly when the date is unparsable |
| Validation.HeaderSentTypo | app/validation.js:52 | for an incomplete voter and an unparsable date, the code as written calls `sendError` a second time, for the date, and the guarded version calls it once |
| Validation.ValidateGetBallot | app/validation.js:56-66 | exactly one error when the id is not a key of the store, none otherwise |
| Validation.ValidateParamsFrom | app/validation.js:79-88 | nothing is sent once headers are out. Otherwise the first missing or empty parameter is reported and the loop stops |
| Validation.ValidateVote | app/validation.js:69-89 | at most one error. An empty query gets exactly the no-parameters error. Otherwise the error names the first missing of `id`, `ballotId`, `voterName`, `emailAddress`, and nothing is sent when all four are present |

## Left out

- Network fetches of the restaurant and review catalogs, `response.json()`, the promise chaining and `.catch(console.error)` logging: the catalogs are inputs and a swallowed failure is `None`.
- `server.js`, the routes and the ballot store, including recording a vote: app/routes is not part of this model.
- Uniformity of `shuffle` and of the sampler, and any probability claim: draws are an arbitrary oracle sequence.
- Analysis.AverageIsRoundedMean: the average uses exact rationals, not IEEE-754 doubles. `Math.round(x * 10) / 10` on doubles can differ at representation edges.
- Utilities.GetRandomInt: only integer bounds are modelled, where `Math.ceil` and `Math.floor` are the identity.
- Sampling.GetRandomRestaurants: when the oracle runs out it reports `OutOfDraws`. The real loop keeps drawing; it never finishes only when `numToGet` exceeds the reachable indexes.
- The default `numToGet = 5` of `getRandomRestaurants` and `getNewSuggestions`: every caller passes `numToGet` explicitly here, as an unbounded natural.
- `parseInt` of string ratings, including the missing radix on one call: ratings arrive as integers.
- `Object.assign` merging of extra restaurant fields, and those fields overwriting the analysis fields: a restaurant is `{id, name, description}`.
- `Date.parse`, `Date.now` and `toDateString`: they become an `Option<int>` end time, an integer `now` and an opaque `today` string.
- Response internals: status codes, headers, JSON error wording, and the exception the framework raises on a second send.
- Validation.ValidateGetBallot: a plain-object store also finds inherited names such as `constructor`. The model treats only the store's keys as ballots.
- Validation.ValidateVoters: a `voters` field that is not an array, and non-string name or email values (numbers, `null`), are not modelled. Fields are optional strings, and the empty string is the falsy one.
- Validation.ValidateVote: repeated query parameters that the framework parses into arrays are not modelled; query values are strings.

## Findings

| source | as written | input that shows it | evidently intended | confidence | as-written member | corrected member |
|---|---|---|---|---|---|---|
| app/validation.js:52 | the date check is guarded by a misspelled response property that is never set, so it always runs | body with `voters: [{name: "Ann"}]` and an unparsable `endTime`: a voter error is sent, and then `sendError` is called a second time, for the date | guard on `headersSent`, like the voter check on line 51 | high, not executed | Validation.ValidateCreateBallotBody (counterexample: Validation.HeaderSentTypo) | Validation.ValidateCreateBallotBodyGuarded |
