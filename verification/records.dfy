/** The JSON records that flow through the suggestion pipeline and the ballot
    store, restricted to the fields the core reads or writes. */
module Records {
  import opened Optional

  /** A catalog entry of the upstream restaurant API. */
  datatype Restaurant = Restaurant(id: int, name: string, description: string)

  /** A review of the upstream review API; it names its restaurant by `name`,
      and `rating` is already the integer that `parseInt` would produce. */
  datatype Review = Review(restaurant: string, rating: int, reviewer: string, review: string)

  /** A restaurant merged with the statistics of its reviews. `averageReview`
      counts tenths: 4.5 stars is 45. */
  datatype ReviewAnalysis = ReviewAnalysis(
    id: int, name: string, description: string,
    averageReview: int, topReviewer: string, review: string)

  /** The top suggestion shown while a ballot is open. */
  datatype Suggestion = Suggestion(id: int, name: string, averageReview: int, topReviewer: string, review: string)

  /** One option on a ballot, carrying its vote counter. */
  datatype Choice = Choice(id: int, name: string, averageReview: int, description: string, votes: int)

  /** The `options` of a ballot. */
  datatype SuggestionSet = SuggestionSet(suggestion: Suggestion, choices: seq<Choice>)

  /** A voter as posted; an absent field is `None`. */
  datatype Voter = Voter(name: Option<string>, emailAddress: Option<string>)

  /** A stored ballot. `endTime` is what `Date.parse` makes of the stored
      end-time string, `None` standing for `NaN`. */
  datatype Ballot = Ballot(voters: seq<Voter>, endTime: Option<int>, options: SuggestionSet)

}
