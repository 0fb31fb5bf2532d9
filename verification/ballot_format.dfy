/** `formatSuggestions` and `formatSuggestionsForDeadBallot`: the view of a
    stored ballot returned by the ballot route. The clock is the parameter
    `now`, `(new Date()).toDateString()` is the opaque parameter `today`,
    and the shuffle consumes one oracle draw per choice. Because `shuffle`
    works in place on `ballot.options.choices`, a read also reorders the
    stored ballot; a `Read` carries both the view and the ballot as left in
    the store. */
module BallotFormat {
  import opened Optional
  import opened Records
  import opened FirstMax
  import opened Utilities

  datatype Winner = Winner(id: int, datetime: string, name: string, votes: int)

  /** A choice as shown once voting has closed. */
  datatype ClosedChoice = ClosedChoice(id: int, name: string, votes: int)

  /** A choice as shown while voting is open: it has no `votes` field. */
  datatype OpenChoice = OpenChoice(id: int, name: string, averageReview: int, description: string)

  datatype View =
    | ClosedView(winner: Winner, results: seq<ClosedChoice>)
    | OpenView(suggestion: Suggestion, choices: seq<OpenChoice>)

  datatype Read = Read(view: View, stored: Ballot)

  /** `Date.parse(ballot.endTime) < Date.now()`; a `NaN` end time compares
      false, so such a ballot never closes. */
  predicate IsDead(endTime: Option<int>, now: int)
    ensures endTime.None? ==> !IsDead(endTime, now)
  {
    endTime.Some? && endTime.value < now
  }

  /** A ballot that has closed stays closed at every later time. */
  lemma DeadStaysDead(endTime: Option<int>, now: int, later: int)
    requires IsDead(endTime, now) && now <= later
    ensures IsDead(endTime, later)
  {
  }

  function Votes(choices: seq<Choice>): (keys: seq<int>)
    ensures |keys| == |choices|
    ensures forall k :: 0 <= k < |choices| ==> keys[k] == choices[k].votes
  {
    seq(|choices|, k requires 0 <= k < |choices| => choices[k].votes)
  }

  /** The fields a closed ballot lists for a choice: id, name, votes. */
  function ToClosed(c: Choice): (r: ClosedChoice)
    ensures r.id == c.id && r.name == c.name && r.votes == c.votes
  {
    ClosedChoice(c.id, c.name, c.votes)
  }

  /** The fields an open ballot lists for a choice; the votes stay hidden. */
  function ToOpen(c: Choice): (r: OpenChoice)
    ensures r.id == c.id && r.name == c.name
    ensures r.averageReview == c.averageReview && r.description == c.description
  {
    OpenChoice(c.id, c.name, c.averageReview, c.description)
  }

  /** The draws a read needs: one per stored choice. */
  predicate DrawsFor(ballot: Ballot, draws: seq<real>)
  {
    |draws| == |ballot.options.choices| && AllDraws(draws)
  }

  /** The stored ballot after `utils.shuffle(ballot.options.choices)`. */
  function Reshuffled(ballot: Ballot, draws: seq<real>): (b: Ballot)
    requires DrawsFor(ballot, draws)
    ensures b.voters == ballot.voters && b.endTime == ballot.endTime
    ensures b.options.suggestion == ballot.options.suggestion
    ensures multiset(b.options.choices) == multiset(ballot.options.choices)
  {
    ShuffledPermutes(ballot.options.choices, draws);
    Ballot(ballot.voters, ballot.endTime,
           SuggestionSet(ballot.options.suggestion, Shuffled(ballot.options.choices, draws)))
  }

  /** `formatSuggestionsForDeadBallot(ballot)`: the first choice with the most
      votes, found before the shuffle, and the shuffled choices without
      their reviews. With no choices, reading `winner.id` throws. */
  function FormatSuggestionsForDeadBallot(ballot: Ballot, today: string, draws: seq<real>): (r: Option<Read>)
    requires DrawsFor(ballot, draws)
    ensures r.None? <==> |ballot.options.choices| == 0
    ensures r.Some? ==> r.value.view.ClosedView?
    ensures r.Some? ==>
      var choices := ballot.options.choices;
      exists w :: (IsFirstMax(Votes(choices), w) &&
        r.value.view.winner == Winner(choices[w].id, today, choices[w].name, choices[w].votes))
    ensures r.Some? ==> forall k :: 0 <= k < |ballot.options.choices| ==>
      ballot.options.choices[k].votes <= r.value.view.winner.votes
    ensures r.Some? ==>
      multiset(r.value.view.results) == multiset(MapSeq(ToClosed, ballot.options.choices))
    ensures r.Some? ==> r.value.stored == Reshuffled(ballot, draws)
    ensures r.Some? ==> r.value.view.results == MapSeq(ToClosed, r.value.stored.options.choices)
  {
    var choices := ballot.options.choices;
    if |choices| == 0 then
      None
    else
      var w := choices[FirstMaxIndex(Votes(choices))];
      var stored := Reshuffled(ballot, draws);
      ShuffledMapPermutes(ToClosed, choices, draws);
      Some(Read(ClosedView(Winner(w.id, today, w.name, w.votes), MapSeq(ToClosed, stored.options.choices)), stored))
  }

  /** `formatSuggestions(ballot)` at time `now`. */
  function FormatSuggestions(ballot: Ballot, now: int, today: string, draws: seq<real>): (r: Option<Read>)
    requires DrawsFor(ballot, draws)
    ensures r.None? <==> IsDead(ballot.endTime, now) && |ballot.options.choices| == 0
    ensures r.Some? ==> (r.value.view.ClosedView? <==> IsDead(ballot.endTime, now))
    ensures r.Some? ==> r.value.stored == Reshuffled(ballot, draws)
    ensures r.Some? && r.value.view.ClosedView? ==>
      var choices := ballot.options.choices;
      (exists w :: IsFirstMax(Votes(choices), w) &&
        r.value.view.winner == Winner(choices[w].id, today, choices[w].name, choices[w].votes)) &&
      multiset(r.value.view.results) == multiset(MapSeq(ToClosed, choices)) &&
      r.value.view.results == MapSeq(ToClosed, r.value.stored.options.choices)
    ensures r.Some? && r.value.view.OpenView? ==>
      r.value.view.suggestion == ballot.options.suggestion &&
      r.value.view.choices == MapSeq(ToOpen, r.value.stored.options.choices) &&
      multiset(r.value.view.choices) == multiset(MapSeq(ToOpen, ballot.options.choices))
  {
    if IsDead(ballot.endTime, now) then
      FormatSuggestionsForDeadBallot(ballot, today, draws)
    else
      var stored := Reshuffled(ballot, draws);
      ShuffledMapPermutes(ToOpen, ballot.options.choices, draws);
      Some(Read(OpenView(ballot.options.suggestion, MapSeq(ToOpen, stored.options.choices)), stored))
  }

  /** A ballot whose end time equals the current time is still open. */
  lemma OpenAtDeadline(ballot: Ballot, today: string, draws: seq<real>)
    requires DrawsFor(ballot, draws) && ballot.endTime.Some?
    ensures FormatSuggestions(ballot, ballot.endTime.value, today, draws).value.view.OpenView?
  {
  }

  /** With both draws 0, the shuffle of two choices swaps them. */
  lemma ZeroDrawsSwapPair(ballot: Ballot)
    requires |ballot.options.choices| == 2
    ensures DrawsFor(ballot, [0.0, 0.0])
    ensures Reshuffled(ballot, [0.0, 0.0]).options.choices
         == [ballot.options.choices[1], ballot.options.choices[0]]
  {
    var cs := ballot.options.choices;
    assert Pick(0.0, 2) == 0 && Pick(0.0, 1) == 0;
    assert [0.0, 0.0][1..] == [0.0];
    assert Swap(cs, 1, 0) == [cs[1], cs[0]];
  }

  /** A closed ballot whose two choices are tied on votes names the first
      stored choice as the winner. */
  lemma TiedPairWinner(ballot: Ballot, now: int, today: string, draws: seq<real>)
    requires DrawsFor(ballot, draws) && IsDead(ballot.endTime, now)
    requires |ballot.options.choices| == 2
    requires ballot.options.choices[0].votes == ballot.options.choices[1].votes
    ensures
      var r := FormatSuggestions(ballot, now, today, draws);
      r.Some? && r.value.view.ClosedView? && r.value.view.winner.name == ballot.options.choices[0].name
  {
    var choices := ballot.options.choices;
    var keys := Votes(choices);
    assert keys[0] == keys[1];
    var r := FormatSuggestions(ballot, now, today, draws);
    var w :| IsFirstMax(keys, w) &&
      r.value.view.winner == Winner(choices[w].id, today, choices[w].name, choices[w].votes);
    assert w == 0;
  }

  /** Reading a closed ballot reorders its stored choices, so a later read can
      name a different winner among tied choices: two tied choices read twice
      with all draws 0. */
  lemma ReadsChangeTieBreak(ballot: Ballot, now: int, today: string)
    requires IsDead(ballot.endTime, now)
    requires |ballot.options.choices| == 2
    requires ballot.options.choices[0].votes == ballot.options.choices[1].votes
    ensures
      var first := FormatSuggestions(ballot, now, today, [0.0, 0.0]);
      first.Some? && first.value.view.winner.name == ballot.options.choices[0].name &&
      DrawsFor(first.value.stored, [0.0, 0.0]) &&
      var second := FormatSuggestions(first.value.stored, now, today, [0.0, 0.0]);
      second.Some? && second.value.view.winner.name == ballot.options.choices[1].name
  {
    ZeroDrawsSwapPair(ballot);
    TiedPairWinner(ballot, now, today, [0.0, 0.0]);
    var stored := Reshuffled(ballot, [0.0, 0.0]);
    ZeroDrawsSwapPair(stored);
    TiedPairWinner(stored, now, today, [0.0, 0.0]);
  }

}
