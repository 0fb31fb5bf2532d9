/** The request validators of `app/validation.js`, as decisions over an
    abstract response: whether headers were already sent, and the errors
    passed to `sendError` so far, in order. `sendError` sets the headers and
    appends its error; the status code, the JSON wording and the exception
    a second call raises in the framework are not modelled. */
module Validation {
  import opened Optional
  import opened Records

  /** The error bodies the validators send, reduced to what varies. */
  datatype Error =
    | MissingProperty(key: string)
    | IncompleteVoter(voter: Voter)
    | InvalidDate(field: string)
    | InvalidBallotId(ballotId: string)
    | NoQueryParams
    | MissingQueryParam(param: string)

  datatype Response = Response(headersSent: bool, sent: seq<Error>)

  /** `sendError(response, 422, error)`. */
  function SendError(response: Response, e: Error): (r: Response)
    ensures r.headersSent
    ensures r.sent == response.sent + [e]
  {
    Response(true, response.sent + [e])
  }

  /** JavaScript truthiness of an optional string field. */
  predicate Truthy(field: Option<string>)
  {
    field.Some? && field.value != ""
  }

  /** `validateDate(request, response, field)`; the body value is given as
      what `Date.parse` makes of it, `None` standing for `NaN`. */
  function ValidateDate(parsed: Option<int>, field: string, response: Response): (r: Response)
    ensures parsed.Some? ==> r == response
    ensures parsed.None? ==> r.headersSent && r.sent == response.sent + [InvalidDate(field)]
  {
    if parsed.None? then SendError(response, InvalidDate(field)) else response
  }

  /** The `requiredProperties` argument: a single key or an array of keys. */
  datatype Required = OneProperty(key: string) | Properties(keys: seq<string>)

  /** `if (!Array.isArray(p)) p = [p]`. */
  function AsList(required: Required): (keys: seq<string>)
    ensures required.OneProperty? ==> keys == [required.key]
    ensures required.Properties? ==> keys == required.keys
  {
    match required
    case OneProperty(key) => [key]
    case Properties(keys) => keys
  }

  /** One error per key that is not an own property of the body, in the
      order of `keys`. */
  function MissingErrors(keys: seq<string>, present: set<string>): (errs: seq<Error>)
    ensures |errs| <= |keys|
  {
    if |keys| == 0 then []
    else (if keys[0] in present then [] else [MissingProperty(keys[0])]) + MissingErrors(keys[1..], present)
  }

  /** The errors name exactly the keys that are missing. */
  lemma {:induction false} MissingErrorsMembers(keys: seq<string>, present: set<string>)
    ensures forall e :: e in MissingErrors(keys, present) ==> e.MissingProperty? && e.key in keys && e.key !in present
    ensures forall k :: k in keys && k !in present ==> MissingProperty(k) in MissingErrors(keys, present)
  {
    if |keys| > 0 {
      MissingErrorsMembers(keys[1..], present);
      assert keys == [keys[0]] + keys[1..];
    }
  }

  /** The `forEach` of `validateFields` from key `keys[0]` on; it calls
      `sendError` for every missing key without looking at `headersSent`. */
  function ValidateFieldsFrom(keys: seq<string>, present: set<string>, response: Response): (r: Response)
    ensures r.sent == response.sent + MissingErrors(keys, present)
    ensures r.headersSent <==> response.headersSent || |MissingErrors(keys, present)| > 0
  {
    if |keys| == 0 then response
    else
      assert MissingErrors(keys, present)
          == (if keys[0] in present then [] else [MissingProperty(keys[0])]) + MissingErrors(keys[1..], present);
      var next := if keys[0] in present then response else SendError(response, MissingProperty(keys[0]));
      assert next.sent == response.sent + (if keys[0] in present then [] else [MissingProperty(keys[0])]);
      ValidateFieldsFrom(keys[1..], present, next)
  }

  /** `validateFields(request, response, requiredProperties)`, with
      `present` the body's own property names. */
  function ValidateFields(present: set<string>, response: Response, required: Required): (r: Response)
    ensures r.sent == response.sent + MissingErrors(AsList(required), present)
    ensures r.headersSent <==> response.headersSent || exists k :: k in AsList(required) && k !in present
    ensures required.OneProperty? ==>
      r.sent == response.sent + (if required.key in present then [] else [MissingProperty(required.key)])
  {
    var errs := MissingErrors(AsList(required), present);
    MissingErrorsMembers(AsList(required), present);
    assert |errs| > 0 ==> errs[0] in errs && errs[0].key in AsList(required) && errs[0].key !in present;
    ValidateFieldsFrom(AsList(required), present, response)
  }

  /** A voter lacking a truthy `name` or `emailAddress`. */
  predicate Incomplete(v: Voter)
  {
    !Truthy(v.name) || !Truthy(v.emailAddress)
  }

  /** One error per incomplete voter, in order. */
  function VoterErrors(voters: seq<Voter>): (errs: seq<Error>)
    ensures |errs| <= |voters|
  {
    if |voters| == 0 then []
    else (if Incomplete(voters[0]) then [IncompleteVoter(voters[0])] else []) + VoterErrors(voters[1..])
  }

  /** The errors carry exactly the incomplete voters. */
  lemma {:induction false} VoterErrorsMembers(voters: seq<Voter>)
    ensures forall e :: e in VoterErrors(voters) ==> e.IncompleteVoter? && e.voter in voters && Incomplete(e.voter)
    ensures forall v :: v in voters && Incomplete(v) ==> IncompleteVoter(v) in VoterErrors(voters)
  {
    if |voters| > 0 {
      VoterErrorsMembers(voters[1..]);
      assert voters == [voters[0]] + voters[1..];
    }
  }

  /** The `forEach` of `validateVoters` from `voters[0]` on. */
  function ValidateVotersFrom(voters: seq<Voter>, response: Response): (r: Response)
    ensures r.sent == response.sent + VoterErrors(voters)
    ensures r.headersSent <==> response.headersSent || |VoterErrors(voters)| > 0
  {
    if |voters| == 0 then response
    else
      var first := if Incomplete(voters[0]) then [IncompleteVoter(voters[0])] else [];
      assert VoterErrors(voters) == first + VoterErrors(voters[1..]);
      var next := if Incomplete(voters[0]) then SendError(response, IncompleteVoter(voters[0])) else response;
      assert next.sent == response.sent + first;
      ValidateVotersFrom(voters[1..], next)
  }

  /** `validateVoters(request, response)`: one `sendError` per incomplete
      voter, none for the others. */
  function ValidateVoters(voters: seq<Voter>, response: Response): (r: Response)
    ensures r.sent == response.sent + VoterErrors(voters)
    ensures r.headersSent <==> response.headersSent || exists v :: v in voters && Incomplete(v)
  {
    var errs := VoterErrors(voters);
    VoterErrorsMembers(voters);
    assert |errs| > 0 ==> errs[0] in errs && errs[0].voter in voters && Incomplete(errs[0].voter);
    ValidateVotersFrom(voters, response)
  }

  /** The posted body of a new ballot: its own property names, its voters,
      and `Date.parse` of its `endTime` (`None` for `NaN`, which includes an
      absent field). */
  datatype BallotBody = BallotBody(present: set<string>, voters: seq<Voter>, endTime: Option<int>)

  const CreateBallotFields: seq<string> := ["voters", "endTime"]

  /** `validateCreateBallotBody` as written: the voter check runs only if
      nothing was sent, but the date check tests `response.headerSent`, a
      property that is never set, and so always runs. */
  function ValidateCreateBallotBody(body: BallotBody, response: Response): (r: Response)
    ensures
      var fields := MissingErrors(CreateBallotFields, body.present);
      var voters := if response.headersSent || |fields| > 0 then [] else VoterErrors(body.voters);
      var date := if body.endTime.None? then [InvalidDate("endTime")] else [];
      r.sent == response.sent + fields + voters + date
    ensures !response.headersSent && "voters" in body.present && "endTime" in body.present ==>
      forall v :: v in body.voters && Incomplete(v) ==> IncompleteVoter(v) in r.sent
    ensures body.endTime.None? ==> r.sent[|r.sent| - 1] == InvalidDate("endTime")
  {
    var checked := ValidateFields(body.present, response, Properties(CreateBallotFields));
    var votersChecked := if !checked.headersSent then ValidateVoters(body.voters, checked) else checked;
    VoterErrorsMembers(body.voters);
    ValidateDate(body.endTime, "endTime", votersChecked)
  }

  /** `validateCreateBallotBody` with the guard spelled `headersSent`, as the
      voter check spells it: each check runs only while nothing was sent. */
  function ValidateCreateBallotBodyGuarded(body: BallotBody, response: Response): (r: Response)
    ensures response.sent <= r.sent
    ensures response.headersSent ==> r.sent == response.sent + MissingErrors(CreateBallotFields, body.present)
    ensures InvalidDate("endTime") in r.sent[|response.sent|..] ==>
      r.sent == response.sent + [InvalidDate("endTime")]
    ensures (!response.headersSent && "voters" in body.present && "endTime" in body.present &&
             forall v :: v in body.voters ==> !Incomplete(v)) ==>
      (InvalidDate("endTime") in r.sent[|response.sent|..] <==> body.endTime.None?)
  {
    var checked := ValidateFields(body.present, response, Properties(CreateBallotFields));
    var votersChecked := if !checked.headersSent then ValidateVoters(body.voters, checked) else checked;
    MissingErrorsMembers(CreateBallotFields, body.present);
    VoterErrorsMembers(body.voters);
    if !votersChecked.headersSent then ValidateDate(body.endTime, "endTime", votersChecked) else votersChecked
  }

  /** An incomplete voter together with an unparsable end time: as written
      `sendError` is called a second time, for the date, on an already-sent
      response; with the guard it is called once, for the voter. */
  lemma HeaderSentTypo()
    ensures
      var v := Voter(Some("Ann"), None);
      var body := BallotBody({"voters", "endTime"}, [v], None);
      ValidateCreateBallotBody(body, Response(false, [])).sent == [IncompleteVoter(v), InvalidDate("endTime")] &&
      ValidateCreateBallotBodyGuarded(body, Response(false, [])).sent == [IncompleteVoter(v)]
  {
    var v := Voter(Some("Ann"), None);
    assert MissingErrors(CreateBallotFields, {"voters", "endTime"}) == [];
    assert VoterErrors([v]) == [IncompleteVoter(v)];
  }

  /** `validateGetBallot`: the model treats only the store's keys as
      ballots, so an id is rejected exactly when it is not a key. */
  function ValidateGetBallot<B>(ballotId: string, ballots: map<string, B>, response: Response): (r: Response)
    ensures response.sent <= r.sent
    ensures |r.sent| > |response.sent| <==> ballotId !in ballots
    ensures ballotId !in ballots ==> r.headersSent && r.sent[|response.sent|..] == [InvalidBallotId(ballotId)]
    ensures ballotId in ballots ==> r == response
  {
    if ballotId !in ballots then SendError(response, InvalidBallotId(ballotId)) else response
  }

  const RequiredParams: seq<string> := ["id", "ballotId", "voterName", "emailAddress"]

  /** `queryParams[name]` is truthy. */
  predicate HasParam(query: map<string, string>, name: string)
  {
    name in query && query[name] != ""
  }

  /** The `for` loop of `validateVote` from `params[0]` on: the first missing
      parameter is reported, then the loop breaks; nothing is sent once
      headers are out. */
  function ValidateParamsFrom(params: seq<string>, query: map<string, string>, response: Response): (r: Response)
    ensures response.headersSent ==> r == response
    ensures !response.headersSent && (forall i :: 0 <= i < |params| ==> HasParam(query, params[i])) ==> r == response
    ensures !response.headersSent && (exists i :: 0 <= i < |params| && !HasParam(query, params[i])) ==>
      exists j :: 0 <= j < |params| && !HasParam(query, params[j]) &&
        (forall i :: 0 <= i < j ==> HasParam(query, params[i])) &&
        r == SendError(response, MissingQueryParam(params[j]))
  {
    if |params| == 0 then response
    else if !response.headersSent && !HasParam(query, params[0]) then
      SendError(response, MissingQueryParam(params[0]))
    else
      var r := ValidateParamsFrom(params[1..], query, response);
      assert forall i :: 1 <= i < |params| ==> params[i] == params[1..][i - 1];
      r
  }

  /** `validateVote(request, response, ballots)` on the parsed query. */
  function ValidateVote(query: map<string, string>, response: Response): (r: Response)
    ensures response.sent <= r.sent && |r.sent| <= |response.sent| + 1
    ensures |query| == 0 ==> r.sent == response.sent + [NoQueryParams]
    ensures |query| > 0 && response.headersSent ==> r == response
    ensures |query| > 0 && (forall i :: 0 <= i < 4 ==> HasParam(query, RequiredParams[i])) ==> r == response
    ensures |query| > 0 && !response.headersSent && (exists i :: 0 <= i < 4 && !HasParam(query, RequiredParams[i])) ==>
      exists j :: 0 <= j < 4 && !HasParam(query, RequiredParams[j]) &&
        (forall i :: 0 <= i < j ==> HasParam(query, RequiredParams[i])) &&
        r.sent == response.sent + [MissingQueryParam(RequiredParams[j])]
  {
    var checked := if |query| == 0 then SendError(response, NoQueryParams) else response;
    ValidateParamsFrom(RequiredParams, query, checked)
  }

}
