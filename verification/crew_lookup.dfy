/**
 The handler that looks up the crew of a movie by role. It checks that the
 `role` and `movieId` path parameters are present, parses `movieId` with
 ECMAScript's `parseInt(movieId, 10)`, queries the crew table with the key
 condition `movieId = :m and crewRole = :r`, and turns the query's outcome
 into an HTTP status code and body.

 The store is not called here: its outcome is an input, and an invocation
 records which query, if any, the handler issued. Bodies are kept as values
 rather than JSON text.
 */
module CrewLookup {
  import opened Wrappers
  import opened IntParsing

  /** The request's path parameters; a name that is not a key is undefined. */
  type PathParameters = map<string, string>

  /** One item the query returned; only its `name` attribute is read. */
  datatype CrewItem = CrewItem(name: Option<string>)

  /** The query threw, or it returned an `Items` field that may be undefined. */
  datatype StoreOutcome = Failure | Success(items: Option<seq<CrewItem>>)

  /** The values bound to `:m` and `:r` in the key condition. */
  datatype QueryKey = QueryKey(movieId: int, crewRole: string)

  /** `{message}`, `{message, error}` or `{crew}`. */
  datatype Body =
    | Message(text: string)
    | ErrorMessage(text: string)
    | Crew(names: seq<Option<string>>)

  datatype Response = Response(statusCode: int, body: Body)

  /** One run of the handler: the query it sent, if any, and what it returned. */
  datatype Invocation = Invocation(query: Option<QueryKey>, response: Response)

  const MissingParameters := "Missing role or movieId in path parameters"
  const InvalidMovieId := "Invalid movieId"
  const NoCrewFound := "No crew members found "
  const InternalError := "Internal server error"

  /** `params.name` is truthy: the parameters exist, define `name`, and its value is not "". */
  predicate Provided(params: Option<PathParameters>, name: string) {
    params.Some? && name in params.value && params.value[name] != ""
  }

  /** Both path parameters the handler needs are truthy. */
  predicate BothProvided(params: Option<PathParameters>) {
    Provided(params, "role") && Provided(params, "movieId")
  }

  /** The responses the handler can give, status by status. */
  predicate WellFormed(r: Response) {
    if r.statusCode == 400 then r.body == Message(MissingParameters) || r.body == Message(InvalidMovieId)
    else if r.statusCode == 404 then r.body == Message(NoCrewFound)
    else if r.statusCode == 500 then r.body == ErrorMessage(InternalError)
    else r.statusCode == 200 && r.body.Crew? && |r.body.names| > 0
  }

  /** Validation either ends the request with a response or yields the key to query. */
  datatype Validation = Reject(response: Response) | Query(key: QueryKey)

  /** The checks before the query, in the handler's order: presence first, then parsing. */
  function Validate(params: Option<PathParameters>): (v: Validation)
    ensures v.Reject? ==> v.response.statusCode == 400 && WellFormed(v.response)
    ensures v.Reject? && v.response.body == Message(InvalidMovieId) ==> BothProvided(params)
    ensures v.Query? ==> BothProvided(params) && v.key.crewRole == params.value["role"]
  {
    if !BothProvided(params) then
      Reject(Response(400, Message(MissingParameters)))
    else
      match ParseInt(params.value["movieId"])
      case None => Reject(Response(400, Message(InvalidMovieId)))
      case Some(movieId) => Query(QueryKey(movieId, params.value["role"]))
  }

  /** `Items.map(item => item.name)`. */
  function CrewNames(items: seq<CrewItem>): (names: seq<Option<string>>)
    ensures |names| == |items|
    ensures forall i :: 0 <= i < |items| ==> names[i] == items[i].name
  {
    if items == [] then [] else [items[0].name] + CrewNames(items[1..])
  }

  /** The response to a query, from what the query produced. */
  function Respond(outcome: StoreOutcome): (r: Response)
    ensures WellFormed(r) && r.statusCode != 400
    ensures r.statusCode == 500 <==> outcome.Failure?
    ensures r.statusCode == 200 <==> outcome.Success? && outcome.items.Some? && |outcome.items.value| > 0
    ensures r.statusCode == 200 ==> outcome.Success? && outcome.items.Some? && |r.body.names| == |outcome.items.value|
  {
    match outcome
    case Failure => Response(500, ErrorMessage(InternalError))
    case Success(None) => Response(404, Message(NoCrewFound))
    case Success(Some(items)) =>
      if |items| == 0 then Response(404, Message(NoCrewFound))
      else Response(200, Crew(CrewNames(items)))
  }

  /** The handler: validate, then query once and respond to the outcome. */
  function Handle(params: Option<PathParameters>, outcome: StoreOutcome): (r: Invocation)
    ensures r.query.None? <==> r.response.statusCode == 400
    ensures WellFormed(r.response)
  {
    match Validate(params)
    case Reject(response) => Invocation(None, response)
    case Query(key) => Invocation(Some(key), Respond(outcome))
  }

  /*
   * The handler's branches, each stated over all inputs.
   */

  /** Missing or empty `role` or `movieId` (or no path parameters at all) gives 400 "Missing ..." and no query, and nothing else does. */
  lemma MissingParametersResponse(params: Option<PathParameters>, outcome: StoreOutcome)
    ensures Handle(params, outcome).response == Response(400, Message(MissingParameters))
        <==> !BothProvided(params)
    ensures !BothProvided(params) ==> Handle(params, outcome).query == None
  {
  }

  /** An empty movieId, which parseInt would also reject, is reported as missing, never as invalid. */
  lemma EmptyMovieIdIsMissing(params: Option<PathParameters>, outcome: StoreOutcome)
    requires params.Some? && "movieId" in params.value && params.value["movieId"] == ""
    ensures ParseInt(params.value["movieId"]) == None
    ensures Handle(params, outcome).response == Response(400, Message(MissingParameters))
    ensures Handle(params, outcome).response.body != Message(InvalidMovieId)
  {
    ParseIntNaNExamples();
  }

  /** A present movieId with no digit run after white space and sign gives 400 "Invalid movieId" and no query, and nothing else does. */
  lemma InvalidMovieIdResponse(params: Option<PathParameters>, outcome: StoreOutcome)
    ensures Handle(params, outcome).response == Response(400, Message(InvalidMovieId))
        <==> BothProvided(params) && (forall w, sg, d, t :: !Lexes(params.value["movieId"], w, sg, d, t))
    ensures Handle(params, outcome).response.body == Message(InvalidMovieId) ==> Handle(params, outcome).query == None
  {
    if params.Some? && "movieId" in params.value {
      ParseIntNaN(params.value["movieId"]);
    }
  }

  /** A query is issued exactly when both parameters are present and movieId parses; its key is the parsed movieId and the role unchanged. */
  lemma QueryKeyOfRequest(params: Option<PathParameters>, outcome: StoreOutcome)
    ensures Handle(params, outcome).query.Some? <==> BothProvided(params) && ParseInt(params.value["movieId"]).Some?
    ensures Handle(params, outcome).query.Some? ==>
      Handle(params, outcome).query.value == QueryKey(ParseInt(params.value["movieId"]).value, params.value["role"])
  {
  }

  /** A movieId written as a decimal integer, followed by any text that does not continue its digits, queries that integer. */
  lemma LenientMovieIdQuery(role: string, n: int, rest: string, outcome: StoreOutcome)
    requires role != ""
    requires rest == [] || !IsDigit(rest[0])
    ensures Handle(Some(map["role" := role, "movieId" := DecimalString(n) + rest]), outcome).query
         == Some(QueryKey(n, role))
  {
    ParseIntRoundTrip(n, rest);
    var params := map["role" := role, "movieId" := DecimalString(n) + rest];
    assert params["role"] == role;
    assert params["movieId"] == DecimalString(n) + rest;
    assert params["movieId"] != "" by {
      assert |DecimalString(n)| > 0;
    }
    assert Validate(Some(params)) == Query(QueryKey(n, role));
  }

  /** Once queried, an undefined or empty `Items` gives 404 "No crew members found ", and nothing else does. */
  lemma NotFoundResponse(params: Option<PathParameters>, outcome: StoreOutcome)
    requires Handle(params, outcome).query.Some?
    ensures Handle(params, outcome).response == Response(404, Message(NoCrewFound))
        <==> outcome == Success(None) || outcome == Success(Some([]))
  {
    if outcome.Success? && outcome.items.Some? && |outcome.items.value| == 0 {
      assert outcome.items.value == [];
    }
  }

  /** Once queried, n >= 1 items give 200 and a crew of n names, the i-th being the i-th item's name. */
  lemma CrewResponse(params: Option<PathParameters>, items: seq<CrewItem>)
    requires Handle(params, Success(Some(items))).query.Some?
    requires |items| > 0
    ensures Handle(params, Success(Some(items))).response.statusCode == 200
    ensures Handle(params, Success(Some(items))).response.body.Crew?
    ensures |Handle(params, Success(Some(items))).response.body.names| == |items|
    ensures forall i :: 0 <= i < |items| ==>
      Handle(params, Success(Some(items))).response.body.names[i] == items[i].name
  {
  }

  /** Once queried, a failed query gives 500 "Internal server error", and nothing else does. */
  lemma ServerErrorResponse(params: Option<PathParameters>, outcome: StoreOutcome)
    requires Handle(params, outcome).query.Some?
    ensures Handle(params, outcome).response.statusCode == 500 <==> outcome == Failure
    ensures outcome == Failure ==> Handle(params, outcome).response.body == ErrorMessage(InternalError)
  {
  }

  /** Without a query the store's outcome cannot influence the response. */
  lemma OutcomeUnusedWithoutQuery(params: Option<PathParameters>, o1: StoreOutcome, o2: StoreOutcome)
    requires Handle(params, o1).query.None?
    ensures Handle(params, o1) == Handle(params, o2)
  {
  }

  /** The response depends on the request only through the query it issues. */
  lemma SameQuerySameResponse(p1: Option<PathParameters>, p2: Option<PathParameters>, outcome: StoreOutcome)
    requires Handle(p1, outcome).query.Some?
    requires Handle(p1, outcome).query == Handle(p2, outcome).query
    ensures Handle(p1, outcome).response == Handle(p2, outcome).response
  {
  }

  /** The projection keeps store order: it maps a concatenation piece by piece. */
  lemma {:induction false} CrewNamesAppend(a: seq<CrewItem>, b: seq<CrewItem>)
    ensures CrewNames(a + b) == CrewNames(a) + CrewNames(b)
    decreases |a|
  {
    if a == [] {
      assert a + b == b;
    } else {
      assert (a + b)[1..] == a[1..] + b;
      CrewNamesAppend(a[1..], b);
    }
  }
}
