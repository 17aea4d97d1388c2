/** The request pipeline: the ordered route table, the per-route middleware
    (authentication, then validation), the handlers, the 404 fallback and the
    global error handler that turns a thrown error into a status and body. */
module Pipeline {
  import opened JsText
  import opened Catalog
  import opened Validation
  import opened Store
  import opened Queries

  // ---------------------------------------------------------------------------
  // Requests and responses
  // ---------------------------------------------------------------------------

  datatype Verb = Get | Head | Post | Put | Delete | OtherMethod(name: string)

  /** The request methods the route table can name. */
  const StandardMethods: set<string> := {"GET", "HEAD", "POST", "PUT", "DELETE"}

  /** The verb of a request line's method token: OtherMethod holds exactly the
      methods outside StandardMethods, under their own name. */
  function VerbOf(m: string): (v: Verb)
    ensures v.OtherMethod? <==> m !in StandardMethods
    ensures v.OtherMethod? ==> v.name == m
  {
    if m == "GET" then Get
    else if m == "HEAD" then Head
    else if m == "POST" then Post
    else if m == "PUT" then Put
    else if m == "DELETE" then Delete
    else OtherMethod(m)
  }

  /** A request as the handlers see it: `path` is the path without the query
      string (what routing matches), `url` the original URL (what the 404
      message quotes), header names lower-cased, the body already parsed. */
  datatype Request = Request(verb: Verb, path: string, url: string, headers: map<string, string>, query: Query, body: Body)

  /** The JSON bodies the service sends. */
  datatype Payload =
    | Welcome
    | ListPayload(data: seq<Product>, pagination: Pagination)
    | ProductPayload(message: Option<string>, product: Product)
    | SearchPayload(query: string, count: nat, results: seq<Product>)
    | StatsPayload(stats: Stats)
    | Failure(error: string, details: Option<seq<string>>)

  datatype Response = Response(status: int, payload: Payload)

  /** A response together with the store the request leaves behind. */
  datatype Reply = Reply(response: Response, next: State)

  // ---------------------------------------------------------------------------
  // The global error handler
  // ---------------------------------------------------------------------------

  const DefaultErrorMessage := "Internal Server Error"

  /** `err.statusCode || 500` and `err.message || 'Internal Server Error'`. */
  function ErrorResponse(e: ApiError): (r: Response)
    ensures r.status == 400 || r.status == 401 || r.status == 404 || r.status == 500
    ensures r.status == 500 <==> e.Fault?
    ensures e.NotFound? ==> r.status == 404
    ensures e.Invalid? ==> r.status == 400
    ensures e.Unauthenticated? ==> r.status == 401
    ensures r.payload.Failure? && r.payload.details.None? && r.payload.error != ""
    ensures e.message != "" ==> r.payload.error == e.message
    ensures e.message == "" ==> r.payload.error == DefaultErrorMessage
  {
    var status := match StatusCode(e) case Some(c) => c case None => 500;
    Response(status, Failure(if e.message == "" then DefaultErrorMessage else e.message, None))
  }

  /** The NotFoundError the catch-all middleware throws for an unmatched request. */
  function RouteNotFound(url: string): ApiError
  {
    NotFound("Route " + url + " not found")
  }

  // ---------------------------------------------------------------------------
  // Middleware
  // ---------------------------------------------------------------------------

  const ApiKeyHeader := "x-api-key"
  const ApiKey := "your-secret-api-key"
  const UnauthorizedMessage := "Unauthorized: Invalid or missing API key"
  const ValidationFailedMessage := "Validation failed"

  /** authMiddleware's test, `!apiKey || apiKey !== 'your-secret-api-key'`
      negated: the header is present, not empty, and equal to the key. */
  predicate Authorized(headers: map<string, string>)
  {
    && ApiKeyHeader in headers
    && headers[ApiKeyHeader] != ""
    && headers[ApiKeyHeader] == ApiKey
  }

  /** The emptiness test is subsumed: auth passes exactly when the header equals the key. */
  lemma AuthorizedIff(headers: map<string, string>)
    ensures Authorized(headers) <==> ApiKeyHeader in headers && headers[ApiKeyHeader] == ApiKey
  {
  }

  datatype Gate = AuthGate | ValidateGate

  /** What a middleware does: call next(), or end the request with a response. */
  datatype Outcome = Continue | Halt(response: Response)

  const UnauthorizedResponse := Response(401, Failure(UnauthorizedMessage, None))

  function Rejected(errors: seq<string>): Response
  {
    Response(400, Failure(ValidationFailedMessage, Some(errors)))
  }

  function RunGate(g: Gate, req: Request): Outcome
  {
    match g
    case AuthGate => if Authorized(req.headers) then Continue else Halt(UnauthorizedResponse)
    case ValidateGate =>
      var errors := Violations(req.body);
      if errors == [] then Continue else Halt(Rejected(errors))
  }

  /** A route's middleware in order: the first one that responds ends the request. */
  function RunGates(gs: seq<Gate>, req: Request): Outcome
  {
    if gs == [] then Continue
    else match RunGate(gs[0], req)
      case Continue => RunGates(gs[1..], req)
      case Halt(r) => Halt(r)
  }

  /** The request reaches the handler exactly when every middleware calls next();
      otherwise the response is that of the first middleware that did not. */
  lemma {:induction false} RunGatesSpec(gs: seq<Gate>, req: Request)
    ensures RunGates(gs, req).Continue? <==> forall k :: 0 <= k < |gs| ==> RunGate(gs[k], req).Continue?
    ensures RunGates(gs, req).Halt? ==>
      exists k :: 0 <= k < |gs| && RunGates(gs, req) == RunGate(gs[k], req) &&
        forall j :: 0 <= j < k ==> RunGate(gs[j], req).Continue?
  {
    if gs != [] {
      RunGatesSpec(gs[1..], req);
      if RunGate(gs[0], req).Continue? && RunGates(gs, req).Halt? {
        var k :| 0 <= k < |gs[1..]| && RunGates(gs[1..], req) == RunGate(gs[1..][k], req) &&
          forall j :: 0 <= j < k ==> RunGate(gs[1..][j], req).Continue?;
        assert RunGates(gs, req) == RunGate(gs[k + 1], req);
        assert forall j :: 0 <= j < k + 1 ==> RunGate(gs[j], req).Continue? by {
          forall j | 0 <= j < k + 1
            ensures RunGate(gs[j], req).Continue?
          {
            if j > 0 {
              assert gs[j] == gs[1..][j - 1];
            }
          }
        }
      }
      if forall k :: 0 <= k < |gs| ==> RunGate(gs[k], req).Continue? {
        assert forall k :: 0 <= k < |gs[1..]| ==> RunGate(gs[1..][k], req).Continue? by {
          forall k | 0 <= k < |gs[1..]|
            ensures RunGate(gs[1..][k], req).Continue?
          {
            assert gs[1..][k] == gs[k + 1];
          }
        }
      }
    }
  }

  /** Passing the gates means passing every gate of the route. */
  lemma GatesPassed(gs: seq<Gate>, req: Request)
    requires RunGates(gs, req).Continue?
    ensures AuthGate in gs ==> Authorized(req.headers)
    ensures ValidateGate in gs ==> ValidBody(req.body)
  {
    RunGatesSpec(gs, req);
    if ValidateGate in gs {
      var k :| 0 <= k < |gs| && gs[k] == ValidateGate;
      assert RunGate(gs[k], req).Continue?;
      NoViolationsIffValid(req.body);
    }
    if AuthGate in gs {
      var k :| 0 <= k < |gs| && gs[k] == AuthGate;
      assert RunGate(gs[k], req).Continue?;
    }
  }

  /** The route's middleware stack, run one layer at a time: authMiddleware
      compares the key, validateProduct builds its error list. */
  method RunMiddleware(gs: seq<Gate>, req: Request) returns (outcome: Outcome)
    ensures outcome == RunGates(gs, req)
  {
    var i := 0;
    while i < |gs|
      invariant 0 <= i <= |gs|
      invariant RunGates(gs, req) == RunGates(gs[i..], req)
    {
      assert gs[i..][1..] == gs[i + 1..];
      match gs[i] {
        case AuthGate =>
          if !Authorized(req.headers) {
            return Halt(UnauthorizedResponse);
          }
        case ValidateGate =>
          var errors := ValidateProduct(req.body);
          if errors != [] {
            return Halt(Rejected(errors));
          }
      }
      i := i + 1;
    }
    outcome := Continue;
  }

  // ---------------------------------------------------------------------------
  // Routing
  // ---------------------------------------------------------------------------

  /** A route path: a literal, or a literal prefix followed by the `:id` segment. */
  datatype Pattern = Exact(path: string) | WithId(prefix: string)

  datatype Handler = Root | ListAll | GetOne | CreateOne | UpdateOne | DeleteOne | SearchByName | ShowStats

  datatype Route = Route(verb: Verb, pattern: Pattern, gates: seq<Gate>, handler: Handler)

  const ProductsPath := "/api/products"
  const ItemPrefix := "/api/products/"
  const SearchPath := "/api/products/search"
  const StatsPath := "/api/products/stats"

  /** The routes in registration order. */
  const Routes: seq<Route> := [
    Route(Get, Exact("/"), [], Root),
    Route(Get, Exact(ProductsPath), [], ListAll),
    Route(Get, WithId(ItemPrefix), [], GetOne),
    Route(Post, Exact(ProductsPath), [AuthGate, ValidateGate], CreateOne),
    Route(Put, WithId(ItemPrefix), [AuthGate, ValidateGate], UpdateOne),
    Route(Delete, WithId(ItemPrefix), [AuthGate], DeleteOne),
    Route(Get, Exact(SearchPath), [], SearchByName),
    Route(Get, Exact(StatsPath), [], ShowStats)
  ]

  /** A GET route also serves HEAD requests. */
  predicate Serves(routeVerb: Verb, verb: Verb)
  {
    routeVerb == verb || (routeVerb == Get && verb == Head)
  }

  /** Non-strict routing: one trailing slash is ignored. */
  function DropSlash(s: string): (r: string)
  {
    if |s| > 0 && s[|s| - 1] == '/' then s[..|s| - 1] else s
  }

  /** Case-insensitive match of a request path against a pattern; for an `:id`
      route the parameter is the one non-empty segment after the prefix. */
  function PathMatch(pattern: Pattern, path: string): Option<string>
  {
    match pattern
    case Exact(p) => if DropSlash(Lower(path)) == DropSlash(Lower(p)) then Some("") else None
    case WithId(prefix) =>
      if |prefix| <= |path| && Lower(path[..|prefix|]) == Lower(prefix) then
        var param := DropSlash(path[|prefix|..]);
        if param != "" && '/' !in param then Some(param) else None
      else None
  }

  predicate Matches(r: Route, verb: Verb, path: string)
  {
    Serves(r.verb, verb) && PathMatch(r.pattern, path).Some?
  }

  /** The chosen route (its position in the table) and the `:id` parameter. */
  datatype Found = Found(index: nat, param: string)

  /** The first route, from position `from` on, that matches the request. */
  function FindRoute(rs: seq<Route>, verb: Verb, path: string, from: nat): (f: Option<Found>)
    requires from <= |rs|
    ensures f.Some? ==>
      && from <= f.value.index < |rs|
      && Matches(rs[f.value.index], verb, path)
      && PathMatch(rs[f.value.index].pattern, path) == Some(f.value.param)
      && forall j :: from <= j < f.value.index ==> !Matches(rs[j], verb, path)
    ensures f.None? <==> forall j :: from <= j < |rs| ==> !Matches(rs[j], verb, path)
    decreases |rs| - from
  {
    if from == |rs| then None
    else if Matches(rs[from], verb, path) then Some(Found(from, PathMatch(rs[from].pattern, path).value))
    else FindRoute(rs, verb, path, from + 1)
  }

  function Dispatch(verb: Verb, path: string): Option<Found>
  {
    FindRoute(Routes, verb, path, 0)
  }

  /** In the table, the handlers that write are reached only through the gates
      they need: authentication first, and validation for create and update. */
  lemma RouteGates(i: int)
    requires 0 <= i < |Routes|
    ensures Routes[i].handler in {CreateOne, UpdateOne, DeleteOne} ==>
      |Routes[i].gates| > 0 && Routes[i].gates[0] == AuthGate
    ensures Routes[i].handler in {CreateOne, UpdateOne} ==> ValidateGate in Routes[i].gates
    ensures Routes[i].verb in {Post, Put, Delete} <==> Routes[i].handler in {CreateOne, UpdateOne, DeleteOne}
  {
  }

  // ---------------------------------------------------------------------------
  // Handlers
  // ---------------------------------------------------------------------------

  const CreatedMessage := "Product created successfully"
  const UpdatedMessage := "Product updated successfully"
  const DeletedMessage := "Product deleted successfully"

  /** `res.status(status).json({ success, message, data })`, or the error handler. */
  function Answer(r: Result<Product>, status: int, message: Option<string>): Response
  {
    match r
    case Ok(p) => Response(status, ProductPayload(message, p))
    case Err(e) => ErrorResponse(e)
  }

  function Serve(s: State, h: Handler, param: string, req: Request): Reply
    requires h.CreateOne? || h.UpdateOne? ==> ValidBody(req.body)
  {
    match h
    case Root => Reply(Response(200, Welcome), s)
    case ListAll =>
      var l := ListProducts(s.products, req.query);
      Reply(Response(200, ListPayload(l.data, l.pagination)), s)
    case GetOne => Reply(Answer(GetById(s.products, param), 200, None), s)
    case CreateOne =>
      var e := Created(s, req.body);
      Reply(Answer(e.result, 201, Some(CreatedMessage)), e.next)
    case UpdateOne =>
      var e := Updated(s, param, req.body);
      Reply(Answer(e.result, 200, Some(UpdatedMessage)), e.next)
    case DeleteOne =>
      var e := Deleted(s, param);
      Reply(Answer(e.result, 200, Some(DeletedMessage)), e.next)
    case SearchByName =>
      (match Search(s.products, req.query.q)
       case Ok(r) => Reply(Response(200, SearchPayload(r.query, r.count, r.data)), s)
       case Err(e) => Reply(ErrorResponse(e), s))
    case ShowStats => Reply(Response(200, StatsPayload(StatsOf(s.products))), s)
  }

  /** The whole application on one request: route, middleware, handler, and the
      catch-all 404 when no route matches. */
  function Respond(s: State, req: Request): Reply
  {
    match Dispatch(req.verb, req.path)
    case None => Reply(ErrorResponse(RouteNotFound(req.url)), s)
    case Some(f) =>
      var route := Routes[f.index];
      match RunGates(route.gates, req)
      case Halt(r) => Reply(r, s)
      case Continue =>
        RouteGates(f.index);
        GatesPassed(route.gates, req);
        Serve(s, route.handler, f.param, req)
  }

  /** The running application: the same pipeline over the store object, the
      middleware and the stats loop run as methods. */
  method Handle(store: ProductStore, req: Request) returns (resp: Response)
    requires store.Valid()
    modifies store
    ensures store.Valid()
    ensures old(store.issued) <= store.issued
    ensures Reply(resp, store.Model()) == Respond(old(store.Model()), req)
  {
    var found := Dispatch(req.verb, req.path);
    if found.None? {
      return ErrorResponse(RouteNotFound(req.url));
    }
    var f := found.value;
    var route := Routes[f.index];
    var outcome := RunMiddleware(route.gates, req);
    if outcome.Halt? {
      return outcome.response;
    }
    RouteGates(f.index);
    GatesPassed(route.gates, req);
    resp := Apply(store, route.handler, f.param, req);
  }

  /** Runs one handler against the store object. */
  method Apply(store: ProductStore, h: Handler, param: string, req: Request) returns (resp: Response)
    requires store.Valid()
    requires h.CreateOne? || h.UpdateOne? ==> ValidBody(req.body)
    modifies store
    ensures store.Valid()
    ensures old(store.issued) <= store.issued
    ensures Reply(resp, store.Model()) == Serve(old(store.Model()), h, param, req)
  {
    match h
    case Root =>
      resp := Response(200, Welcome);
    case ListAll =>
      var l := ListProducts(store.products, req.query);
      resp := Response(200, ListPayload(l.data, l.pagination));
    case GetOne =>
      resp := Answer(GetById(store.products, param), 200, None);
    case CreateOne =>
      var r := store.Create(req.body);
      resp := Answer(r, 201, Some(CreatedMessage));
    case UpdateOne =>
      var r := store.Update(param, req.body);
      resp := Answer(r, 200, Some(UpdatedMessage));
    case DeleteOne =>
      var r := store.Delete(param);
      resp := Answer(r, 200, Some(DeletedMessage));
    case SearchByName =>
      var r := Search(store.products, req.query.q);
      resp := if r.Ok? then Response(200, SearchPayload(r.value.query, r.value.count, r.value.data))
              else ErrorResponse(r.error);
    case ShowStats =>
      var st := ComputeStats(store.products);
      resp := Response(200, StatsPayload(st));
  }
}
