/** What the pipeline guarantees for every request: the route-order shadowing of
    search and stats, authentication before validation, which requests can
    change the store, the invariant every request keeps, and how a created
    product is found again over HTTP. */
module PipelineProperties {
  import opened JsText
  import opened Catalog
  import opened Validation
  import opened Store
  import opened Queries
  import opened Pipeline

  // ---------------------------------------------------------------------------
  // Path matching
  // ---------------------------------------------------------------------------

  predicate NoCapitals(s: string)
  {
    forall k :: 0 <= k < |s| ==> !('A' <= s[k] <= 'Z')
  }

  lemma LowerUnchanged(s: string)
    requires NoCapitals(s)
    ensures Lower(s) == s
  {
  }

  lemma LowerSplit(s: string, n: nat)
    requires n <= |s|
    ensures Lower(s[..n]) == Lower(s)[..n]
    ensures Lower(s[n..]) == Lower(s)[n..]
  {
  }

  /** Lower-casing and dropping a trailing slash commute. */
  lemma LowerDropSlash(s: string)
    ensures Lower(DropSlash(s)) == DropSlash(Lower(s))
  {
    if |s| > 0 {
      LowerKeepsSlash(s[|s| - 1]);
      LowerSplit(s, |s| - 1);
    }
  }

  lemma DropSlashSuffix(s: string, n: nat)
    requires n <= |DropSlash(s)|
    ensures DropSlash(s[n..]) == DropSlash(s)[n..]
  {
  }

  /** A path whose lower-cased form, trailing slash aside, is `/api/products/<seg>`
      for a non-empty segment without slashes matches the `:id` pattern, and the
      parameter is that segment up to case. */
  lemma ItemPatternCatches(path: string, seg: string)
    requires seg != [] && '/' !in seg
    requires DropSlash(Lower(path)) == ItemPrefix + seg
    ensures PathMatch(WithId(ItemPrefix), path).Some?
    ensures Lower(PathMatch(WithId(ItemPrefix), path).value) == seg
  {
    var n := |ItemPrefix|;
    var low := Lower(path);
    assert DropSlash(low)[..n] == ItemPrefix;
    LowerSplit(path, n);
    LowerUnchanged(ItemPrefix);
    var param := DropSlash(path[n..]);
    LowerDropSlash(path[n..]);
    DropSlashSuffix(low, n);
    assert Lower(param) == seg;
    forall k | 0 <= k < |param|
      ensures param[k] != '/'
    {
      LowerKeepsSlash(param[k]);
      assert Lower(param)[k] == seg[k];
    }
  }

  lemma ExactPatternMisses(p: string, path: string)
    requires NoCapitals(p)
    requires DropSlash(Lower(path)) != DropSlash(p)
    ensures PathMatch(Exact(p), path).None?
  {
    LowerUnchanged(p);
  }

  /** Any request path that names a product segment is never taken by the root
      or list routes. */
  lemma ItemPathSkipsListRoutes(path: string, seg: string)
    requires seg != []
    requires DropSlash(Lower(path)) == ItemPrefix + seg
    ensures PathMatch(Routes[0].pattern, path).None?
    ensures PathMatch(Routes[1].pattern, path).None?
  {
    ExactPatternMisses("/", path);
    ExactPatternMisses(ProductsPath, path);
  }

  /** The request a GET-style route with an `:id` segment dispatches to. */
  lemma DispatchItem(verb: Verb, path: string, seg: string)
    requires verb == Get || verb == Head
    requires seg != [] && '/' !in seg
    requires DropSlash(Lower(path)) == ItemPrefix + seg
    ensures Dispatch(verb, path).Some?
    ensures Dispatch(verb, path).value.index == 2
    ensures Lower(Dispatch(verb, path).value.param) == seg
  {
    ItemPathSkipsListRoutes(path, seg);
    ItemPatternCatches(path, seg);
    assert Matches(Routes[2], verb, path);
  }

  // ---------------------------------------------------------------------------
  // The route-order quirk
  // ---------------------------------------------------------------------------

  /** The search and stats paths are `/api/products/` followed by one segment. */
  lemma ShadowedPaths()
    ensures SearchPath == ItemPrefix + "search"
    ensures StatsPath == ItemPrefix + "stats"
  {
    forall k | 0 <= k < |SearchPath|
      ensures SearchPath[k] == (ItemPrefix + "search")[k]
    {
    }
    forall k | 0 <= k < |StatsPath|
      ensures StatsPath[k] == (ItemPrefix + "stats")[k]
    {
    }
  }

  /** A GET route for `/api/products/<seg>` only matches paths that the `:id`
      route matches too. */
  lemma ShadowedBy(verb: Verb, path: string, r: Route, seg: string)
    requires r.verb == Get && r.pattern == Exact(ItemPrefix + seg)
    requires seg != [] && '/' !in seg && NoCapitals(seg)
    requires Matches(r, verb, path)
    ensures Matches(Routes[2], verb, path)
  {
    ItemPathLower(seg);
    ItemPatternCatches(path, seg);
    RouteAt2();
  }

  /** `/api/products/<seg>` is its own lower-cased form with no trailing slash. */
  lemma ItemPathLower(seg: string)
    requires seg != [] && '/' !in seg && NoCapitals(seg)
    ensures DropSlash(Lower(ItemPrefix + seg)) == ItemPrefix + seg
  {
    var full := ItemPrefix + seg;
    PrefixNoCapitals();
    assert NoCapitals(full) by {
      forall k | 0 <= k < |full|
        ensures !('A' <= full[k] <= 'Z')
      {
        if k >= |ItemPrefix| {
          assert full[k] == seg[k - |ItemPrefix|];
        }
      }
    }
    LowerUnchanged(full);
    assert full[|full| - 1] == seg[|seg| - 1];
    assert seg[|seg| - 1] in seg;
  }

  lemma PrefixNoCapitals()
    ensures NoCapitals(ItemPrefix)
  {
  }

  /** Positions 6 and 7 hold GET routes for `/api/products/search` and `/api/products/stats`. */
  lemma ShadowedRoutes()
    ensures Routes[6].verb == Get && Routes[6].pattern == Exact(ItemPrefix + "search")
    ensures Routes[7].verb == Get && Routes[7].pattern == Exact(ItemPrefix + "stats")
    ensures "search" != [] && '/' !in "search" && NoCapitals("search")
    ensures "stats" != [] && '/' !in "stats" && NoCapitals("stats")
  {
    ShadowedPaths();
  }

  /** A request dispatched to a later GET route for `/api/products/<seg>` would
      also match the `:id` route at position 2, so there is none. */
  lemma NotDispatchedTo(verb: Verb, path: string, i: int, seg: string)
    requires 2 < i < |Routes|
    requires Routes[i].verb == Get && Routes[i].pattern == Exact(ItemPrefix + seg)
    requires seg != [] && '/' !in seg && NoCapitals(seg)
    ensures Dispatch(verb, path).Some? ==> Dispatch(verb, path).value.index != i
  {
    if Matches(Routes[i], verb, path) {
      ShadowedBy(verb, path, Routes[i], seg);
    }
  }

  /** Only positions 6 and 7 hold the search and stats handlers. */
  lemma OtherHandlers(i: int)
    requires 0 <= i < |Routes| && i != 6 && i != 7
    ensures Routes[i].handler != SearchByName && Routes[i].handler != ShowStats
  {
  }

  /** The search and stats routes are registered after `/api/products/:id`, which
      matches their paths too: no request is ever dispatched to them. */
  lemma SearchAndStatsUnreachable(verb: Verb, path: string)
    ensures Dispatch(verb, path).Some? ==>
      Routes[Dispatch(verb, path).value.index].handler != SearchByName &&
      Routes[Dispatch(verb, path).value.index].handler != ShowStats
  {
    var f := Dispatch(verb, path);
    if f.Some? {
      var i := f.value.index;
      ShadowedRoutes();
      NotDispatchedTo(verb, path, 6, "search");
      NotDispatchedTo(verb, path, 7, "stats");
      OtherHandlers(i);
    }
  }

  /** A parameter that lower-cases to a word starting with a letter past 'f'
      parses to NaN. */
  lemma WordIsNaN(p: string, word: string)
    requires word == "search" || word == "stats"
    requires Lower(p) == word
    ensures ParseInt(p) == None
  {
    assert LowerChar(p[0]) == 's';
    assert p[0] == 's' || p[0] == 'S';
    assert LeadingSpace(p) == 0;
    assert p[0..] == p;
    assert DigitRun(p, 10) == 0;
  }

  /** The message get-by-id reports for an id that parsed to NaN. */
  lemma NaNMessage()
    ensures NoSuchProduct(None).message == "Product with ID NaN not found"
  {
    var m := NoSuchProduct(None).message;
    forall k | 0 <= k < |m|
      ensures m[k] == "Product with ID NaN not found"[k]
    {
    }
  }

  /** A request dispatched to the `:id` GET route is answered by get-by-id. */
  lemma ServedByGetOne(s: State, req: Request)
    requires Dispatch(req.verb, req.path).Some? && Dispatch(req.verb, req.path).value.index == 2
    ensures Respond(s, req) == Reply(Answer(GetById(s.products, Dispatch(req.verb, req.path).value.param), 200, None), s)
  {
    RouteAt2();
  }

  lemma RouteAt2()
    ensures Routes[2].gates == [] && Routes[2].handler == GetOne
    ensures Routes[2].verb == Get && Routes[2].pattern == WithId(ItemPrefix)
  {
  }

  /** GET /api/products/search and /api/products/stats answer 404 "Product with
      ID NaN not found" and change nothing. */
  lemma SearchAndStatsAnswerNotFound(s: State, req: Request)
    requires req.verb == Get || req.verb == Head
    requires DropSlash(Lower(req.path)) == SearchPath || DropSlash(Lower(req.path)) == StatsPath
    ensures Respond(s, req) == Reply(Response(404, Failure("Product with ID NaN not found", None)), s)
  {
    var seg := if DropSlash(Lower(req.path)) == SearchPath then "search" else "stats";
    assert DropSlash(Lower(req.path)) == ItemPrefix + seg by {
      ShadowedPaths();
    }
    ShadowedRoutes();
    DispatchItem(req.verb, req.path, seg);
    var param := Dispatch(req.verb, req.path).value.param;
    WordIsNaN(param, seg);
    ServedByGetOne(s, req);
    assert GetById(s.products, param) == Err(NoSuchProduct(None));
    NaNMessage();
  }

  // ---------------------------------------------------------------------------
  // Authentication, validation and writes
  // ---------------------------------------------------------------------------

  predicate Writes(v: Verb)
  {
    v == Post || v == Put || v == Delete
  }

  /** The route a request dispatches to has a writing handler exactly when the
      request's method writes. */
  lemma DispatchedRoute(verb: Verb, path: string)
    requires Dispatch(verb, path).Some?
    ensures var h := Routes[Dispatch(verb, path).value.index].handler;
      Writes(verb) <==> h in {CreateOne, UpdateOne, DeleteOne}
    ensures var r := Routes[Dispatch(verb, path).value.index];
      Writes(verb) ==> |r.gates| > 0 && r.gates[0] == AuthGate
  {
    RouteGates(Dispatch(verb, path).value.index);
  }

  /** Without the API key nothing changes; a POST, PUT or DELETE that reaches a
      route is answered 401 whatever its body, since authentication runs first. */
  lemma NoKeyNoChange(s: State, req: Request)
    requires !Authorized(req.headers)
    ensures Respond(s, req).next == s
    ensures Writes(req.verb) && Dispatch(req.verb, req.path).Some? ==>
      Respond(s, req).response == UnauthorizedResponse
  {
    var f := Dispatch(req.verb, req.path);
    if f.Some? {
      DispatchedRoute(req.verb, req.path);
      var r := Routes[f.value.index];
      if Writes(req.verb) {
        assert RunGates(r.gates, req) == Halt(UnauthorizedResponse);
      } else if RunGates(r.gates, req).Continue? {
        ReachesHandler(s, req);
        ServeReadOnly(s, r.handler, f.value.param, req);
      }
    }
  }

  /** The handlers other than create, update and delete leave the store as it was. */
  lemma ServeReadOnly(s: State, h: Handler, param: string, req: Request)
    requires h !in {CreateOne, UpdateOne, DeleteOne}
    ensures Serve(s, h, param, req).next == s
  {
  }

  /** When every middleware of the dispatched route calls next(), the route's
      handler answers, and a create or update handler sees a valid body. */
  lemma ReachesHandler(s: State, req: Request)
    requires Dispatch(req.verb, req.path).Some?
    requires RunGates(Routes[Dispatch(req.verb, req.path).value.index].gates, req).Continue?
    ensures var f := Dispatch(req.verb, req.path).value;
      var h := Routes[f.index].handler;
      && (h.CreateOne? || h.UpdateOne? ==> ValidBody(req.body))
      && Respond(s, req) == Serve(s, h, f.param, req)
  {
    var f := Dispatch(req.verb, req.path).value;
    RouteGates(f.index);
    GatesPassed(Routes[f.index].gates, req);
  }

  /** The POST and PUT routes run authentication, then validation. */
  lemma CheckedRoutes(i: int)
    requires 0 <= i < |Routes| && (Routes[i].verb == Post || Routes[i].verb == Put)
    ensures Routes[i].gates == [AuthGate, ValidateGate]
    ensures Routes[i].handler == (if Routes[i].verb == Post then CreateOne else UpdateOne)
  {
  }

  lemma AuthThenValidate(req: Request)
    requires Authorized(req.headers)
    ensures RunGates([AuthGate, ValidateGate], req) == RunGate(ValidateGate, req)
  {
    assert [AuthGate, ValidateGate][1..] == [ValidateGate];
    assert [ValidateGate][1..] == [];
    assert RunGates([ValidateGate], req) == RunGate(ValidateGate, req);
  }

  /** Create and update on a valid body never answer 400. */
  lemma WritesOnValidBody(s: State, h: Handler, param: string, req: Request)
    requires h == CreateOne || h == UpdateOne
    requires ValidBody(req.body)
    ensures Serve(s, h, param, req).response.status != 400
  {
  }

  /** With the key, a POST or PUT that reaches a route is answered 400 exactly
      when the body breaks a rule, and then with the full list of violations and
      no change to the store. */
  lemma InvalidBodyRejected(s: State, req: Request)
    requires Authorized(req.headers)
    requires req.verb == Post || req.verb == Put
    requires Dispatch(req.verb, req.path).Some?
    ensures Respond(s, req).response.status == 400 <==> !ValidBody(req.body)
    ensures !ValidBody(req.body) ==>
      && Respond(s, req) == Reply(Rejected(Violations(req.body)), s)
      && Violations(req.body) != []
  {
    var f := Dispatch(req.verb, req.path).value;
    assert Routes[f.index].verb == req.verb;
    CheckedRoutes(f.index);
    AuthThenValidate(req);
    NoViolationsIffValid(req.body);
    if ValidBody(req.body) {
      ReachesHandler(s, req);
      WritesOnValidBody(s, Routes[f.index].handler, f.param, req);
    }
  }

  /** GET, HEAD and every other method that does not write leave the store as it was. */
  lemma ReadsDoNotWrite(s: State, req: Request)
    requires !Writes(req.verb)
    ensures Respond(s, req).next == s
  {
    var f := Dispatch(req.verb, req.path);
    if f.Some? && RunGates(Routes[f.value.index].gates, req).Continue? {
      DispatchedRoute(req.verb, req.path);
      ReachesHandler(s, req);
      ServeReadOnly(s, Routes[f.value.index].handler, f.value.param, req);
    }
  }

  /** Methods no route is registered for (OPTIONS, PATCH, ...) reach the catch-all 404. */
  lemma UnknownMethodNotFound(s: State, req: Request, m: string)
    requires m !in StandardMethods && req.verb == VerbOf(m)
    ensures Respond(s, req) == Reply(Response(404, Failure("Route " + req.url + " not found", None)), s)
  {
    NoRouteServes(req.verb);
    RouteNotFoundResponse(req.url);
  }

  lemma NoRouteServes(v: Verb)
    requires v.OtherMethod?
    ensures forall j :: 0 <= j < |Routes| ==> !Serves(Routes[j].verb, v)
  {
  }

  /** The catch-all's answer: 404 with the route in the message. */
  lemma RouteNotFoundResponse(url: string)
    ensures ErrorResponse(RouteNotFound(url)) == Response(404, Failure("Route " + url + " not found", None))
  {
    assert |"Route " + url + " not found"| > 0;
  }

  // ---------------------------------------------------------------------------
  // The store across requests
  // ---------------------------------------------------------------------------

  function Ids(ps: seq<Product>): set<int>
  {
    set k | 0 <= k < |ps| :: ps[k].id
  }

  /** Every request keeps the store invariant, advances the counter by at most
      one, and leaves only products that were there before or carry the fresh id. */
  lemma RespondKeepsInvariant(s: State, req: Request)
    requires Invariant(s)
    ensures var r := Respond(s, req);
      && Invariant(r.next)
      && (r.next.nextId == s.nextId || r.next.nextId == s.nextId + 1)
      && Ids(r.next.products) <= Ids(s.products) + {s.nextId}
  {
    var f := Dispatch(req.verb, req.path);
    if f.Some? && RunGates(Routes[f.value.index].gates, req).Continue? {
      ReachesHandler(s, req);
      ServeKeepsInvariant(s, Routes[f.value.index].handler, f.value.param, req);
    }
  }

  lemma ServeKeepsInvariant(s: State, h: Handler, param: string, req: Request)
    requires Invariant(s)
    requires h.CreateOne? || h.UpdateOne? ==> ValidBody(req.body)
    ensures var next := Serve(s, h, param, req).next;
      && Invariant(next)
      && (next.nextId == s.nextId || next.nextId == s.nextId + 1)
      && Ids(next.products) <= Ids(s.products) + {s.nextId}
  {
    match h
    case CreateOne => CreateKeepsIds(s, req.body);
    case UpdateOne => UpdateKeepsIds(s, param, req.body);
    case DeleteOne => DeleteKeepsIds(s, param);
    case _ => ServeReadOnly(s, h, param, req);
  }

  lemma CreateKeepsIds(s: State, body: Body)
    requires Invariant(s) && ValidBody(body)
    ensures var e := Created(s, body);
      && Invariant(e.next)
      && e.next.nextId == s.nextId + 1
      && Ids(e.next.products) <= Ids(s.products) + {s.nextId}
  {
    CreatePreservesInvariant(s, body);
    var ps := Created(s, body).next.products;
    forall i | i in Ids(ps)
      ensures i in Ids(s.products) + {s.nextId}
    {
      var k :| 0 <= k < |ps| && ps[k].id == i;
      if k < |s.products| {
        assert ps[k] == s.products[k];
      }
    }
  }

  lemma UpdateKeepsIds(s: State, idParam: string, body: Body)
    requires Invariant(s) && ValidBody(body)
    ensures var e := Updated(s, idParam, body);
      && Invariant(e.next)
      && e.next.nextId == s.nextId
      && Ids(e.next.products) <= Ids(s.products)
  {
    UpdateSpec(s, idParam, body);
    var e := Updated(s, idParam, body);
    var ps := e.next.products;
    forall i | i in Ids(ps)
      ensures i in Ids(s.products)
    {
      var k :| 0 <= k < |ps| && ps[k].id == i;
      assert ps[k].id == s.products[k].id;
    }
  }

  lemma DeleteKeepsIds(s: State, idParam: string)
    requires Invariant(s)
    ensures var e := Deleted(s, idParam);
      && Invariant(e.next)
      && e.next.nextId == s.nextId
      && Ids(e.next.products) <= Ids(s.products)
  {
    DeleteSpec(s, idParam);
    var e := Deleted(s, idParam);
    var ps := e.next.products;
    var k := IndexOfId(s.products, ParseInt(idParam));
    forall i | i in Ids(ps)
      ensures i in Ids(s.products)
    {
      var j :| 0 <= j < |ps| && ps[j].id == i;
      if e.result.Ok? && j >= k {
        assert ps[j] == s.products[j + 1];
      }
    }
  }

  /** A middleware that ends the request answers 401 or 400. */
  lemma {:induction false} HaltStatus(gs: seq<Gate>, req: Request)
    requires RunGates(gs, req).Halt?
    ensures RunGates(gs, req).response.status == 401 || RunGates(gs, req).response.status == 400
  {
    if RunGate(gs[0], req).Continue? {
      HaltStatus(gs[1..], req);
    }
  }

  /** What a handler's status says about the store it leaves. */
  lemma ServeStatus(s: State, h: Handler, param: string, req: Request)
    requires h.CreateOne? || h.UpdateOne? ==> ValidBody(req.body)
    ensures var r := Serve(s, h, param, req);
      r.response.status in {200, 201, 400, 404, 500}
    ensures var r := Serve(s, h, param, req);
      r.response.status >= 400 ==> r.next.products == s.products
    ensures var r := Serve(s, h, param, req);
      r.response.status == 201 ==>
        && r.response.payload.ProductPayload?
        && r.next.products == s.products + [r.response.payload.product]
        && r.response.payload.product.id == s.nextId
        && r.response.payload.message == Some(CreatedMessage)
  {
  }

  /** Status codes and what they say about the store: an error response leaves
      the products as they were, and 201 means one product was appended with the
      counter's id. */
  lemma StatusAndEffect(s: State, req: Request)
    ensures var r := Respond(s, req);
      r.response.status in {200, 201, 400, 401, 404, 500}
    ensures var r := Respond(s, req);
      r.response.status >= 400 ==> r.next.products == s.products
    ensures var r := Respond(s, req);
      r.response.status == 201 ==>
        && r.response.payload.ProductPayload?
        && r.next.products == s.products + [r.response.payload.product]
        && r.response.payload.product.id == s.nextId
        && r.response.payload.message == Some(CreatedMessage)
  {
    var d := Dispatch(req.verb, req.path);
    if d.Some? {
      var f := d.value;
      var gates := Routes[f.index].gates;
      if RunGates(gates, req).Continue? {
        ReachesHandler(s, req);
        ServeStatus(s, Routes[f.index].handler, f.param, req);
      } else {
        HaltStatus(gates, req);
      }
    }
  }

  /** IntToString produces only digits and a leading minus sign. */
  lemma IntToStringChars(n: int)
    ensures IntToString(n) != []
    ensures NoCapitals(IntToString(n)) && '/' !in IntToString(n)
    ensures IntToString(n)[|IntToString(n)| - 1] != '/'
  {
    var t := IntToString(n);
    assert forall k :: 0 <= k < |t| ==> t[k] == '-' || '0' <= t[k] <= '9';
  }

  /** POST /api/products dispatches to the create route. */
  lemma PostDispatch(path: string)
    requires path == ProductsPath
    ensures Dispatch(Post, path) == Some(Found(3, ""))
  {
    RouteAt3();
    assert Matches(Routes[3], Post, path);
  }

  lemma RouteAt3()
    ensures Routes[0].verb == Get && Routes[1].verb == Get && Routes[2].verb == Get
    ensures Routes[3] == Route(Post, Exact(ProductsPath), [AuthGate, ValidateGate], CreateOne)
  {
  }

  /** A 201 answer to POST /api/products is the product create built. */
  lemma CreateAnswer(s: State, post: Request)
    requires post.verb == Post && post.path == ProductsPath
    requires Respond(s, post).response.status == 201
    ensures ValidBody(post.body)
    ensures Created(s, post.body).result.Ok?
    ensures Respond(s, post) ==
      Reply(Response(201, ProductPayload(Some(CreatedMessage), Created(s, post.body).result.value)), Created(s, post.body).next)
  {
    var gates := [AuthGate, ValidateGate];
    CreateRoute(s, post);
    if RunGates(gates, post).Halt? {
      HaltStatus(gates, post);
    } else {
      CreateServed(s, post);
    }
  }

  /** The create handler answers 201 exactly when it stored the product. */
  lemma CreateServed(s: State, req: Request)
    requires ValidBody(req.body)
    ensures var e := Created(s, req.body);
      Serve(s, CreateOne, "", req) ==
        if e.result.Ok? then Reply(Response(201, ProductPayload(Some(CreatedMessage), e.result.value)), e.next)
        else Reply(ErrorResponse(e.result.error), e.next)
    ensures Created(s, req.body).result.Err? ==> Serve(s, CreateOne, "", req).response.status != 201
  {
  }

  /** POST /api/products runs authentication and validation, then create. */
  lemma CreateRoute(s: State, post: Request)
    requires post.verb == Post && post.path == ProductsPath
    ensures var gates := [AuthGate, ValidateGate];
      && (RunGates(gates, post).Halt? ==> Respond(s, post) == Reply(RunGates(gates, post).response, s))
      && (RunGates(gates, post).Continue? ==>
            ValidBody(post.body) && Respond(s, post) == Serve(s, CreateOne, "", post))
  {
    PostDispatch(post.path);
    RouteAt3();
    if RunGates(Routes[3].gates, post).Continue? {
      ReachesHandler(s, post);
    }
  }

  /** A path `/api/products/<seg>` dispatches to the `:id` GET route with seg as parameter. */
  lemma ItemPathDispatch(path: string, seg: string)
    requires seg != [] && '/' !in seg && NoCapitals(seg)
    requires path == ItemPrefix + seg
    ensures Dispatch(Get, path) == Some(Found(2, seg))
  {
    ItemPathLower(seg);
    DispatchItem(Get, path, seg);
    RouteAt2();
    assert path[|ItemPrefix|..] == seg;
    assert seg[|seg| - 1] in seg;
  }

  /** A product created by POST /api/products is served by GET
      /api/products/<its id> on the store the POST left behind. */
  lemma CreatedProductIsServed(s: State, post: Request, p: Product, get: Request)
    requires Invariant(s)
    requires post.verb == Post && post.path == ProductsPath
    requires Respond(s, post).response == Response(201, ProductPayload(Some(CreatedMessage), p))
    requires get.verb == Get && get.path == ItemPrefix + IntToString(p.id)
    ensures Respond(Respond(s, post).next, get).response == Response(200, ProductPayload(None, p))
  {
    CreateAnswer(s, post);
    var e := Created(s, post.body);
    CreateThenGet(s, post.body);
    IntToStringChars(p.id);
    ItemPathDispatch(get.path, IntToString(p.id));
    ServedByGetOne(e.next, get);
  }
}
