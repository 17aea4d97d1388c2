# Product service: a verified model

`server.js` is a small Express application. It serves an in-memory list of
products over HTTP. The module-level array `products` is seeded with five
records, and the counter `nextId` starts at 6. On top of the store sit:

- `authMiddleware`, which checks the `x-api-key` header;
- `validateProduct`, which collects every rule a request body breaks;
- create, update, delete and get-by-id handlers;
- three read-only query handlers: a category-filtered, paginated list, a
  name search and a statistics summary;
- a catch-all 404 middleware and a global error handler. The error handler
  turns the typed errors (`NotFoundError`, `ValidationError`,
  `AuthenticationError`) into their status codes and anything else into 500.

The Dafny project models that core:

| file | module | contents |
|---|---|---|
| `js_text.dfy` | `JsText` | the JavaScript operations the handlers rely on: `trim` (full WhiteSpace/LineTerminator set), ASCII `toLowerCase`, `includes`, `parseInt` (with `None` standing for `NaN`), number-to-string, and `Array.prototype.slice` with relative indices |
| `catalog.dfy` | `Catalog` | JSON body values with JavaScript truthiness, the product record, the error classes, `filter` and `findIndex` by id |
| `validation.dfy` | `Validation` | the four validation rules, the reference definition of the reported `details` list, and the push-based `ValidateProduct` method |
| `store.dfy` | `Store` | the store state; pure specifications of get, create, update and delete with their lemmas; the class `ProductStore`, whose methods mutate `products` and `nextId` in place and are proved equal to those specifications |
| `queries.dfy` | `Queries` | list (category filter, parseInt of page/limit, slice, metadata), search and stats; `ComputeStats` is the `forEach` loop over the store |
| `pipeline.dfy` | `Pipeline` | requests and responses, the error handler, the middleware gates, the route table in registration order, first-match dispatch, and the pure `Respond` specification of the whole application. `Handle` runs the same pipeline against a `ProductStore` |
| `pipeline_properties.dfy` | `PipelineProperties` | end-to-end properties: auth before validation, keyless requests change nothing, reads never write, invariant preservation, status codes, the search/stats shadowing, and create-then-get |
| `scenarios.dfy` | `Scenarios` | concrete facts about the seed store: get id 3, the stats summary, the second page of two |

The store invariant, `Store.Invariant`, has three parts:

- ids are unique;
- every id is below `nextId`;
- every stored product has trimmed strings, a non-empty name and category, and a non-negative price.

`ProductStore` also keeps a ghost set `issued` holding every id ever handed out. Every stored id is in it, and `nextId` is above all of it. So an id that was deleted is never issued again.

Routing follows Express 4:

- Matching is case-insensitive.
- One trailing slash is ignored.
- An `:id` parameter is one non-empty segment.
- A GET route also answers HEAD.
- A method that no route registers falls through to the catch-all 404.

The route table keeps the source's registration order. So `GET /api/products/:id` (line 211) comes before `GET /api/products/search` (line 297) and `GET /api/products/stats` (line 317). The model reproduces what follows from that:

- Both paths are caught by the id route.
- `parseInt("search")` and `parseInt("stats")` are `NaN`.
- Both requests therefore answer `404 "Product with ID NaN not found"`.
- The search and stats handlers are unreachable over HTTP (`PipelineProperties.SearchAndStatsUnreachable`).

They are still modelled and proved as functions, because the source defines them.

Some of the code's behaviour differs from what a reader of the routes would expect. The model follows the code:

- **Update is not a partial update.** `validateProduct` runs on PUT too, so name, price and category are required. They are always overwritten. `inStock` keeps its old value when absent. `description` keeps its old value when it is falsy: absent, `null`, `0`, `false` or `""`. A truthy description that is not a string makes `description.trim()` throw a TypeError, which the error handler answers with 500.
- **Pagination does not clamp.** It uses `parseInt` and `slice` as written:
  - a non-numeric `page` or `limit` gives `NaN`;
  - `NaN` indices act as 0;
  - negative indices count from the end;
  - `totalPages` is `null` when `limit` is zero or `NaN`.

  `Queries.PageWindow` states the window for `page, limit >= 1`.
- **Search and stats are shadowed.** They are unreachable, as described above.
- **Averages are not rounded.** The stats figures are exact sums and quotients (see "Left out").

## Model

The operations themselves are defined by functions whose properties are stated by the lemmas in the table:

- `Store.GetById`, `Store.Created`, `Store.Updated` and `Store.Deleted` model the handlers at server.js:211-223, 226-245, 248-272 and 275-290. Their lemmas are `GetByIdSpec`, `CreatePreservesInvariant`, `UpdateSpec` and `DeleteSpec`.
- `Queries.ListProducts`, `Queries.Paginate` and `Queries.TotalPages` model server.js:179-206. Their lemmas are `InCategorySpec`, `PageWindow`, `PageNonEmptyIff`, `TotalPagesSpec` and `DefaultListing`.
- `Queries.Search` models server.js:297-313; see `SearchSpec`.
- `Queries.StatsOf` and `Queries.Breakdown` model server.js:317-346; see `StatsTotals`, `StatsAverage` and `StatsBreakdown`.
- `Pipeline.PathMatch` models Express's path matching of the routes at server.js:161-317; see `ItemPatternCatches` and `ExactPatternMisses`.
- `Pipeline.Respond` models the whole application at server.js:161-369; see the `PipelineProperties` rows.
- `JsText.ParseInt` models the `parseInt` calls at server.js:191-192, 212, 249 and 276; see `DigitRun`, `DigitRunAll` and `ParseIntRoundTrip`.
- `JsText.Slice` models the `slice` call at server.js:196; see `RelativeIndex` and `PageWindow`.

| member | source | states |
|---|---|---|
| JsText.Trim | server.js:44 | the trimmed string has no whitespace at either edge |
| JsText.TrimFramed | server.js:231-234 | trim removes exactly a run of leading and a run of trailing whitespace: the result is a contiguous slice of the input framed by whitespace only |
| JsText.TrimEmptyIff | server.js:44 | `s.trim().length === 0` exactly when every character of s is whitespace |
| JsText.TrimUnpadded | server.js:231 | a string without edge whitespace is returned unchanged by trim |
| JsText.TrimIdempotent | server.js:231-234 | trimming twice is trimming once |
| JsText.LowerIdempotent | server.js:186 | a lower-cased string contains no ASCII capital, so lower-casing it a second time changes nothing |
| JsText.LowerKeepsSlash | server.js:186 | lower-casing never creates or removes a '/' |
| JsText.IncludesIff | server.js:305 | `includes` holds exactly when the query occurs at some position of the string |
| JsText.NatToString | server.js:216 | the decimal rendering is non-empty, all digits, and has no leading zero except for 0 itself |
| JsText.NatToStringValue | server.js:216 | the digits of the rendering denote the number |
| JsText.ParseUnsignedDecimal | server.js:212 | parsing the digits of a natural number gives that number |
| JsText.ParseIntRoundTrip | server.js:212 | parseInt reads the decimal rendering of an integer back as that integer, for integers of unbounded size (the double range limits are listed under "Left out") |
| JsText.DigitRun | server.js:191-192 | parseInt reads the longest prefix of digits of the radix, and stops at the first non-digit |
| JsText.DigitRunAll | server.js:212 | a string made only of digits is read to its end |
| JsText.RelativeIndex | server.js:196 | a slice bound (negative counting from the end, NaN as 0) always lands within the array |
| Catalog.Filter | server.js:185-187 | filter keeps only elements the predicate accepts and never lengthens the array |
| Catalog.FilterMembers | server.js:185-187 | an element is in the filtered array exactly when it is in the array and the predicate accepts it |
| Catalog.FilterSnoc | server.js:320-321 | filtering an array with one more element at the end adds that element exactly when it is accepted, after the others in order |
| Catalog.IndexOfId | server.js:250 | findIndex returns the first position holding the id, or -1 exactly when no product holds it |
| Catalog.IndexOfUniqueId | server.js:213 | with unique ids, the lookup of a stored product's id finds that product's own position |
| Validation.BrokenAmongMembers | server.js:44-58 | the broken-rule list holds exactly the listed rules the body breaks |
| Validation.BrokenAmongFour | server.js:44-58 | over four rules, the broken-rule list is each rule's own verdict concatenated in order |
| Validation.BrokenRulesUnfold | server.js:44-58 | the broken rules are checked in the order name, price, category, inStock, independently of each other |
| Validation.MessagesAppend | server.js:42-58 | the messages of two rule lists in sequence are the two message lists concatenated |
| Validation.ViolationsAreBrokenRules | server.js:42-58 | the `details` list is the messages of exactly the broken rules, in checking order (every violation, not only the first) |
| Validation.MessagesDistinct | server.js:45-57 | the four messages are pairwise different |
| Validation.ReportHas | server.js:44-58 | a single check reports a rule's message exactly when it is that rule and the body breaks it |
| Validation.ViolationReportedIff | server.js:44-58 | each rule's message is in `details` exactly when the body breaks that rule |
| Validation.NoViolationsIffValid | server.js:60-68 | the middleware passes the request on exactly when `details` is empty, which is exactly when all four rules hold |
| Validation.ValidBodyFields | server.js:44-58 | a body that passed has a non-blank string name and category, a non-negative number price, and a boolean or absent inStock |
| Validation.ValidateProduct | server.js:40-69 | the method's pushes build exactly the reference `details` list, which is empty exactly for a valid body |
| Store.SeedInvariant | server.js:111-154 | the seed store (five products, nextId 6) satisfies the store invariant |
| Store.SeedIds | server.js:111-152 | the seed products have ids 1 to 5 in order |
| Store.SeedWellFormed | server.js:111-152 | every seed product has trimmed strings and a non-negative price |
| Store.SeedProductWellFormed | server.js:111-152 | a product whose strings start and end with a letter and whose price is non-negative is well formed |
| Store.GetByIdSpec | server.js:211-217 | get-by-id succeeds exactly when some stored product has the parsed id, returns a stored product with that id, and otherwise fails with "Product with ID <id> not found" |
| Store.CreatePreservesInvariant | server.js:226-238 | create keeps the invariant and increments nextId; it succeeds exactly when description is absent or a string; on success it appends one product with id = old nextId (above every stored id) and leaves earlier products untouched; on failure the array is unchanged |
| Store.CreatedWellFormed | server.js:229-236 | a created product has trimmed strings and a non-negative price |
| Store.AppendKeepsInvariant | server.js:238 | pushing a well-formed product whose id is nextId, then bumping nextId, keeps the invariant |
| Store.CreatedFields | server.js:227-236 | name, description and category are trimmed; description defaults to "" and inStock to true; price is taken as given |
| Store.CreateThenGet | server.js:211-245 | after a successful create, getting the new id returns exactly the created product |
| Store.UpdateSpec | server.js:248-265 | update keeps the invariant, nextId and the length; a missing id gives NotFound with no change; for an existing id it fails exactly when the description is truthy but not a string, with the trim TypeError and no change; on success the product keeps its id and position, name/price/category are overwritten (trimmed), a falsy description keeps the old one, an absent inStock keeps the old one, and every other product is unchanged |
| Store.RevisedFields | server.js:258-265 | the rewritten product is well formed, keeps its id, and takes each field as the update rules say |
| Store.ReplaceKeepsInvariant | server.js:258 | replacing a product in place by a well-formed one with the same id keeps the invariant |
| Store.DeleteSpec | server.js:275-283 | delete keeps the invariant and nextId; it fails exactly when no product has the id, then with NotFound and no change; on success it returns the matching product, shrinks the array by one and keeps the others in their relative order |
| Store.RemoveKeepsInvariant | server.js:283 | splicing out one position keeps the invariant and shifts the later products down by one |
| Store.DeleteThenGet | server.js:211-283 | after a delete, the same id is no longer found |
| Store.RemovedIdAbsent | server.js:283 | with unique ids, no product with the removed id remains |
| Store.IssueCovers | server.js:230 | issuing nextId and incrementing it keeps every issued id below the counter |
| Store.AppendCovers | server.js:238 | appending a product with an issued id keeps every stored id issued |
| Store.ReplaceCovers | server.js:258 | an in-place replacement with the same id keeps every stored id issued |
| Store.RemoveCovers | server.js:283 | splicing keeps every remaining stored id issued |
| Store.DeletedIdNotReissued | server.js:226-290 | a product created after a delete never gets the deleted product's id |
| Store.ProductStore.constructor | server.js:111-154 | the new store is the seed state, its invariant holds, and ids 1 to 5 count as issued |
| Store.ProductStore.Create | server.js:226-245 | the in-place `nextId++` and `push` produce exactly the created state and result, keep the invariant, add the old nextId to the issued ids, and never hand out an id issued before |
| Store.ProductStore.Update | server.js:248-272 | the in-place index assignment produces exactly the updated state and result, keeps the invariant, and issues no id |
| Store.ProductStore.Delete | server.js:275-290 | the in-place splice produces exactly the deleted state and result, keeps the invariant, and issues no id |
| Queries.InCategorySpec | server.js:184-188 | with a non-empty category the list holds exactly the products whose lower-cased category equals the lower-cased query; with no or an empty category it is the whole store |
| Queries.CeilDivSpec | server.js:205 | totalPages is the least number of pages of size limit that cover the total |
| Queries.TotalPagesSpec | server.js:193-205 | totalPages is null exactly when limit is NaN or 0; for any other limit it is the ceiling t of total / limit, that is t - 1 < total / limit <= t, for positive and for negative limits |
| Queries.PageWindow | server.js:191-206 | for page, limit >= 1 the data is the filtered array from (page-1)*limit to page*limit, clipped to its length, and the metadata is page, limit, the filtered length and ceil(total/limit) |
| Queries.PageNonEmptyIff | server.js:193-196 | a page is non-empty exactly when it is at most totalPages, and every page before the last is full |
| Queries.DefaultListing | server.js:179-206 | without query parameters, the list is the first ten products, page 1, limit 10 |
| Queries.SearchSpec | server.js:297-313 | search fails with 400 "Search query parameter \"q\" is required" exactly when q is missing or empty; otherwise it echoes q, counts the results, and returns exactly the products whose lower-cased name contains lower-cased q |
| Queries.BumpCount | server.js:329-332 | one breakdown step raises that category's count by one and no other |
| Queries.BumpSum | server.js:329-332 | one breakdown step raises the total of the counts by one |
| Queries.IncrementSpec | server.js:332 | incrementing an existing key raises that key's count by one, raises the total by one, and keeps the keys and their order |
| Queries.BumpCategories | server.js:329-332 | one breakdown step keeps the keys when the category is already one; otherwise it inserts the category at its slot, which is before the first key it precedes in JavaScript's property order |
| Queries.BumpAppends | server.js:329-330 | a new category that is not an array index becomes the last key |
| Queries.SlotPlace | server.js:330 | a new key that is not an array index goes after every existing key; a new array index goes after array indices only |
| Queries.CanonicalDigits | server.js:330 | a digit string without a leading zero is the decimal rendering of its value, so array-index keys are canonical numeric strings |
| Queries.DistinctIndexValues | server.js:330 | two different array-index keys have different numeric values |
| Queries.InsertIndicesFirst | server.js:330 | inserting a new key at its slot keeps the array-index keys first and in ascending numeric order |
| Queries.InsertDistinct | server.js:330 | inserting a key that is not yet present keeps the keys distinct |
| Queries.KeyOrderSnoc | server.js:328-333 | visiting a product whose category is already a key keeps the key order |
| Queries.KeyOrderInsert | server.js:328-333 | visiting a product with a new category keeps the key order: indices first and ascending, other keys in order of first occurrence |
| Queries.BreakdownCounts | server.js:328-333 | each category's breakdown count is the number of products in that category |
| Queries.BreakdownSum | server.js:328-333 | the breakdown counts add up to the number of products |
| Queries.BreakdownKeys | server.js:328-333 | the breakdown keys are distinct, are exactly the categories that occur in the store, and are listed in JavaScript's property order: array-index categories first in ascending numeric order, then the others in order of first occurrence |
| Queries.StockCountsAddUp | server.js:320-321 | in-stock and out-of-stock counts add up to the number of products |
| Queries.StatsTotals | server.js:318-325 | totalProducts is the store length, inStockCount + outOfStockCount = totalProducts, and on an empty store both price figures stay 0 |
| Queries.StatsAverage | server.js:336-340 | on a non-empty store totalValue is the price sum and averagePrice is that sum over the count; both are non-negative |
| Queries.TotalPriceNonNegative | server.js:337 | the price sum of non-negative prices is non-negative |
| Queries.StatsBreakdown | server.js:317-346 | the stats breakdown sums to totalProducts, has distinct keys, has exactly the store's categories as keys in JavaScript's property order, and counts each category correctly |
| Queries.ComputeStats | server.js:317-346 | the loop over the products computes exactly the stats summary |
| Pipeline.ErrorResponse | server.js:358-369 | the error handler answers with the typed error's statusCode (404, 400, 401) and 500 exactly for other errors; the body carries the error's message, or "Internal Server Error" when the message is empty |
| Pipeline.VerbOf | server.js:161-290 | a method token is an OtherMethod exactly when it is none of GET, HEAD, POST, PUT and DELETE, and then keeps its own name |
| Pipeline.AuthorizedIff | server.js:26-37 | a request passes auth exactly when it has an `x-api-key` header equal to "your-secret-api-key" |
| Pipeline.RunGatesSpec | server.js:226 | a middleware chain passes exactly when every stage passes; when it halts, the answer is that of the first stage that halted, after all earlier stages passed |
| Pipeline.GatesPassed | server.js:26-69 | a chain that passed auth had the key, and one that passed validation had a valid body |
| Pipeline.RunMiddleware | server.js:226 | running the stages one after another gives the chain's outcome |
| Pipeline.FindRoute | server.js:161-355 | dispatch picks the first route in registration order whose method and path match, and returns none exactly when no route matches |
| Pipeline.RouteGates | server.js:226-275 | every writing route starts with auth, create and update also validate, and exactly the POST/PUT/DELETE routes write |
| Pipeline.Handle | server.js:178-369 | the application running against the store object gives exactly the response and new store of the specification, keeps the store invariant, and never forgets an issued id |
| Pipeline.Apply | server.js:211-346 | each handler run against the store object gives exactly the specified response and new store, keeps the store invariant, and never forgets an issued id |
| PipelineProperties.LowerUnchanged | server.js:186 | lower-casing a string without capitals leaves it unchanged |
| PipelineProperties.LowerSplit | server.js:186 | lower-casing commutes with taking a prefix or a suffix |
| PipelineProperties.LowerDropSlash | server.js:211 | lower-casing commutes with dropping one trailing slash |
| PipelineProperties.DropSlashSuffix | server.js:211 | dropping a trailing slash commutes with taking a suffix |
| PipelineProperties.ItemPatternCatches | server.js:211 | any path of the form /api/products/<segment> matches the `:id` pattern, with that segment as parameter |
| PipelineProperties.ExactPatternMisses | server.js:178 | a path that differs from a literal route (ignoring case and one trailing slash) does not match it |
| PipelineProperties.ItemPathSkipsListRoutes | server.js:161-178 | a /api/products/<segment> path matches neither the root nor the list route |
| PipelineProperties.DispatchItem | server.js:211 | a GET or HEAD of /api/products/<segment> is dispatched to the get-by-id route |
| PipelineProperties.ShadowedPaths | server.js:297-317 | the search and stats paths are /api/products/ followed by one segment |
| PipelineProperties.ShadowedBy | server.js:211-317 | every request a later GET route for /api/products/<segment> would match is also matched by the earlier `:id` route |
| PipelineProperties.ItemPathLower | server.js:211 | a lower-case /api/products/<segment> path is its own normalised form |
| PipelineProperties.PrefixNoCapitals | server.js:211 | the products prefix has no capitals |
| PipelineProperties.ShadowedRoutes | server.js:297-317 | the search and stats routes are GET routes for /api/products/search and /api/products/stats |
| PipelineProperties.NotDispatchedTo | server.js:211-317 | no request is dispatched to a GET route for /api/products/<segment> registered after the `:id` route |
| PipelineProperties.OtherHandlers | server.js:161-290 | only the routes registered for search and stats run those handlers |
| PipelineProperties.SearchAndStatsUnreachable | server.js:211-317 | no request reaches the search handler or the stats handler |
| PipelineProperties.WordIsNaN | server.js:212 | parseInt of "search" or "stats", in any case, is NaN |
| PipelineProperties.NaNMessage | server.js:216 | the not-found message for a NaN id reads "Product with ID NaN not found" |
| PipelineProperties.ServedByGetOne | server.js:211-223 | a request dispatched to the id route is answered by get-by-id on its parameter and leaves the store unchanged |
| PipelineProperties.RouteAt2 | server.js:211 | the third registered route is the ungated GET `:id` route |
| PipelineProperties.SearchAndStatsAnswerNotFound | server.js:211-317 | GET or HEAD on /api/products/search or /api/products/stats answers 404 "Product with ID NaN not found" and changes nothing |
| PipelineProperties.DispatchedRoute | server.js:226-275 | a request reaches a writing handler exactly when its method is POST, PUT or DELETE, and such a route begins with auth |
| PipelineProperties.NoKeyNoChange | server.js:26-37 | a request without the right key never changes the store, and every write it aims at a route answers 401 |
| PipelineProperties.ServeReadOnly | server.js:161-346 | the root, list, get, search and stats handlers leave the store unchanged |
| PipelineProperties.ReachesHandler | server.js:226-275 | when the matched route's middleware passes, the application's answer is that route handler's answer |
| PipelineProperties.CheckedRoutes | server.js:226-248 | POST and PUT routes run auth then validation, and lead to create and update |
| PipelineProperties.AuthThenValidate | server.js:226 | with the key, the auth-then-validate chain has the outcome of validation alone |
| PipelineProperties.WritesOnValidBody | server.js:226-272 | create and update never answer 400 on a valid body |
| PipelineProperties.InvalidBodyRejected | server.js:60-66 | an authorised POST or PUT that reaches a route answers 400 exactly when the body is invalid, and then with "Validation failed", the full non-empty `details` list, and no change |
| PipelineProperties.ReadsDoNotWrite | server.js:178-346 | a GET, HEAD or unregistered-method request never changes the store |
| PipelineProperties.UnknownMethodNotFound | server.js:353-355 | a request whose method is none of GET, HEAD, POST, PUT and DELETE answers 404 "Route <url> not found" and changes nothing |
| PipelineProperties.NoRouteServes | server.js:161-317 | no route serves a method other than GET, HEAD, POST, PUT and DELETE |
| PipelineProperties.RouteNotFoundResponse | server.js:353-369 | the catch-all error becomes a 404 whose message is "Route <url> not found" |
| PipelineProperties.RespondKeepsInvariant | server.js:178-369 | every request keeps the store invariant, moves nextId by at most one, and leaves only ids that were stored or equal to the old nextId |
| PipelineProperties.ServeKeepsInvariant | server.js:178-346 | every handler keeps the store invariant and introduces no id other than the old nextId |
| PipelineProperties.CreateKeepsIds | server.js:226-245 | create keeps the invariant, advances nextId by one, and introduces at most the old nextId |
| PipelineProperties.UpdateKeepsIds | server.js:248-272 | update keeps the invariant and nextId and introduces no id |
| PipelineProperties.DeleteKeepsIds | server.js:275-290 | delete keeps the invariant and nextId and introduces no id |
| PipelineProperties.HaltStatus | server.js:30-66 | a middleware chain that halts answers 401 or 400 |
| PipelineProperties.ServeStatus | server.js:178-369 | a handler answers 200, 201, 400, 404 or 500; an error status leaves the array unchanged; 201 means exactly one product with the old nextId was appended and returned with "Product created successfully" |
| PipelineProperties.StatusAndEffect | server.js:26-369 | every response is 200, 201, 400, 401, 404 or 500; an error status leaves the array unchanged; a 201 appended exactly the returned product with id = old nextId |
| PipelineProperties.IntToStringChars | server.js:216 | a rendered integer is non-empty and has no capitals and no '/' |
| PipelineProperties.PostDispatch | server.js:226 | POST /api/products is dispatched to the create route |
| PipelineProperties.RouteAt3 | server.js:226 | the first three routes are GET routes and the fourth is POST /api/products with auth and validation before create |
| PipelineProperties.CreateAnswer | server.js:226-245 | a 201 to POST /api/products means the body was valid, creation succeeded, and the answer carries the created product and the created state |
| PipelineProperties.CreateServed | server.js:226-245 | the create handler answers 201 with the new product, or the error handler's answer with no 201 |
| PipelineProperties.CreateRoute | server.js:226 | POST /api/products answers the middleware's halt with no change, or otherwise runs create on a valid body |
| PipelineProperties.ItemPathDispatch | server.js:211 | GET /api/products/<lower-case segment> is dispatched to the id route with that segment |
| PipelineProperties.CreatedProductIsServed | server.js:211-245 | after POST /api/products answers 201 with a product, GET /api/products/<its id> answers 200 with the same product |
| Scenarios.SeedGet | server.js:211-223 | on the seed store, get-by-id "3" returns the third seed product, "Office Chair" |
| Scenarios.SeedStats | server.js:317-346 | on the seed store the stats are 5 products, 4 in stock, 1 out of stock, Electronics 3 and Furniture 2, average 375.19 and total 1875.95 |
| Scenarios.SeedBreakdown | server.js:328-333 | on the seed store the breakdown is Electronics 3 then Furniture 2 |
| Scenarios.StockCounts | server.js:320-321 | on the seed store 4 products are in stock and 1 is not |
| Scenarios.SeedPage | server.js:178-208 | on the seed store page 2 with limit 2 holds the third and fourth products, with total 5 and 3 pages |

## Left out

- Console logging and its timestamps, and the startup banner of `app.listen`. They are output only, with no behaviour to state.
- `express.json()` and the Express framework itself. Requests arrive already parsed into method, path, URL, headers, query and body, and routing is modelled on Express 4's documented matching.
- The `asyncHandler` Promise wrapper. Handlers are synchronous functions whose errors are `Result` values, and these reach the error handler just as a rejected promise would.
- Queries.StatsOf: `averagePrice` and `totalValue` are exact reals, not the two-decimal strings that `toFixed(2)` produces. Rounding and string formatting of floating-point numbers are not modelled.
- Queries.ComputeStats: the same holds, because it is proved equal to `StatsOf`.
- Scenarios.SeedStats: the same holds. It states the exact sum and average of the seed prices, 1875.95 and 375.19, not the strings that `toFixed(2)` would render.
- Prices are exact reals rather than IEEE doubles. Sums and quotients carry no rounding error.
- JsText.ParseIntRoundTrip: holds for every mathematical integer, but in JavaScript only below 2^53 in magnitude and below 1e21. Above 2^53 the double rounds. From 1e21 `String(n)` uses exponent notation, and parseInt stops at the "e".
- JsText.ParseInt, JsText.IntToString, JsText.ShowNumber: integers are unbounded. They do not round to doubles above 2^53: 9007199254740993 parses and prints as ...993, not ...992. They do not use exponent notation from 1e21: 1e21 prints as digits, not "1e+21".
- Store.ProductStore.Create: `nextId++` is unbounded. In JavaScript the counter stops advancing at 2^53, after which ids would repeat. No realistic run gets there.
- `toLowerCase` only maps ASCII capitals. Locale-independent Unicode case mapping is outside the model.
- URL decoding of path parameters and query values is not modelled. A repeated query key, which Express delivers as an array, is not modelled either: each query value is a single string. A repeated header needs no extra modelling. Node joins the values of a repeated `x-api-key` into one string separated by ", ", and the string-valued header map represents that, so such a request answers 401.
- The category breakdown is a list of (category, count) pairs in the order JavaScript lists an object's own keys. Keys that collide with `Object.prototype` members, such as "constructor" or "__proto__", are not modelled.
- The `stack` field that the error handler adds when `NODE_ENV` is "development". It depends on the environment.
- The fields of the root descriptor at `/`. It is modelled as one constant `Welcome` payload.
- The empty body of HEAD responses. A HEAD request gets the response of the matching GET route.
- The TypeError that `description.trim()` raises on a non-string. The model keeps the failure, which gives status 500. Its message follows V8's wording, which depends on the JavaScript engine.
- A search scenario on the seed store. Search is unreachable over HTTP, and `Queries.SearchSpec` states its behaviour for all inputs.
