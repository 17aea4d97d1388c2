/** The in-memory product store: the ordered `products` array and the `nextId`
    counter, the get/create/update/delete operations on them, and the
    invariant they keep (unique ids, all below the counter). */
module Store {
  import opened JsText
  import opened Catalog
  import opened Validation

  /** The abstract value of the store. */
  datatype State = State(products: seq<Product>, nextId: int)

  /** What create and update leave in a stored product: a non-negative price and
      name, category and description without surrounding whitespace, name and
      category not empty. */
  predicate WellFormed(p: Product)
  {
    && p.price >= 0.0
    && p.name != "" && NoEdgeSpace(p.name)
    && p.category != "" && NoEdgeSpace(p.category)
    && NoEdgeSpace(p.description)
  }

  predicate Invariant(s: State)
  {
    && UniqueIds(s.products)
    && (forall k :: 0 <= k < |s.products| ==> s.products[k].id < s.nextId)
    && (forall k :: 0 <= k < |s.products| ==> WellFormed(s.products[k]))
  }

  const SeedProducts: seq<Product> := [
    Product(1, "Laptop", "High-performance laptop for professionals", 1299.99, "Electronics", true),
    Product(2, "Wireless Mouse", "Ergonomic wireless mouse", 29.99, "Electronics", true),
    Product(3, "Office Chair", "Comfortable ergonomic office chair", 349.99, "Furniture", false),
    Product(4, "Desk Lamp", "LED desk lamp with adjustable brightness", 45.99, "Furniture", true),
    Product(5, "Mechanical Keyboard", "RGB mechanical gaming keyboard", 149.99, "Electronics", true)
  ]

  /** The store as the process starts. */
  const Seed := State(SeedProducts, 6)

  lemma SeedInvariant()
    ensures Invariant(Seed)
  {
    SeedIds();
    SeedWellFormed();
  }

  lemma SeedIds()
    ensures forall k :: 0 <= k < |SeedProducts| ==> SeedProducts[k].id == k + 1
  {
  }

  lemma SeedWellFormed()
    ensures forall k :: 0 <= k < |SeedProducts| ==> WellFormed(SeedProducts[k])
  {
    var ps := SeedProducts;
    SeedProductWellFormed(ps[0]);
    SeedProductWellFormed(ps[1]);
    SeedProductWellFormed(ps[2]);
    SeedProductWellFormed(ps[3]);
    SeedProductWellFormed(ps[4]);
  }

  /** A product whose strings start and end with a letter is well formed. */
  lemma SeedProductWellFormed(p: Product)
    requires p.price >= 0.0
    requires |p.name| > 0 && Letter(p.name[0]) && Letter(p.name[|p.name| - 1])
    requires |p.category| > 0 && Letter(p.category[0]) && Letter(p.category[|p.category| - 1])
    requires |p.description| > 0 && Letter(p.description[0]) && Letter(p.description[|p.description| - 1])
    ensures WellFormed(p)
  {
  }

  predicate Letter(c: char)
  {
    'A' <= c <= 'Z' || 'a' <= c <= 'z'
  }

  /** What an operation returns together with the store it leaves behind. */
  datatype Effect = Effect(result: Result<Product>, next: State)

  /** The TypeError that calling trim on a description that is not a string raises. */
  function TrimFault(v: Value): ApiError
  {
    Fault(if v.Null? then "Cannot read properties of null (reading 'trim')"
          else "description.trim is not a function")
  }

  // ---------------------------------------------------------------------------
  // GET /api/products/:id
  // ---------------------------------------------------------------------------

  /** products.find(p => p.id === parseInt(idParam)), or NotFound. */
  function GetById(ps: seq<Product>, idParam: string): Result<Product>
  {
    var id := ParseInt(idParam);
    var k := IndexOfId(ps, id);
    if k < 0 then Err(NoSuchProduct(id)) else Ok(ps[k])
  }

  /** Get succeeds exactly when some product carries the parsed id, and then
      returns such a product; otherwise it reports the parsed id. */
  lemma GetByIdSpec(ps: seq<Product>, idParam: string)
    ensures GetById(ps, idParam).Ok? <==> exists k :: 0 <= k < |ps| && HasId(ps[k], ParseInt(idParam))
    ensures GetById(ps, idParam).Ok? ==>
      GetById(ps, idParam).value in ps && HasId(GetById(ps, idParam).value, ParseInt(idParam))
    ensures GetById(ps, idParam).Err? ==> GetById(ps, idParam).error == NoSuchProduct(ParseInt(idParam))
  {
  }

  // ---------------------------------------------------------------------------
  // POST /api/products
  // ---------------------------------------------------------------------------

  /** The create handler on a validated body: take `nextId++` as the id, trim
      the strings, default description to '' and inStock to true, and append.
      The id is taken before description.trim() runs, so a description that is
      not a string consumes an id and stores nothing. */
  function Created(s: State, body: Body): Effect
    requires ValidBody(body)
  {
    ValidBodyFields(body);
    var bumped := s.nextId + 1;
    var d := body.description;
    if d.Undefined? || d.Str? then
      var p := Product(
        s.nextId,
        Trim(body.name.s),
        if d.Str? then Trim(d.s) else "",
        body.price.n,
        Trim(body.category.s),
        if body.inStock.Bool? then body.inStock.b else true);
      Effect(Ok(p), State(s.products + [p], bumped))
    else
      Effect(Err(TrimFault(d)), State(s.products, bumped))
  }

  /** Create appends one well-formed product with a fresh id, above every stored
      one, leaves the earlier products untouched, and keeps the invariant. */
  lemma CreatePreservesInvariant(s: State, body: Body)
    requires Invariant(s) && ValidBody(body)
    ensures Invariant(Created(s, body).next)
    ensures Created(s, body).next.nextId == s.nextId + 1
    ensures Created(s, body).result.Ok? <==> body.description.Undefined? || body.description.Str?
    ensures Created(s, body).result.Ok? ==>
      var p := Created(s, body).result.value;
      && Created(s, body).next.products == s.products + [p]
      && p.id == s.nextId
      && (forall k :: 0 <= k < |s.products| ==> s.products[k].id < p.id)
    ensures Created(s, body).result.Err? ==> Created(s, body).next.products == s.products
  {
    var e := Created(s, body);
    if e.result.Ok? {
      CreatedWellFormed(s, body);
      AppendKeepsInvariant(s, e.result.value);
    }
  }

  lemma CreatedWellFormed(s: State, body: Body)
    requires ValidBody(body)
    requires Created(s, body).result.Ok?
    ensures WellFormed(Created(s, body).result.value)
  {
    ValidBodyFields(body);
    TrimEmptyIff(body.name.s);
    TrimEmptyIff(body.category.s);
  }

  lemma AppendKeepsInvariant(s: State, p: Product)
    requires Invariant(s) && WellFormed(p) && p.id == s.nextId
    ensures Invariant(State(s.products + [p], s.nextId + 1))
  {
    var ps := s.products + [p];
    assert forall k :: 0 <= k < |s.products| ==> ps[k] == s.products[k];
    assert ps[|s.products|] == p;
  }

  /** The fields of a created product, as the handler builds them. */
  lemma CreatedFields(s: State, body: Body)
    requires ValidBody(body)
    requires Created(s, body).result.Ok?
    ensures var p := Created(s, body).result.value;
      && p.name == Trim(body.name.s)
      && p.description == (if body.description.Str? then Trim(body.description.s) else "")
      && p.price == body.price.n
      && p.category == Trim(body.category.s)
      && p.inStock == (body.inStock != Bool(false))
  {
    ValidBodyFields(body);
  }

  /** A created product is found again by get, through its id printed in decimal. */
  lemma CreateThenGet(s: State, body: Body)
    requires Invariant(s) && ValidBody(body)
    requires Created(s, body).result.Ok?
    ensures GetById(Created(s, body).next.products, IntToString(Created(s, body).result.value.id))
         == Created(s, body).result
  {
    var e := Created(s, body);
    CreatePreservesInvariant(s, body);
    ParseIntRoundTrip(e.result.value.id);
    IndexOfUniqueId(e.next.products, |s.products|);
  }

  // ---------------------------------------------------------------------------
  // PUT /api/products/:id
  // ---------------------------------------------------------------------------

  /** A description the update handler calls trim on although it is no string. */
  predicate UpdateTrimFaults(d: Value)
  {
    Truthy(d) && !d.Str?
  }

  /** `{ ...old, name, description, price, category, inStock }` as the update
      handler builds it: a falsy description and an absent inStock keep the old values. */
  function Revised(current: Product, body: Body): Product
    requires ValidBody(body)
    requires !UpdateTrimFaults(body.description)
  {
    ValidBodyFields(body);
    var d := body.description;
    current.(
      name := Trim(body.name.s),
      description := if Truthy(d) then Trim(d.s) else current.description,
      price := body.price.n,
      category := Trim(body.category.s),
      inStock := if body.inStock.Bool? then body.inStock.b else current.inStock)
  }

  function Updated(s: State, idParam: string, body: Body): Effect
    requires ValidBody(body)
  {
    var id := ParseInt(idParam);
    var k := IndexOfId(s.products, id);
    if k < 0 then Effect(Err(NoSuchProduct(id)), s)
    else if UpdateTrimFaults(body.description) then Effect(Err(TrimFault(body.description)), s)
    else
      var p := Revised(s.products[k], body);
      Effect(Ok(p), State(s.products[k := p], s.nextId))
  }

  /** Update overwrites one product in place: same id, same position, name,
      price and category from the body, description and inStock kept unless the
      body supplies them; every other product and the counter are unchanged. A
      missing id or a failure changes nothing. */
  lemma UpdateSpec(s: State, idParam: string, body: Body)
    requires Invariant(s) && ValidBody(body)
    ensures var e := Updated(s, idParam, body);
      && Invariant(e.next)
      && e.next.nextId == s.nextId
      && |e.next.products| == |s.products|
      && (e.result.Err? ==> e.next == s)
      && (IndexOfId(s.products, ParseInt(idParam)) < 0 <==> e.result == Err(NoSuchProduct(ParseInt(idParam))))
    ensures var e := Updated(s, idParam, body);
      var k := IndexOfId(s.products, ParseInt(idParam));
      e.result.Ok? ==>
        && e.next.products[k] == e.result.value
        && e.result.value.id == s.products[k].id
        && e.result.value.name == Trim(body.name.s)
        && e.result.value.price == body.price.n
        && e.result.value.category == Trim(body.category.s)
        && e.result.value.description ==
             (if body.description.Str? && body.description.s != "" then Trim(body.description.s)
              else s.products[k].description)
        && e.result.value.inStock ==
             (if body.inStock.Bool? then body.inStock.b else s.products[k].inStock)
        && (forall j :: 0 <= j < |s.products| && j != k ==> e.next.products[j] == s.products[j])
    ensures var e := Updated(s, idParam, body);
      IndexOfId(s.products, ParseInt(idParam)) >= 0 ==>
        (e.result.Ok? <==> !UpdateTrimFaults(body.description))
        && (UpdateTrimFaults(body.description) ==> e.result == Err(TrimFault(body.description)))
  {
    var k := IndexOfId(s.products, ParseInt(idParam));
    if k >= 0 && !UpdateTrimFaults(body.description) {
      var p := Revised(s.products[k], body);
      RevisedFields(s.products[k], body);
      ReplaceKeepsInvariant(s, k, p);
    }
  }

  /** The product the update handler writes back keeps its id, takes name,
      price and category from the body, keeps description and inStock unless
      the body supplies them, and stays well formed. */
  lemma RevisedFields(current: Product, body: Body)
    requires ValidBody(body) && !UpdateTrimFaults(body.description) && WellFormed(current)
    ensures var p := Revised(current, body);
      && WellFormed(p)
      && p.id == current.id
      && p.name == Trim(body.name.s)
      && p.price == body.price.n
      && p.category == Trim(body.category.s)
      && p.description ==
           (if body.description.Str? && body.description.s != "" then Trim(body.description.s)
            else current.description)
      && p.inStock == (if body.inStock.Bool? then body.inStock.b else current.inStock)
  {
    ValidBodyFields(body);
    TrimEmptyIff(body.name.s);
    TrimEmptyIff(body.category.s);
  }

  /** Overwriting a product by a well-formed one with the same id keeps the invariant. */
  lemma ReplaceKeepsInvariant(s: State, k: int, p: Product)
    requires Invariant(s) && 0 <= k < |s.products|
    requires WellFormed(p) && p.id == s.products[k].id
    ensures Invariant(State(s.products[k := p], s.nextId))
  {
    var ps := s.products[k := p];
    assert forall j :: 0 <= j < |ps| ==> ps[j].id == s.products[j].id;
  }

  // ---------------------------------------------------------------------------
  // DELETE /api/products/:id
  // ---------------------------------------------------------------------------

  function Deleted(s: State, idParam: string): Effect
  {
    var id := ParseInt(idParam);
    var k := IndexOfId(s.products, id);
    if k < 0 then Effect(Err(NoSuchProduct(id)), s)
    else Effect(Ok(s.products[k]), State(s.products[..k] + s.products[k + 1..], s.nextId))
  }

  /** Delete removes exactly the product with the id and returns it; the others
      keep their relative order, the counter is not decremented, and a missing
      id changes nothing. */
  lemma DeleteSpec(s: State, idParam: string)
    requires Invariant(s)
    ensures var e := Deleted(s, idParam);
      && Invariant(e.next)
      && e.next.nextId == s.nextId
      && (e.result.Err? <==> forall k :: 0 <= k < |s.products| ==> !HasId(s.products[k], ParseInt(idParam)))
      && (e.result.Err? ==> e.next == s && e.result.error == NoSuchProduct(ParseInt(idParam)))
    ensures var e := Deleted(s, idParam);
      var k := IndexOfId(s.products, ParseInt(idParam));
      e.result.Ok? ==>
        && e.result.value == s.products[k]
        && |e.next.products| == |s.products| - 1
        && (forall j :: 0 <= j < k ==> e.next.products[j] == s.products[j])
        && (forall j :: k < j < |s.products| ==> e.next.products[j - 1] == s.products[j])
  {
    var id := ParseInt(idParam);
    var k := IndexOfId(s.products, id);
    var e := Deleted(s, idParam);
    if k >= 0 {
      assert e == Effect(Ok(s.products[k]), State(s.products[..k] + s.products[k + 1..], s.nextId));
      RemoveKeepsInvariant(s, k);
    } else {
      assert e == Effect(Err(NoSuchProduct(id)), s);
    }
  }

  lemma RemoveKeepsInvariant(s: State, k: int)
    requires Invariant(s) && 0 <= k < |s.products|
    ensures var ps := s.products[..k] + s.products[k + 1..];
      && Invariant(State(ps, s.nextId))
      && |ps| == |s.products| - 1
      && (forall j :: 0 <= j < k ==> ps[j] == s.products[j])
      && (forall j :: k < j < |s.products| ==> ps[j - 1] == s.products[j])
  {
    var ps := s.products[..k] + s.products[k + 1..];
    forall j | 0 <= j < |ps|
      ensures ps[j] == s.products[Skip(j, k)]
    {
    }
    forall i, j | 0 <= i < j < |ps|
      ensures ps[i].id != ps[j].id
    {
      assert Skip(i, k) < Skip(j, k);
    }
  }

  /** The position in the old list of position j after splicing out position k. */
  function Skip(j: int, k: int): int
  {
    if j < k then j else j + 1
  }

  /** After a delete, get on the same id parameter reports NotFound. */
  lemma DeleteThenGet(s: State, idParam: string)
    requires Invariant(s)
    ensures GetById(Deleted(s, idParam).next.products, idParam).Err?
  {
    RemovedIdAbsent(s.products, ParseInt(idParam));
  }

  /** With unique ids, splicing out the product found for an id leaves no product with it. */
  lemma RemovedIdAbsent(ps: seq<Product>, id: Option<int>)
    requires UniqueIds(ps)
    ensures var k := IndexOfId(ps, id);
      k >= 0 ==> IndexOfId(ps[..k] + ps[k + 1..], id) == -1
  {
    var k := IndexOfId(ps, id);
    if k >= 0 {
      var rest := ps[..k] + ps[k + 1..];
      forall j | 0 <= j < |rest|
        ensures !HasId(rest[j], id)
      {
        var m := if j < k then j else j + 1;
        assert rest[j] == ps[m];
        assert ps[m].id != ps[k].id;
      }
    }
  }

  /** Every stored id was issued, and every issued id lies below the counter:
      ids are never handed out twice, even after a delete. */
  ghost predicate IssuedCovers(ps: seq<Product>, issued: set<int>, nextId: int)
  {
    && (forall k :: 0 <= k < |ps| ==> ps[k].id in issued)
    && (forall i :: i in issued ==> i < nextId)
  }

  /** Issuing the counter keeps the bookkeeping. */
  lemma IssueCovers(ps: seq<Product>, issued: set<int>, nextId: int)
    requires IssuedCovers(ps, issued, nextId)
    ensures IssuedCovers(ps, issued + {nextId}, nextId + 1)
  {
  }

  /** Appending a product whose id was issued keeps the bookkeeping. */
  lemma AppendCovers(ps: seq<Product>, issued: set<int>, nextId: int, p: Product)
    requires IssuedCovers(ps, issued, nextId) && p.id in issued
    ensures IssuedCovers(ps + [p], issued, nextId)
  {
    var ps' := ps + [p];
    assert forall k :: 0 <= k < |ps| ==> ps'[k] == ps[k];
  }

  /** Overwriting a product by one with the same id keeps the bookkeeping. */
  lemma ReplaceCovers(ps: seq<Product>, issued: set<int>, nextId: int, k: int, p: Product)
    requires IssuedCovers(ps, issued, nextId) && 0 <= k < |ps| && p.id == ps[k].id
    ensures IssuedCovers(ps[k := p], issued, nextId)
  {
  }

  /** Splicing a product out keeps the bookkeeping. */
  lemma RemoveCovers(ps: seq<Product>, issued: set<int>, nextId: int, k: int)
    requires IssuedCovers(ps, issued, nextId) && 0 <= k < |ps|
    ensures IssuedCovers(ps[..k] + ps[k + 1..], issued, nextId)
  {
    var rest := ps[..k] + ps[k + 1..];
    assert forall j :: 0 <= j < |rest| ==> rest[j] == ps[if j < k then j else j + 1];
  }

  /** Ids are never reused: a product created after a delete gets an id other
      than the deleted product's, because the counter only grows. */
  lemma DeletedIdNotReissued(s: State, idParam: string, body: Body)
    requires Invariant(s) && ValidBody(body)
    ensures var d := Deleted(s, idParam);
      var c := Created(d.next, body);
      d.result.Ok? && c.result.Ok? ==> c.result.value.id != d.result.value.id
  {
    DeleteSpec(s, idParam);
    var d := Deleted(s, idParam);
    CreatePreservesInvariant(d.next, body);
  }

  // ---------------------------------------------------------------------------
  // The store object
  // ---------------------------------------------------------------------------

  /** The module-level `products` array and `nextId` counter. The ghost set
      `issued` records every id ever handed out; all of them lie below nextId. */
  class ProductStore {
    var products: seq<Product>
    var nextId: int
    ghost var issued: set<int>

    function Model(): State
      reads this
    {
      State(products, nextId)
    }

    ghost predicate Valid()
      reads this
    {
      && Invariant(Model())
      && IssuedCovers(products, issued, nextId)
    }

    constructor ()
      ensures Valid()
      ensures Model() == Seed
      ensures issued == {1, 2, 3, 4, 5}
    {
      products := SeedProducts;
      nextId := 6;
      issued := {1, 2, 3, 4, 5};
      SeedInvariant();
      SeedIds();
    }

    /** POST handler body: `id: nextId++`, build the product, push it. */
    method Create(body: Body) returns (r: Result<Product>)
      requires Valid() && ValidBody(body)
      modifies this
      ensures Valid()
      ensures Effect(r, Model()) == Created(old(Model()), body)
      ensures issued == old(issued) + {old(nextId)}
      ensures r.Ok? ==> r.value.id !in old(issued)
    {
      ghost var before := Model();
      CreatePreservesInvariant(before, body);
      IssueCovers(products, issued, nextId);
      var id := nextId;
      nextId := nextId + 1;
      issued := issued + {id};
      var description: string;
      var d := body.description;
      if d.Undefined? {
        description := "";
      } else if d.Str? {
        description := Trim(d.s);
      } else {
        r := Err(TrimFault(d));
        assert Effect(r, Model()) == Created(before, body);
        return;
      }
      var inStock := if body.inStock.Bool? then body.inStock.b else true;
      var p := Product(id, Trim(body.name.s), description, body.price.n, Trim(body.category.s), inStock);
      AppendCovers(products, issued, nextId, p);
      products := products + [p];
      r := Ok(p);
      assert Effect(r, Model()) == Created(before, body);
    }

    /** PUT handler body: findIndex, then replace the element in place. */
    method Update(idParam: string, body: Body) returns (r: Result<Product>)
      requires Valid() && ValidBody(body)
      modifies this
      ensures Valid()
      ensures Effect(r, Model()) == Updated(old(Model()), idParam, body)
      ensures issued == old(issued)
    {
      ghost var before := Model();
      var id := ParseInt(idParam);
      var k := IndexOfId(products, id);
      if k == -1 {
        return Err(NoSuchProduct(id));
      }
      var d := body.description;
      if Truthy(d) && !d.Str? {
        return Err(TrimFault(d));
      }
      var p := Revised(products[k], body);
      RevisedFields(products[k], body);
      ReplaceKeepsInvariant(before, k, p);
      ReplaceCovers(products, issued, nextId, k, p);
      products := products[k := p];
      r := Ok(p);
    }

    /** DELETE handler body: findIndex, then splice the element out. */
    method Delete(idParam: string) returns (r: Result<Product>)
      requires Valid()
      modifies this
      ensures Valid()
      ensures Effect(r, Model()) == Deleted(old(Model()), idParam)
      ensures issued == old(issued)
    {
      DeleteSpec(Model(), idParam);
      var id := ParseInt(idParam);
      var k := IndexOfId(products, id);
      if k == -1 {
        return Err(NoSuchProduct(id));
      }
      var removed := products[k];
      RemoveCovers(products, issued, nextId, k);
      products := products[..k] + products[k + 1..];
      r := Ok(removed);
    }
  }
}
