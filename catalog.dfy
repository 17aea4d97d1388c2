/** The records the service handles: request-body values as JSON delivers them,
    the stored product, the typed errors, and the two list operations every
    handler uses (filter and find-by-id). */
module Catalog {
  import opened JsText

  /** A field of a parsed JSON request body. `Undefined` is a field the body
      does not have; `Obj` is any object or array. */
  datatype Value =
    | Undefined
    | Null
    | Str(s: string)
    | Num(n: real)
    | Bool(b: bool)
    | Obj

  /** JavaScript truthiness of a body field. */
  predicate Truthy(v: Value)
  {
    match v
    case Undefined => false
    case Null => false
    case Str(s) => s != ""
    case Num(n) => n != 0.0
    case Bool(b) => b
    case Obj => true
  }

  /** The fields of a create/update request body that the handlers read. */
  datatype Body = Body(name: Value, description: Value, price: Value, category: Value, inStock: Value)

  datatype Product = Product(id: int, name: string, description: string, price: real, category: string, inStock: bool)

  /** The error classes the handlers throw. `Fault` is any other exception
      (a TypeError raised by the runtime), which carries no status code. */
  datatype ApiError =
    | NotFound(message: string)
    | Invalid(message: string)
    | Unauthenticated(message: string)
    | Fault(message: string)

  /** The statusCode property of an error; a Fault has none. */
  function StatusCode(e: ApiError): Option<int>
  {
    match e
    case NotFound(_) => Some(404)
    case Invalid(_) => Some(400)
    case Unauthenticated(_) => Some(401)
    case Fault(_) => None
  }

  datatype Result<+T> = Ok(value: T) | Err(error: ApiError)

  // ---------------------------------------------------------------------------
  // Array.prototype.filter
  // ---------------------------------------------------------------------------

  /** The elements of s that keep accepts, in their original order. */
  function Filter<T>(s: seq<T>, keep: T -> bool): (r: seq<T>)
    ensures |r| <= |s|
    ensures forall k :: 0 <= k < |r| ==> keep(r[k])
  {
    if s == [] then []
    else Filter(s[..|s| - 1], keep) + (if keep(s[|s| - 1]) then [s[|s| - 1]] else [])
  }

  lemma {:induction false} FilterMembers<T>(s: seq<T>, keep: T -> bool, x: T)
    ensures x in Filter(s, keep) <==> x in s && keep(x)
  {
    if s != [] {
      FilterMembers(s[..|s| - 1], keep, x);
      assert s == s[..|s| - 1] + [s[|s| - 1]];
    }
  }

  /** Filtering a list with one more element at the end adds that element
      exactly when keep accepts it. */
  lemma FilterSnoc<T>(init: seq<T>, last: T, keep: T -> bool)
    ensures Filter(init + [last], keep) == Filter(init, keep) + (if keep(last) then [last] else [])
  {
    var s := init + [last];
    assert s[..|s| - 1] == init && s[|s| - 1] == last;
  }

  // ---------------------------------------------------------------------------
  // Array.prototype.find / findIndex by id
  // ---------------------------------------------------------------------------

  /** Whether a product's id is strictly equal to a parseInt result (NaN equals nothing). */
  predicate HasId(p: Product, id: Option<int>)
  {
    id == Some(p.id)
  }

  /** findIndex(p => p.id === id): the first position holding the id, or -1. */
  function IndexOfId(ps: seq<Product>, id: Option<int>): (k: int)
    ensures -1 <= k < |ps|
    ensures k >= 0 ==> HasId(ps[k], id) && forall j :: 0 <= j < k ==> !HasId(ps[j], id)
    ensures k == -1 <==> forall j :: 0 <= j < |ps| ==> !HasId(ps[j], id)
  {
    if ps == [] then -1
    else if HasId(ps[0], id) then 0
    else
      var k := IndexOfId(ps[1..], id);
      if k < 0 then -1 else k + 1
  }

  /** The NotFoundError thrown by the id routes. */
  function NoSuchProduct(id: Option<int>): ApiError
  {
    NotFound("Product with ID " + ShowNumber(id) + " not found")
  }

  /** Ids are pairwise distinct. */
  predicate UniqueIds(ps: seq<Product>)
  {
    forall i, j :: 0 <= i < j < |ps| ==> ps[i].id != ps[j].id
  }

  /** With unique ids, findIndex locates the one position that holds the id. */
  lemma IndexOfUniqueId(ps: seq<Product>, k: int)
    requires UniqueIds(ps)
    requires 0 <= k < |ps|
    ensures IndexOfId(ps, Some(ps[k].id)) == k
  {
  }
}
