/** The read-only handlers: list with category filter and pagination, search by
    name, and statistics over the whole store. */
module Queries {
  import opened JsText
  import opened Catalog

  /** The query-string parameters the handlers read, as strings when present. */
  datatype Query = Query(category: Option<string>, page: Option<string>, limit: Option<string>, q: Option<string>)

  // ---------------------------------------------------------------------------
  // GET /api/products
  // ---------------------------------------------------------------------------

  /** Pagination metadata; None is the JSON null that NaN and Infinity serialise to. */
  datatype Pagination = Pagination(page: Option<int>, limit: Option<int>, total: nat, totalPages: Option<int>)

  datatype Listing = Listing(data: seq<Product>, pagination: Pagination)

  /** Case-insensitive category equality, `a.toLowerCase() === b.toLowerCase()`. */
  predicate SameCategory(p: Product, c: string)
  {
    Lower(p.category) == Lower(c)
  }

  /** The category filter; an absent or empty category parameter is falsy and filters nothing. */
  function InCategory(ps: seq<Product>, category: Option<string>): seq<Product>
  {
    if category.Some? && category.value != "" then Filter(ps, p => SameCategory(p, category.value))
    else ps
  }

  /** `parseInt(param)`, where an absent parameter takes the destructuring default. */
  function NumberParam(v: Option<string>, default: int): Option<int>
  {
    match v
    case None => Some(default)
    case Some(t) => ParseInt(t)
  }

  function CeilDiv(a: nat, b: nat): nat
    requires b > 0
  {
    (a + b - 1) / b
  }

  /** `Math.ceil(total / limit)`: null for a NaN limit and for a zero limit
      (NaN or Infinity); for a negative limit the quotient is non-positive. */
  function TotalPages(total: nat, limit: Option<int>): Option<int>
  {
    match limit
    case None => None
    case Some(l) =>
      if l == 0 then None
      else if l > 0 then Some(CeilDiv(total, l))
      else Some(-(total / -l))
  }

  /** `(page - 1) * limit` and `start + limit`, then `slice(start, end)`. */
  function Paginate(f: seq<Product>, page: Option<int>, limit: Option<int>): Listing
  {
    var start := if page.Some? && limit.Some? then Some((page.value - 1) * limit.value) else None;
    var end := if page.Some? && limit.Some? then Some((page.value - 1) * limit.value + limit.value) else None;
    Listing(Slice(f, start, end), Pagination(page, limit, |f|, TotalPages(|f|, limit)))
  }

  function ListProducts(ps: seq<Product>, query: Query): Listing
  {
    Paginate(InCategory(ps, query.category), NumberParam(query.page, 1), NumberParam(query.limit, 10))
  }

  function Min(a: int, b: int): int
  {
    if a < b then a else b
  }

  /** The category filter keeps exactly the products whose lower-cased category
      equals the lower-cased parameter; without a parameter it keeps everything. */
  lemma InCategorySpec(ps: seq<Product>, category: Option<string>, p: Product)
    ensures category.Some? && category.value != "" ==>
      (p in InCategory(ps, category) <==> p in ps && Lower(p.category) == Lower(category.value))
    ensures category.None? || category == Some("") ==> InCategory(ps, category) == ps
  {
    if category.Some? && category.value != "" {
      FilterMembers(ps, p => SameCategory(p, category.value), p);
    }
  }

  /** The ceiling quotient is the least number of pages of size b that holds a items. */
  lemma CeilDivSpec(a: nat, b: nat)
    requires b > 0
    ensures CeilDiv(a, b) * b >= a
    ensures CeilDiv(a, b) * b < a + b
  {
    var c := CeilDiv(a, b);
    var r := (a + b - 1) % b;
    assert a + b - 1 == c * b + r;
  }

  /** totalPages is null exactly for a NaN or zero limit; otherwise it is the
      ceiling of total / limit, the integer t with t - 1 < total / limit <= t,
      written without division for either sign of the limit. */
  lemma TotalPagesSpec(total: nat, limit: Option<int>)
    ensures TotalPages(total, limit).None? <==> limit.None? || limit.value == 0
    ensures limit.Some? && limit.value > 0 ==>
      var t, l := TotalPages(total, limit).value, limit.value;
      (t - 1) * l < total <= t * l
    ensures limit.Some? && limit.value < 0 ==>
      var t, l := TotalPages(total, limit).value, limit.value;
      t * l <= total < (t - 1) * l
  {
    if limit.Some? && limit.value > 0 {
      var l := limit.value;
      CeilDivSpec(total, l);
      var t := CeilDiv(total, l);
      assert (t - 1) * l == t * l - l;
    } else if limit.Some? && limit.value < 0 {
      var l := limit.value;
      var m := -l;
      var q, r := total / m, total % m;
      assert total == q * m + r && 0 <= r < m;
      var t := -q;
      assert t * l == q * m;
      assert (t - 1) * l == q * m + m;
    }
  }

  lemma {:induction false} MulMonotone(x: int, y: int, l: nat)
    requires x <= y
    ensures x * l <= y * l
  {
  }

  lemma MulSucc(x: int, l: int)
    ensures (x + 1) * l == x * l + l
  {
  }

  /** For page, limit >= 1 the page is the window of `limit` products starting
      at (page-1)*limit, clamped to the filtered list; total and totalPages
      describe that list. */
  lemma PageWindow(f: seq<Product>, p: int, l: int)
    requires p >= 1 && l >= 1
    ensures var start := (p - 1) * l;
      var r := Paginate(f, Some(p), Some(l));
      && 0 <= start
      && r.data == f[Min(start, |f|)..Min(start + l, |f|)]
      && r.pagination == Pagination(Some(p), Some(l), |f|, Some(CeilDiv(|f|, l)))
  {
    MulMonotone(0, p - 1, l);
  }

  /** The pages up to totalPages hold something, every earlier page is full, and
      every page after totalPages is empty. */
  lemma PageNonEmptyIff(f: seq<Product>, p: int, l: int)
    requires p >= 1 && l >= 1
    ensures var data := Paginate(f, Some(p), Some(l)).data;
      && (data != [] <==> p <= CeilDiv(|f|, l))
      && (p < CeilDiv(|f|, l) ==> |data| == l)
  {
    PageWindow(f, p, l);
    CeilDivSpec(|f|, l);
    var c: int := CeilDiv(|f|, l);
    var start := (p - 1) * l;
    MulSucc(p - 1, l);
    MulSucc(c - 1, l);
    if p <= c {
      MulMonotone(p - 1, c - 1, l);
      assert start < |f|;
    } else {
      MulMonotone(c, p - 1, l);
      assert start >= |f|;
    }
    if p < c {
      MulMonotone(p, c - 1, l);
      assert start + l <= |f|;
    }
  }

  /** Without parameters the list is the first ten products with page 1, limit 10. */
  lemma DefaultListing(ps: seq<Product>)
    ensures var r := ListProducts(ps, Query(None, None, None, None));
      && r.data == ps[..Min(10, |ps|)]
      && r.pagination == Pagination(Some(1), Some(10), |ps|, Some(CeilDiv(|ps|, 10)))
  {
    PageWindow(ps, 1, 10);
  }

  // ---------------------------------------------------------------------------
  // GET /api/products/search
  // ---------------------------------------------------------------------------

  datatype SearchResult = SearchResult(query: string, count: nat, data: seq<Product>)

  predicate NameMatches(p: Product, q: string)
  {
    Includes(Lower(p.name), Lower(q))
  }

  const MissingQueryMessage := "Search query parameter \"q\" is required"

  function Search(ps: seq<Product>, q: Option<string>): Result<SearchResult>
  {
    if q.None? || q.value == "" then Err(Invalid(MissingQueryMessage))
    else
      var hits := Filter(ps, p => NameMatches(p, q.value));
      Ok(SearchResult(q.value, |hits|, hits))
  }

  /** Search fails exactly when q is missing or empty; otherwise it echoes q,
      counts its hits, and returns exactly the products whose lower-cased name
      contains the lower-cased query. */
  lemma SearchSpec(ps: seq<Product>, q: Option<string>, p: Product)
    ensures Search(ps, q).Err? <==> q.None? || q == Some("")
    ensures Search(ps, q).Err? ==> Search(ps, q).error == Invalid(MissingQueryMessage)
    ensures Search(ps, q).Ok? ==>
      var r := Search(ps, q).value;
      && r.query == q.value
      && r.count == |r.data|
      && (p in r.data <==> p in ps && exists i :: OccursAt(Lower(p.name), Lower(q.value), i))
  {
    if q.Some? && q.value != "" {
      FilterMembers(ps, x => NameMatches(x, q.value), p);
      IncludesIff(Lower(p.name), Lower(q.value));
    }
  }

  // ---------------------------------------------------------------------------
  // GET /api/products/stats
  // ---------------------------------------------------------------------------

  /** One entry of categoryBreakdown: a category key and its count. The
      breakdown lists its entries in the order the object enumerates its keys. */
  datatype Tally = Tally(category: string, count: nat)

  datatype Stats = Stats(
    totalProducts: nat,
    inStockCount: nat,
    outOfStockCount: nat,
    categoryBreakdown: seq<Tally>,
    averagePrice: real,
    totalValue: real)

  predicate IsInStock(p: Product) { p.inStock }

  predicate IsOutOfStock(p: Product) { !p.inStock }

  // JavaScript property-key order: an object lists its array-index keys first,
  // in ascending numeric order, and its other string keys after them, in the
  // order in which they were created.

  /** A canonical array index: "0", or decimal digits without a leading zero,
      with a value below 2^32 - 1. */
  predicate IsArrayIndex(c: string)
  {
    && |c| > 0
    && (forall k :: 0 <= k < |c| ==> '0' <= c[k] <= '9')
    && (c[0] == '0' ==> |c| == 1)
    && DigitsValue(c, 10) < 0xFFFF_FFFF
  }

  /** Whether a key being created is listed before an existing key. */
  predicate ListedBefore(c: string, existing: string)
  {
    IsArrayIndex(c) && (!IsArrayIndex(existing) || DigitsValue(c, 10) < DigitsValue(existing, 10))
  }

  /** Where a new key is listed: before the first existing key it precedes, or last. */
  function Slot(keys: seq<string>, c: string): (i: nat)
    ensures i <= |keys|
    ensures forall j :: 0 <= j < i ==> !ListedBefore(c, keys[j])
    ensures i < |keys| ==> ListedBefore(c, keys[i])
  {
    if keys == [] || ListedBefore(c, keys[0]) then 0 else 1 + Slot(keys[1..], c)
  }

  /** `breakdown[c]++` on a key that exists. */
  function Increment(ts: seq<Tally>, c: string): seq<Tally>
  {
    if ts == [] then []
    else if ts[0].category == c then [ts[0].(count := ts[0].count + 1)] + ts[1..]
    else [ts[0]] + Increment(ts[1..], c)
  }

  /** `if (!breakdown[c]) breakdown[c] = 0; breakdown[c]++`: increment c's entry,
      or create it with count 1 where the object lists the new key. */
  function Bump(ts: seq<Tally>, c: string): seq<Tally>
  {
    var keys := Categories(ts);
    if c in keys then Increment(ts, c)
    else
      var i := Slot(keys, c);
      ts[..i] + [Tally(c, 1)] + ts[i..]
  }

  /** The breakdown after visiting the products in order. */
  function Breakdown(ps: seq<Product>): seq<Tally>
  {
    if ps == [] then [] else Bump(Breakdown(ps[..|ps| - 1]), ps[|ps| - 1].category)
  }

  /** The count a breakdown gives a category (a missing key reads as 0). */
  function CountOf(ts: seq<Tally>, c: string): nat
  {
    if ts == [] then 0 else if ts[0].category == c then ts[0].count else CountOf(ts[1..], c)
  }

  function SumCounts(ts: seq<Tally>): nat
  {
    if ts == [] then 0 else ts[0].count + SumCounts(ts[1..])
  }

  /** The keys of a breakdown, in the order the object lists them. */
  function Categories(ts: seq<Tally>): seq<string>
  {
    seq(|ts|, k requires 0 <= k < |ts| => ts[k].category)
  }

  /** Exact (case-sensitive) category count, the key the breakdown uses. */
  function CountInCategory(ps: seq<Product>, c: string): nat
  {
    |Filter(ps, (p: Product) => p.category == c)|
  }

  /** `products.reduce((sum, p) => sum + p.price, 0)`. */
  function TotalPrice(ps: seq<Product>): real
  {
    if ps == [] then 0.0 else ps[0].price + TotalPrice(ps[1..])
  }

  function StatsOf(ps: seq<Product>): Stats
  {
    var n := |ps|;
    var total := TotalPrice(ps);
    Stats(
      n,
      |Filter(ps, IsInStock)|,
      |Filter(ps, IsOutOfStock)|,
      Breakdown(ps),
      if n > 0 then total / n as real else 0.0,
      if n > 0 then total else 0.0)
  }

  lemma {:induction false} PositiveDigits(s: string)
    requires |s| > 0 && (forall k :: 0 <= k < |s| ==> '0' <= s[k] <= '9') && s[0] != '0'
    ensures DigitsValue(s, 10) >= 1
  {
    if |s| > 1 {
      PositiveDigits(s[..|s| - 1]);
    }
  }

  /** A digit string without a leading zero is the decimal rendering of its value. */
  lemma {:induction false} CanonicalDigits(c: string)
    requires |c| > 0 && (forall k :: 0 <= k < |c| ==> '0' <= c[k] <= '9') && (c[0] == '0' ==> |c| == 1)
    ensures NatToString(DigitsValue(c, 10)) == c
  {
    var last := c[|c| - 1];
    assert DigitChar(DigitValue(last)) == last;
    if |c| > 1 {
      var init := c[..|c| - 1];
      CanonicalDigits(init);
      PositiveDigits(init);
      var v := DigitsValue(c, 10);
      assert v == DigitsValue(init, 10) * 10 + DigitValue(last);
      assert v / 10 == DigitsValue(init, 10) && v % 10 == DigitValue(last);
      assert c == init + [last];
    }
  }

  /** Different array-index keys have different numeric values. */
  lemma DistinctIndexValues(a: string, b: string)
    requires IsArrayIndex(a) && IsArrayIndex(b) && a != b
    ensures DigitsValue(a, 10) != DigitsValue(b, 10)
  {
    CanonicalDigits(a);
    CanonicalDigits(b);
  }

  lemma {:induction false} CountOfAbsent(ts: seq<Tally>, x: string)
    requires x !in Categories(ts)
    ensures CountOf(ts, x) == 0
  {
    if ts != [] {
      assert Categories(ts)[0] == ts[0].category;
      assert Categories(ts[1..]) == Categories(ts)[1..];
      CountOfAbsent(ts[1..], x);
    }
  }

  lemma {:induction false} CountOfAppend(a: seq<Tally>, b: seq<Tally>, x: string)
    ensures CountOf(a + b, x) == if x in Categories(a) then CountOf(a, x) else CountOf(b, x)
  {
    if a == [] {
      assert a + b == b;
    } else {
      CountOfAppend(a[1..], b, x);
      assert (a + b)[1..] == a[1..] + b;
      assert Categories(a) == [a[0].category] + Categories(a[1..]);
    }
  }

  lemma {:induction false} SumCountsAppend(a: seq<Tally>, b: seq<Tally>)
    ensures SumCounts(a + b) == SumCounts(a) + SumCounts(b)
  {
    if a == [] {
      assert a + b == b;
    } else {
      SumCountsAppend(a[1..], b);
      assert (a + b)[1..] == a[1..] + b;
    }
  }

  /** A breakdown split at position i, with a new entry for c inserted there. */
  lemma SplitAt(ts: seq<Tally>, c: string, i: nat)
    requires i <= |ts|
    ensures ts == ts[..i] + ts[i..]
    ensures ts[..i] + [Tally(c, 1)] + ts[i..] == ts[..i] + ([Tally(c, 1)] + ts[i..])
    ensures Categories(ts[..i]) == Categories(ts)[..i] && Categories(ts[i..]) == Categories(ts)[i..]
  {
  }

  lemma CategoriesAppend(a: seq<Tally>, b: seq<Tally>)
    ensures Categories(a + b) == Categories(a) + Categories(b)
  {
  }

  /** Inserting a new key's entry between two parts adds one to its count only. */
  lemma InsertCount(a: seq<Tally>, b: seq<Tally>, c: string, x: string)
    requires c !in Categories(a) && c !in Categories(b)
    ensures CountOf(a + ([Tally(c, 1)] + b), x) == CountOf(a + b, x) + (if x == c then 1 else 0)
  {
    var t := [Tally(c, 1)] + b;
    CountOfAppend(a, t, x);
    CountOfAppend(a, b, x);
    assert t[1..] == b;
    if x == c {
      CountOfAbsent(b, x);
    }
  }

  /** Inserting a new key's entry between two parts adds one to the total. */
  lemma InsertSum(a: seq<Tally>, b: seq<Tally>, c: string)
    ensures SumCounts(a + ([Tally(c, 1)] + b)) == SumCounts(a + b) + 1
  {
    var t := [Tally(c, 1)] + b;
    SumCountsAppend(a, t);
    SumCountsAppend(a, b);
    assert t[1..] == b;
  }

  /** Incrementing an existing key adds one to its count and to the total and
      keeps the keys as they are. */
  lemma {:induction false} IncrementSpec(ts: seq<Tally>, c: string, x: string)
    requires c in Categories(ts)
    ensures CountOf(Increment(ts, c), x) == CountOf(ts, x) + (if x == c then 1 else 0)
    ensures SumCounts(Increment(ts, c)) == SumCounts(ts) + 1
    ensures Categories(Increment(ts, c)) == Categories(ts)
  {
    assert Categories(ts) == [ts[0].category] + Categories(ts[1..]);
    if ts[0].category == c {
      assert ([ts[0].(count := ts[0].count + 1)] + ts[1..])[1..] == ts[1..];
    } else {
      IncrementSpec(ts[1..], c, x);
      assert ([ts[0]] + Increment(ts[1..], c))[1..] == Increment(ts[1..], c);
    }
  }

  /** One breakdown step adds one to c's count and leaves every other count. */
  lemma BumpCount(ts: seq<Tally>, c: string, x: string)
    ensures CountOf(Bump(ts, c), x) == CountOf(ts, x) + (if x == c then 1 else 0)
  {
    var keys := Categories(ts);
    if c in keys {
      IncrementSpec(ts, c, x);
    } else {
      var i := Slot(keys, c);
      SplitAt(ts, c, i);
      InsertCount(ts[..i], ts[i..], c, x);
    }
  }

  /** One breakdown step adds one to the total of the counts. */
  lemma BumpSum(ts: seq<Tally>, c: string)
    ensures SumCounts(Bump(ts, c)) == SumCounts(ts) + 1
  {
    var keys := Categories(ts);
    if c in keys {
      IncrementSpec(ts, c, c);
    } else {
      var i := Slot(keys, c);
      SplitAt(ts, c, i);
      InsertSum(ts[..i], ts[i..], c);
    }
  }

  /** One breakdown step keeps the keys when c is one of them, and otherwise
      inserts c at its slot. */
  lemma BumpCategories(ts: seq<Tally>, c: string)
    ensures var keys := Categories(ts);
      Categories(Bump(ts, c)) ==
        if c in keys then keys else keys[..Slot(keys, c)] + [c] + keys[Slot(keys, c)..]
  {
    var keys := Categories(ts);
    if c in keys {
      IncrementSpec(ts, c, c);
    } else {
      var i := Slot(keys, c);
      var t := [Tally(c, 1)];
      assert Bump(ts, c) == ts[..i] + t + ts[i..];
      SplitAt(ts, c, i);
      CategoriesAppend(ts[..i] + t, ts[i..]);
      CategoriesAppend(ts[..i], t);
      assert Categories(t) == [c];
    }
  }

  /** A new key that is not an array index is listed after every other key. */
  lemma BumpAppends(ts: seq<Tally>, c: string)
    requires c !in Categories(ts) && !IsArrayIndex(c)
    ensures Categories(Bump(ts, c)) == Categories(ts) + [c]
  {
    var keys := Categories(ts);
    BumpCategories(ts, c);
    SlotPlace(keys, c);
    assert keys[..|keys|] == keys;
  }

  predicate Distinct(s: seq<string>)
  {
    forall i, j :: 0 <= i < j < |s| ==> s[i] != s[j]
  }

  /** Array-index keys come first, in ascending numeric order. */
  predicate IndicesFirst(keys: seq<string>)
  {
    forall i, j :: 0 <= i < j < |keys| && IsArrayIndex(keys[j]) ==>
      IsArrayIndex(keys[i]) && DigitsValue(keys[i], 10) < DigitsValue(keys[j], 10)
  }

  /** Category a occurs in ps before category b first does. */
  ghost predicate CreatedBefore(ps: seq<Product>, a: string, b: string)
  {
    exists i :: 0 <= i < |ps| && ps[i].category == a && forall j :: 0 <= j <= i ==> ps[j].category != b
  }

  /** The order in which a JavaScript object lists the keys created by visiting
      ps: array indices first in ascending numeric order, then the other keys in
      the order in which their categories first occur. */
  ghost predicate ObjectKeyOrder(keys: seq<string>, ps: seq<Product>)
  {
    && IndicesFirst(keys)
    && forall i, j :: 0 <= i < j < |keys| && !IsArrayIndex(keys[i]) && !IsArrayIndex(keys[j]) ==>
         CreatedBefore(ps, keys[i], keys[j])
  }

  /** Where the entries of keys sit once c is inserted at position i. */
  lemma InsertPositions(keys: seq<string>, c: string, i: nat)
    requires i <= |keys|
    ensures var r := keys[..i] + [c] + keys[i..];
      && |r| == |keys| + 1 && r[i] == c
      && (forall p :: 0 <= p < i ==> r[p] == keys[p])
      && (forall p :: i < p < |r| ==> r[p] == keys[p - 1])
  {
  }

  /** A key that is not an array index is listed after every existing key;
      an array index only after array indices. */
  lemma SlotPlace(keys: seq<string>, c: string)
    ensures !IsArrayIndex(c) ==> Slot(keys, c) == |keys|
    ensures IsArrayIndex(c) ==> forall j :: 0 <= j < Slot(keys, c) ==> IsArrayIndex(keys[j])
  {
  }

  /** Inserting a new key at its slot keeps array indices first and ascending. */
  lemma InsertIndicesFirst(keys: seq<string>, c: string)
    requires IndicesFirst(keys) && c !in keys
    ensures IndicesFirst(keys[..Slot(keys, c)] + [c] + keys[Slot(keys, c)..])
  {
    var i := Slot(keys, c);
    var r := keys[..i] + [c] + keys[i..];
    InsertPositions(keys, c, i);
    forall p, q | 0 <= p < q < |r| && IsArrayIndex(r[q])
      ensures IsArrayIndex(r[p]) && DigitsValue(r[p], 10) < DigitsValue(r[q], 10)
    {
      if p != i && q != i {
        var p', q' := if p < i then p else p - 1, if q < i then q else q - 1;
        assert r[p] == keys[p'] && r[q] == keys[q'] && p' < q';
      } else if p == i {
        assert ListedBefore(c, keys[i]) && r[q] == keys[q - 1];
        if q - 1 > i {
          assert IsArrayIndex(keys[i]) && DigitsValue(keys[i], 10) < DigitsValue(keys[q - 1], 10);
        }
      } else {
        assert !ListedBefore(c, keys[p]) && r[p] == keys[p];
        DistinctIndexValues(keys[p], c);
      }
    }
  }

  /** Inserting a key that is not yet present keeps the keys distinct. */
  lemma InsertDistinct(keys: seq<string>, c: string, i: nat)
    requires Distinct(keys) && c !in keys && i <= |keys|
    ensures Distinct(keys[..i] + [c] + keys[i..])
  {
    var r := keys[..i] + [c] + keys[i..];
    forall p, q | 0 <= p < q < |r|
      ensures r[p] != r[q]
    {
      if q < i {
        assert r[p] == keys[p] && r[q] == keys[q];
      } else if p > i {
        assert r[p] == keys[p - 1] && r[q] == keys[q - 1];
      } else if p < i && q > i {
        assert r[p] == keys[p] && r[q] == keys[q - 1];
      } else if p == i {
        assert r[p] == c && r[q] == keys[q - 1];
      } else {
        assert r[q] == c && r[p] == keys[p];
      }
    }
  }

  lemma CreatedBeforeSnoc(init: seq<Product>, last: Product, a: string, b: string)
    requires CreatedBefore(init, a, b)
    ensures CreatedBefore(init + [last], a, b)
  {
    var ps := init + [last];
    var i :| 0 <= i < |init| && init[i].category == a && forall j :: 0 <= j <= i ==> init[j].category != b;
    assert ps[i] == init[i];
    assert forall j :: 0 <= j <= i ==> ps[j] == init[j];
  }

  lemma CreatedBeforeNew(init: seq<Product>, last: Product, a: string)
    requires a in ProductCategories(init) && last.category !in ProductCategories(init)
    ensures CreatedBefore(init + [last], a, last.category)
  {
    var ps := init + [last];
    var i :| 0 <= i < |init| && ProductCategories(init)[i] == a;
    assert ps[i] == init[i];
    forall j | 0 <= j <= i
      ensures ps[j].category != last.category
    {
      assert ps[j] == init[j];
      assert ProductCategories(init)[j] == init[j].category;
    }
  }

  /** Visiting one more product whose category is already a key keeps the key order. */
  lemma KeyOrderSnoc(keys: seq<string>, init: seq<Product>, last: Product)
    requires ObjectKeyOrder(keys, init)
    ensures ObjectKeyOrder(keys, init + [last])
  {
    forall i, j | 0 <= i < j < |keys| && !IsArrayIndex(keys[i]) && !IsArrayIndex(keys[j])
      ensures CreatedBefore(init + [last], keys[i], keys[j])
    {
      CreatedBeforeSnoc(init, last, keys[i], keys[j]);
    }
  }

  /** Visiting a product with a new category inserts the key at its slot and
      keeps the key order. */
  lemma KeyOrderInsert(keys: seq<string>, init: seq<Product>, last: Product)
    requires ObjectKeyOrder(keys, init)
    requires forall c :: c in keys <==> c in ProductCategories(init)
    requires last.category !in keys
    ensures var c := last.category;
      ObjectKeyOrder(keys[..Slot(keys, c)] + [c] + keys[Slot(keys, c)..], init + [last])
  {
    var c := last.category;
    var i := Slot(keys, c);
    var r := keys[..i] + [c] + keys[i..];
    InsertIndicesFirst(keys, c);
    InsertPositions(keys, c, i);
    SlotPlace(keys, c);
    forall p, q | 0 <= p < q < |r| && !IsArrayIndex(r[p]) && !IsArrayIndex(r[q])
      ensures CreatedBefore(init + [last], r[p], r[q])
    {
      if p != i && q != i {
        var p', q' := if p < i then p else p - 1, if q < i then q else q - 1;
        assert r[p] == keys[p'] && r[q] == keys[q'] && p' < q';
        CreatedBeforeSnoc(init, last, r[p], r[q]);
      } else {
        assert q == i && r[p] == keys[p];
        CreatedBeforeNew(init, last, r[p]);
      }
    }
  }

  /** Each category of the breakdown counts exactly the products in it. */
  lemma {:induction false} BreakdownCounts(ps: seq<Product>, c: string)
    ensures CountOf(Breakdown(ps), c) == CountInCategory(ps, c)
  {
    if ps != [] {
      var init := ps[..|ps| - 1];
      var last := ps[|ps| - 1];
      BreakdownCounts(init, c);
      BumpCount(Breakdown(init), last.category, c);
      assert ps == init + [last];
      FilterSnoc(init, last, (p: Product) => p.category == c);
    }
  }

  /** The breakdown counts add up to the number of products. */
  lemma {:induction false} BreakdownSum(ps: seq<Product>)
    ensures SumCounts(Breakdown(ps)) == |ps|
  {
    if ps != [] {
      BreakdownSum(ps[..|ps| - 1]);
      BumpSum(Breakdown(ps[..|ps| - 1]), ps[|ps| - 1].category);
    }
  }

  /** The category of every product, in store order. */
  function ProductCategories(ps: seq<Product>): (cs: seq<string>)
    ensures |cs| == |ps|
    ensures forall k :: 0 <= k < |ps| ==> cs[k] == ps[k].category
  {
    seq(|ps|, k requires 0 <= k < |ps| => ps[k].category)
  }

  /** The breakdown's keys are the products' categories, each once, listed in
      JavaScript's property order. */
  lemma {:induction false} BreakdownKeys(ps: seq<Product>)
    ensures Distinct(Categories(Breakdown(ps)))
    ensures forall c :: c in Categories(Breakdown(ps)) <==> c in ProductCategories(ps)
    ensures ObjectKeyOrder(Categories(Breakdown(ps)), ps)
  {
    if ps != [] {
      var init := ps[..|ps| - 1];
      var last := ps[|ps| - 1];
      var keys := Categories(Breakdown(init));
      BreakdownKeys(init);
      BumpCategories(Breakdown(init), last.category);
      assert ProductCategories(ps) == ProductCategories(init) + [last.category];
      assert ps == init + [last];
      if last.category in keys {
        KeyOrderSnoc(keys, init, last);
      } else {
        InsertDistinct(keys, last.category, Slot(keys, last.category));
        KeyOrderInsert(keys, init, last);
      }
    }
  }

  /** In-stock and out-of-stock counts partition the products. */
  lemma {:induction false} StockCountsAddUp(ps: seq<Product>)
    ensures |Filter(ps, IsInStock)| + |Filter(ps, IsOutOfStock)| == |ps|
  {
    if ps != [] {
      StockCountsAddUp(ps[..|ps| - 1]);
    }
  }

  /** The statistics satisfy the identities the endpoint promises: the stock
      counts partition the products, and on an empty store the price figures stay 0. */
  lemma StatsTotals(ps: seq<Product>)
    ensures StatsOf(ps).totalProducts == |ps|
    ensures StatsOf(ps).inStockCount + StatsOf(ps).outOfStockCount == StatsOf(ps).totalProducts
    ensures ps == [] ==> StatsOf(ps).averagePrice == 0.0 && StatsOf(ps).totalValue == 0.0
  {
    StockCountsAddUp(ps);
  }

  /** totalValue is the price sum and averagePrice that sum over the number of
      products; with non-negative prices neither figure is negative. */
  lemma StatsAverage(ps: seq<Product>)
    requires forall k :: 0 <= k < |ps| ==> ps[k].price >= 0.0
    ensures StatsOf(ps).totalValue >= 0.0 && StatsOf(ps).averagePrice >= 0.0
    ensures ps != [] ==> StatsOf(ps).totalValue == TotalPrice(ps)
    ensures ps != [] ==> StatsOf(ps).averagePrice == StatsOf(ps).totalValue / |ps| as real
  {
    TotalPriceNonNegative(ps);
    if ps != [] {
      QuotientNonNegative(TotalPrice(ps), |ps|);
    }
  }

  lemma QuotientNonNegative(x: real, n: nat)
    requires x >= 0.0 && n > 0
    ensures x / n as real >= 0.0
  {
  }

  lemma {:induction false} TotalPriceNonNegative(ps: seq<Product>)
    requires forall k :: 0 <= k < |ps| ==> ps[k].price >= 0.0
    ensures TotalPrice(ps) >= 0.0
  {
    if ps != [] {
      TotalPriceNonNegative(ps[1..]);
    }
  }

  /** categoryBreakdown has one entry per category present, listed in
      JavaScript's key order, counts each category's products exactly, and its
      counts add up to totalProducts. */
  lemma StatsBreakdown(ps: seq<Product>)
    ensures var st := StatsOf(ps);
      && SumCounts(st.categoryBreakdown) == st.totalProducts
      && Distinct(Categories(st.categoryBreakdown))
      && (forall c :: c in Categories(st.categoryBreakdown) <==> c in ProductCategories(ps))
      && ObjectKeyOrder(Categories(st.categoryBreakdown), ps)
      && (forall c :: CountOf(st.categoryBreakdown, c) == CountInCategory(ps, c))
  {
    BreakdownSum(ps);
    BreakdownKeys(ps);
    forall c
      ensures CountOf(Breakdown(ps), c) == CountInCategory(ps, c)
    {
      BreakdownCounts(ps, c);
    }
  }

  /** The stats handler: the two count filters and the price total are
      expressions, the breakdown is built by the forEach loop. */
  method ComputeStats(ps: seq<Product>) returns (st: Stats)
    ensures st == StatsOf(ps)
  {
    var breakdown: seq<Tally> := [];
    for i := 0 to |ps|
      invariant breakdown == Breakdown(ps[..i])
    {
      assert ps[..i + 1][..i] == ps[..i];
      breakdown := Bump(breakdown, ps[i].category);
    }
    assert ps[..|ps|] == ps;
    var n := |ps|;
    var averagePrice, totalValue := 0.0, 0.0;
    if n > 0 {
      var totalPrice := TotalPrice(ps);
      averagePrice := totalPrice / n as real;
      totalValue := totalPrice;
    }
    st := Stats(n, |Filter(ps, IsInStock)|, |Filter(ps, IsOutOfStock)|, breakdown, averagePrice, totalValue);
  }
}
