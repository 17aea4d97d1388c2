/** The service on its seed products. */
module Scenarios {
  import opened JsText
  import opened Catalog
  import opened Store
  import opened Queries

  /** GET /api/products/3 on the seed store is the office chair. */
  lemma SeedGet(idParam: string)
    requires idParam == "3"
    ensures GetById(SeedProducts, idParam) == Ok(SeedProducts[2])
    ensures SeedProducts[2].name == "Office Chair"
  {
    SeedInvariant();
    assert IntToString(3) == idParam;
    ParseIntRoundTrip(3);
    SeedIds();
    IndexOfUniqueId(SeedProducts, 2);
  }

  /** GET /api/products/stats on the seed store. */
  lemma SeedStats(ps: seq<Product>)
    requires ps == SeedProducts
    ensures StatsOf(ps) ==
      Stats(5, 4, 1, [Tally("Electronics", 3), Tally("Furniture", 2)], 375.19, 1875.95)
  {
    var p1, p2, p3, p4 := ps[1], ps[2], ps[3], ps[4];
    assert TotalPrice(ps) == 1875.95 by {
      assert ps[1..] == [p1, p2, p3, p4] && ps[2..] == [p2, p3, p4] && ps[3..] == [p3, p4] && ps[4..] == [p4];
    }
    StockCounts(ps);
    SeedBreakdown(ps);
  }

  lemma SeedBreakdown(ps: seq<Product>)
    requires ps == SeedProducts
    ensures Breakdown(ps) == [Tally("Electronics", 3), Tally("Furniture", 2)]
  {
    var e, f := "Electronics", "Furniture";
    assert e != f;
    assert !IsArrayIndex(f) by { assert f[0] == 'F'; }
    assert ps[0].category == e && ps[1].category == e && ps[2].category == f;
    assert ps[3].category == f && ps[4].category == e;
    var p0, p1, p2, p3, p4 := ps[0], ps[1], ps[2], ps[3], ps[4];
    assert ps == [] + [p0] + [p1] + [p2] + [p3] + [p4];
    BreakdownSnoc([], p0);
    BumpEmpty(e);
    BreakdownSnoc([p0], p1);
    BumpOnly(e, 1);
    BreakdownSnoc([p0] + [p1], p2);
    BumpNewSecond(Tally(e, 2), f);
    BreakdownSnoc([p0] + [p1] + [p2], p3);
    BumpSecond(Tally(e, 2), f, 1);
    BreakdownSnoc([p0] + [p1] + [p2] + [p3], p4);
    BumpFirstOfTwo(e, 2, Tally(f, 2));
  }

  lemma BreakdownSnoc(init: seq<Product>, p: Product)
    ensures Breakdown(init + [p]) == Bump(Breakdown(init), p.category)
  {
    assert (init + [p])[..|init|] == init;
  }

  /** The first product creates its category's entry. */
  lemma BumpEmpty(c: string)
    ensures Bump([], c) == [Tally(c, 1)]
  {
    assert Slot([], c) == 0;
  }

  lemma BumpOnly(c: string, n: nat)
    ensures Bump([Tally(c, n)], c) == [Tally(c, n + 1)]
  {
    assert Categories([Tally(c, n)]) == [c];
  }

  /** A second category that is not an array index is listed after the first. */
  lemma BumpNewSecond(a: Tally, c: string)
    requires a.category != c && !IsArrayIndex(c)
    ensures Bump([a], c) == [a, Tally(c, 1)]
  {
    assert Categories([a]) == [a.category];
    SlotPlace([a.category], c);
  }

  lemma BumpSecond(a: Tally, c: string, n: nat)
    requires a.category != c
    ensures Bump([a, Tally(c, n)], c) == [a, Tally(c, n + 1)]
  {
    var ts := [a, Tally(c, n)];
    assert Categories(ts) == [a.category, c] && c in Categories(ts);
    assert ts[1..] == [Tally(c, n)] && ts[1..][1..] == [];
    assert Increment(ts[1..], c) == [Tally(c, n + 1)];
  }

  lemma BumpFirstOfTwo(c: string, n: nat, b: Tally)
    requires b.category != c
    ensures Bump([Tally(c, n), b], c) == [Tally(c, n + 1), b]
  {
    var ts := [Tally(c, n), b];
    assert Categories(ts) == [c, b.category] && c in Categories(ts);
  }

  lemma StockCounts(ps: seq<Product>)
    requires ps == SeedProducts
    ensures |Filter(ps, IsInStock)| == 4 && |Filter(ps, IsOutOfStock)| == 1
  {
    var p0, p1, p2, p3, p4 := ps[0], ps[1], ps[2], ps[3], ps[4];
    assert ps[..1] == [] + [p0] && ps[..2] == ps[..1] + [p1] && ps[..3] == ps[..2] + [p2];
    assert ps[..4] == ps[..3] + [p3] && ps == ps[..4] + [p4];
    FilterSnoc([], p0, IsInStock);
    FilterSnoc(ps[..1], p1, IsInStock);
    FilterSnoc(ps[..2], p2, IsInStock);
    FilterSnoc(ps[..3], p3, IsInStock);
    FilterSnoc(ps[..4], p4, IsInStock);
    StockCountsAddUp(ps);
  }

  /** GET /api/products?page=2&limit=2 on the seed store: the third and fourth
      products, out of three pages. */
  lemma SeedPage(ps: seq<Product>, two: string)
    requires ps == SeedProducts && two == "2"
    ensures ListProducts(ps, Query(None, Some(two), Some(two), None)) ==
      Listing(ps[2..4], Pagination(Some(2), Some(2), 5, Some(3)))
  {
    assert IntToString(2) == two;
    ParseIntRoundTrip(2);
    PageWindow(ps, 2, 2);
  }
}
