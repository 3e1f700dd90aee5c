/** `findSuitableProduct`: three filter passes over the catalog, each looser than the one
    before; the candidates of the first pass that finds any are sorted by capacity and the
    smallest is returned, or `None` (the source's `null`). */
module Products {
  import opened Options
  import opened Form
  import opened Demand
  import opened Catalog
  import opened CapacitySort

  /** Products at least this large (litres) pass the type rule of a house request. */
  const HouseCarveOutCapacity: int := 3000

  /** The product type a request asks for. */
  function ProductType(f: FormData): (t: string)
    ensures t == "house" <==> NeedsHouseSystem(f)
  {
    if NeedsHouseSystem(f) then "house" else "garden"
  }

  /** The type rule shared by all passes: the requested type, or, for a house request,
      any product of at least `HouseCarveOutCapacity` litres. */
  predicate TypeRule(p: Product, productType: string)
    ensures p.kind == productType ==> TypeRule(p, productType)
    ensures productType != "house" ==> (TypeRule(p, productType) <==> p.kind == productType)
  {
    p.kind == productType || (productType == "house" && p.capacity >= HouseCarveOutCapacity)
  }

  /** The three passes, strictest first. */
  datatype Pass = AllCriteria | IgnoreComfort | TypeAndCapacity

  predicate Qualifies(p: Product, pass: Pass, f: FormData, sizeInLiters: real)
    ensures Qualifies(p, pass, f, sizeInLiters) ==> TypeRule(p, ProductType(f)) && p.capacity as real >= sizeInLiters
  {
    TypeRule(p, ProductType(f)) &&
    (pass != TypeAndCapacity ==> p.accessibility == f.accessibility) &&
    (pass == AllCriteria ==> p.category == f.comfortLevel) &&
    p.capacity as real >= sizeInLiters
  }

  /** `catalog.filter(...)` for one pass: the qualifying products in catalog order. */
  function Filter(catalog: seq<Product>, pass: Pass, f: FormData, sizeInLiters: real): (r: seq<Product>)
    ensures |r| <= |catalog|
    ensures forall p :: p in r <==> p in catalog && Qualifies(p, pass, f, sizeInLiters)
  {
    if catalog == [] then []
    else
      (if Qualifies(catalog[0], pass, f, sizeInLiters) then [catalog[0]] else [])
      + Filter(catalog[1..], pass, f, sizeInLiters)
  }

  /** The first pass that leaves any candidate. */
  function SelectedPass(catalog: seq<Product>, f: FormData, sizeInLiters: real): (pass: Option<Pass>)
    ensures pass.Some? ==> Filter(catalog, pass.value, f, sizeInLiters) != []
  {
    if Filter(catalog, AllCriteria, f, sizeInLiters) != [] then Some(AllCriteria)
    else if Filter(catalog, IgnoreComfort, f, sizeInLiters) != [] then Some(IgnoreComfort)
    else if Filter(catalog, TypeAndCapacity, f, sizeInLiters) != [] then Some(TypeAndCapacity)
    else None
  }

  /** What the search returns for a size in cubic metres: the first product of least
      capacity among the candidates of the selected pass. */
  function SuitableProduct(catalog: seq<Product>, size: real, f: FormData): (r: Option<Product>)
    ensures r.Some? ==> r.value in catalog
    ensures r.None? <==> SelectedPass(catalog, f, size * 1000.0).None?
  {
    var sizeInLiters := size * 1000.0;
    match SelectedPass(catalog, f, sizeInLiters)
    case None => None
    case Some(pass) =>
      var c := Filter(catalog, pass, f, sizeInLiters);
      Some(c[SmallestIndex(c)])
  }

  /** A fresh array holding `s`, as `filter` returns one. */
  method ToArray(s: seq<Product>) returns (a: array<Product>)
    ensures fresh(a) && a[..] == s
  {
    a := new Product[|s|](i requires 0 <= i < |s| => s[i]);
  }

  /** `findSuitableProduct(size, formData)` over the catalog `catalog`; the catalog itself is
      not changed, the sort runs on the filtered copy. */
  method FindSuitableProduct(catalog: seq<Product>, size: real, f: FormData) returns (product: Option<Product>)
    ensures product == SuitableProduct(catalog, size, f)
    ensures product.Some? ==> product.value in catalog &&
                              Qualifies(product.value, TypeAndCapacity, f, size * 1000.0)
    ensures product.None? <==> forall p :: p in catalog ==> !Qualifies(p, TypeAndCapacity, f, size * 1000.0)
  {
    var sizeInLiters := size * 1000.0;
    var suitableProducts := ToArray(Filter(catalog, AllCriteria, f, sizeInLiters));
    if suitableProducts.Length == 0 {
      suitableProducts := ToArray(Filter(catalog, IgnoreComfort, f, sizeInLiters));
    }
    if suitableProducts.Length == 0 {
      suitableProducts := ToArray(Filter(catalog, TypeAndCapacity, f, sizeInLiters));
    }
    ghost var candidates := suitableProducts[..];
    ghost var pass := SelectedPass(catalog, f, sizeInLiters);
    assert candidates == if pass.Some? then Filter(catalog, pass.value, f, sizeInLiters) else [];
    SortInPlace(suitableProducts);
    if suitableProducts.Length > 0 {
      SortedHeadIsSuitable(catalog, size, f);
      product := Some(suitableProducts[0]);
    } else {
      product := None;
    }
    NothingQualifiesIffNone(catalog, size, f);
    SuitableQualifies(catalog, size, f);
  }

  /** The head of the sorted candidates of the selected pass is the product the search
      returns. */
  lemma SortedHeadIsSuitable(catalog: seq<Product>, size: real, f: FormData)
    requires SelectedPass(catalog, f, size * 1000.0).Some?
    ensures var c := Filter(catalog, SelectedPass(catalog, f, size * 1000.0).value, f, size * 1000.0);
            SortByCapacity(c) != [] && SuitableProduct(catalog, size, f) == Some(SortByCapacity(c)[0])
  {
    SortHead(Filter(catalog, SelectedPass(catalog, f, size * 1000.0).value, f, size * 1000.0));
  }

  /** Each pass admits everything the pass before it admits. */
  lemma PassesNested(p: Product, f: FormData, sizeInLiters: real)
    ensures Qualifies(p, AllCriteria, f, sizeInLiters) ==> Qualifies(p, IgnoreComfort, f, sizeInLiters)
    ensures Qualifies(p, IgnoreComfort, f, sizeInLiters) ==> Qualifies(p, TypeAndCapacity, f, sizeInLiters)
  {
  }

  /** A product found satisfies the type rule and holds the size, and comes from the
      catalog; it qualifies for the pass that found it. */
  lemma SuitableQualifies(catalog: seq<Product>, size: real, f: FormData)
    ensures var r := SuitableProduct(catalog, size, f);
            r.Some? ==> r.value in catalog && SelectedPass(catalog, f, size * 1000.0).Some? &&
                        Qualifies(r.value, SelectedPass(catalog, f, size * 1000.0).value, f, size * 1000.0) &&
                        Qualifies(r.value, TypeAndCapacity, f, size * 1000.0)
  {
  }

  /** No product is found exactly when no catalog product satisfies the loosest pass. */
  lemma NothingQualifiesIffNone(catalog: seq<Product>, size: real, f: FormData)
    ensures SuitableProduct(catalog, size, f).None? <==>
            forall p :: p in catalog ==> !Qualifies(p, TypeAndCapacity, f, size * 1000.0)
  {
    var sizeInLiters := size * 1000.0;
    if exists p :: p in catalog && Qualifies(p, TypeAndCapacity, f, sizeInLiters) {
      var p :| p in catalog && Qualifies(p, TypeAndCapacity, f, sizeInLiters);
      assert p in Filter(catalog, TypeAndCapacity, f, sizeInLiters);
    } else {
      forall pass: Pass ensures Filter(catalog, pass, f, sizeInLiters) == [] {
        var c := Filter(catalog, pass, f, sizeInLiters);
        if c != [] {
          assert c[0] in c;
          PassesNested(c[0], f, sizeInLiters);
        }
      }
    }
  }

  /** `filter` keeps catalog order: filtering a concatenation filters each part in turn. */
  lemma {:induction false} FilterAppend(a: seq<Product>, b: seq<Product>, pass: Pass, f: FormData, sizeInLiters: real)
    ensures Filter(a + b, pass, f, sizeInLiters) == Filter(a, pass, f, sizeInLiters) + Filter(b, pass, f, sizeInLiters)
  {
    if a == [] {
      assert a + b == b;
    } else {
      assert (a + b)[0] == a[0];
      assert (a + b)[1..] == a[1..] + b;
      FilterAppend(a[1..], b, pass, f, sizeInLiters);
    }
  }

  /** A one-product catalog keeps its product exactly when it qualifies. */
  lemma FilterOne(p: Product, pass: Pass, f: FormData, sizeInLiters: real)
    ensures Filter([p], pass, f, sizeInLiters) == if Qualifies(p, pass, f, sizeInLiters) then [p] else []
  {
  }

  /** The candidate the search picks from a pass's filter has no larger capacity than any
      catalog product that qualifies for the pass. */
  lemma FilterSmallestIsLeast(catalog: seq<Product>, pass: Pass, f: FormData, sizeInLiters: real, j: nat)
    requires Filter(catalog, pass, f, sizeInLiters) != []
    requires j < |catalog| && Qualifies(catalog[j], pass, f, sizeInLiters)
    ensures var c := Filter(catalog, pass, f, sizeInLiters); c[SmallestIndex(c)].capacity <= catalog[j].capacity
  {
    var c := Filter(catalog, pass, f, sizeInLiters);
    assert catalog[j] in c;
    var m :| 0 <= m < |c| && c[m] == catalog[j];
  }

  /** `catalog[i]` is the candidate the search picks from the pass's filter, and every
      earlier product that qualifies for the pass is larger. */
  predicate IsFirstSmallest(catalog: seq<Product>, pass: Pass, f: FormData, sizeInLiters: real, i: nat)
    requires Filter(catalog, pass, f, sizeInLiters) != []
  {
    var c := Filter(catalog, pass, f, sizeInLiters);
    i < |catalog| && Qualifies(catalog[i], pass, f, sizeInLiters) && c[SmallestIndex(c)] == catalog[i] &&
    forall j :: 0 <= j < i && Qualifies(catalog[j], pass, f, sizeInLiters) ==> catalog[j].capacity > catalog[i].capacity
  }

  /** Filtering a catalog with one more product at the end. */
  lemma FilterSnoc(init: seq<Product>, last: Product, pass: Pass, f: FormData, sizeInLiters: real)
    ensures Filter(init + [last], pass, f, sizeInLiters) ==
            Filter(init, pass, f, sizeInLiters) + (if Qualifies(last, pass, f, sizeInLiters) then [last] else [])
  {
    FilterAppend(init, [last], pass, f, sizeInLiters);
    FilterOne(last, pass, f, sizeInLiters);
  }

  /** A last product that does not qualify leaves the pick where it was. */
  lemma SkipLast(init: seq<Product>, last: Product, pass: Pass, f: FormData, sizeInLiters: real, i: nat)
    requires !Qualifies(last, pass, f, sizeInLiters)
    requires Filter(init, pass, f, sizeInLiters) != [] && IsFirstSmallest(init, pass, f, sizeInLiters, i)
    ensures Filter(init + [last], pass, f, sizeInLiters) != []
    ensures IsFirstSmallest(init + [last], pass, f, sizeInLiters, i)
  {
    FilterSnoc(init, last, pass, f, sizeInLiters);
    assert Filter(init + [last], pass, f, sizeInLiters) == Filter(init, pass, f, sizeInLiters) + [];
    assert Filter(init, pass, f, sizeInLiters) + [] == Filter(init, pass, f, sizeInLiters);
    assert forall j :: 0 <= j < |init| ==> (init + [last])[j] == init[j];
  }

  /** A qualifying last product after no qualifying one is the pick. */
  lemma OnlyLast(init: seq<Product>, last: Product, pass: Pass, f: FormData, sizeInLiters: real)
    requires Qualifies(last, pass, f, sizeInLiters) && Filter(init, pass, f, sizeInLiters) == []
    ensures Filter(init + [last], pass, f, sizeInLiters) != []
    ensures IsFirstSmallest(init + [last], pass, f, sizeInLiters, |init|)
  {
    FilterSnoc(init, last, pass, f, sizeInLiters);
    assert Filter(init + [last], pass, f, sizeInLiters) == [last];
    assert forall j :: 0 <= j < |init| ==> (init + [last])[j] == init[j] && init[j] in init;
  }

  /** A qualifying last product after earlier candidates, at least as large as the earlier
      pick: the pick stays. */
  lemma KeepEarlier(init: seq<Product>, last: Product, pass: Pass, f: FormData, sizeInLiters: real, i: nat)
    requires Qualifies(last, pass, f, sizeInLiters)
    requires Filter(init, pass, f, sizeInLiters) != [] && IsFirstSmallest(init, pass, f, sizeInLiters, i)
    requires last.capacity >= init[i].capacity
    ensures Filter(init + [last], pass, f, sizeInLiters) != []
    ensures IsFirstSmallest(init + [last], pass, f, sizeInLiters, i)
  {
    FilterSnoc(init, last, pass, f, sizeInLiters);
    var c, c' := Filter(init + [last], pass, f, sizeInLiters), Filter(init, pass, f, sizeInLiters);
    assert c == c' + [last] && c[..|c| - 1] == c';
    var k' := SmallestIndex(c');
    assert c'[k'] == init[i];
    assert SmallestIndex(c) == k';
    assert forall j :: 0 <= j < |init| ==> (init + [last])[j] == init[j];
  }

  /** A qualifying last product strictly smaller than the earlier pick becomes the pick. */
  lemma TakeLast(init: seq<Product>, last: Product, pass: Pass, f: FormData, sizeInLiters: real, i: nat)
    requires Qualifies(last, pass, f, sizeInLiters)
    requires Filter(init, pass, f, sizeInLiters) != [] && IsFirstSmallest(init, pass, f, sizeInLiters, i)
    requires last.capacity < init[i].capacity
    ensures Filter(init + [last], pass, f, sizeInLiters) != []
    ensures IsFirstSmallest(init + [last], pass, f, sizeInLiters, |init|)
  {
    FilterSnoc(init, last, pass, f, sizeInLiters);
    var c, c' := Filter(init + [last], pass, f, sizeInLiters), Filter(init, pass, f, sizeInLiters);
    assert c == c' + [last] && c[..|c| - 1] == c';
    assert c[SmallestIndex(c)] == last;
    forall j | 0 <= j < |init| && Qualifies((init + [last])[j], pass, f, sizeInLiters)
      ensures (init + [last])[j].capacity > last.capacity
    {
      assert (init + [last])[j] == init[j];
      FilterSmallestIsLeast(init, pass, f, sizeInLiters, j);
    }
  }

  /** The candidate the search picks from a pass's filter is, in catalog order, the first
      qualifying product of least capacity. */
  lemma {:induction false} FilterFirstSmallest(catalog: seq<Product>, pass: Pass, f: FormData, sizeInLiters: real)
    returns (i: nat)
    requires Filter(catalog, pass, f, sizeInLiters) != []
    ensures IsFirstSmallest(catalog, pass, f, sizeInLiters, i)
  {
    var init, last := catalog[..|catalog| - 1], catalog[|catalog| - 1];
    assert catalog == init + [last];
    FilterSnoc(init, last, pass, f, sizeInLiters);
    if !Qualifies(last, pass, f, sizeInLiters) {
      i := FilterFirstSmallest(init, pass, f, sizeInLiters);
      SkipLast(init, last, pass, f, sizeInLiters, i);
    } else if Filter(init, pass, f, sizeInLiters) == [] {
      i := |init|;
      OnlyLast(init, last, pass, f, sizeInLiters);
    } else {
      var i' := FilterFirstSmallest(init, pass, f, sizeInLiters);
      if last.capacity < init[i'].capacity {
        i := |init|;
        TakeLast(init, last, pass, f, sizeInLiters, i');
      } else {
        i := i';
        KeepEarlier(init, last, pass, f, sizeInLiters, i');
      }
    }
  }

  /** End to end: the product found is the catalog's first product of least capacity among
      those that qualify for the selected pass, as a stable sort of an order-keeping filter
      gives. */
  lemma SuitableIsFirstSmallest(catalog: seq<Product>, size: real, f: FormData)
    requires SuitableProduct(catalog, size, f).Some?
    ensures exists i :: 0 <= i < |catalog| && SuitableProduct(catalog, size, f) == Some(catalog[i]) &&
              Qualifies(catalog[i], SelectedPass(catalog, f, size * 1000.0).value, f, size * 1000.0) &&
              forall j :: 0 <= j < i && Qualifies(catalog[j], SelectedPass(catalog, f, size * 1000.0).value, f, size * 1000.0) ==>
                catalog[j].capacity > catalog[i].capacity
  {
    var sizeInLiters := size * 1000.0;
    var pass := SelectedPass(catalog, f, sizeInLiters).value;
    var c := Filter(catalog, pass, f, sizeInLiters);
    assert SuitableProduct(catalog, size, f) == Some(c[SmallestIndex(c)]);
    var i := FilterFirstSmallest(catalog, pass, f, sizeInLiters);
    assert IsFirstSmallest(catalog, pass, f, sizeInLiters, i);
  }

  /** The selected pass is the first that leaves a candidate: every stricter pass admits
      no catalog product. */
  lemma SelectedPassIsFirst(catalog: seq<Product>, f: FormData, sizeInLiters: real)
    ensures SelectedPass(catalog, f, sizeInLiters) != Some(AllCriteria) ==>
            forall p :: p in catalog ==> !Qualifies(p, AllCriteria, f, sizeInLiters)
    ensures SelectedPass(catalog, f, sizeInLiters) == Some(TypeAndCapacity) ==>
            forall p :: p in catalog ==> !Qualifies(p, IgnoreComfort, f, sizeInLiters)
    ensures SelectedPass(catalog, f, sizeInLiters).Some? ==>
            exists p :: p in catalog && Qualifies(p, SelectedPass(catalog, f, sizeInLiters).value, f, sizeInLiters)
  {
    var s := SelectedPass(catalog, f, sizeInLiters);
    if s.Some? {
      var c := Filter(catalog, s.value, f, sizeInLiters);
      assert c[0] in c;
    }
  }

  /** The product found has the least capacity among the candidates of its pass (ties go
      to catalog order: `SuitableIsFirstSmallest`). */
  lemma SuitableIsSmallest(catalog: seq<Product>, size: real, f: FormData, p: Product)
    requires SuitableProduct(catalog, size, f).Some?
    requires p in catalog && Qualifies(p, SelectedPass(catalog, f, size * 1000.0).value, f, size * 1000.0)
    ensures SuitableProduct(catalog, size, f).value.capacity <= p.capacity
  {
  }

  /** For a house request of at least the house floor, the type rule never excludes a
      product large enough: every product that holds the size is of at least 3000 litres. */
  lemma HouseRequestAcceptsAnyType(p: Product, f: FormData, size: real)
    requires NeedsHouseSystem(f) && size >= HouseFloor && p.capacity as real >= size * 1000.0
    ensures TypeRule(p, ProductType(f))
  {
  }

  /** For a garden request the carve-out never applies: only garden products pass. */
  lemma GardenRequestNeedsGardenType(p: Product, f: FormData)
    requires !NeedsHouseSystem(f)
    ensures TypeRule(p, ProductType(f)) <==> p.kind == "garden"
  {
  }
}
