/**
 * The catalog query behind GET /products (filter, sort, paginate) and the
 * decision behind POST /products (validate, create, answer 400, 409 or 201).
 */
module Catalog {
  import opened Types
  import opened Seqs
  import Store
  import Pricing

  // ---------------------------------------------------------------------------
  // Ratings

  /** The total of the review ratings. */
  function SumRatings(reviews: seq<Review>): (s: real)
    ensures reviews == [] ==> s == 0.0
  {
    if reviews == [] then 0.0 else reviews[0].rating + SumRatings(reviews[1..])
  }

  /** The sum taken from the right equals `reduce((sum, r) => sum + r.rating, 0)`, which adds from the left. */
  lemma {:induction false} SumRatingsIsLeftFold(reviews: seq<Review>, last: Review)
    ensures SumRatings(reviews + [last]) == SumRatings(reviews) + last.rating
  {
    if reviews != [] {
      assert (reviews + [last])[1..] == reviews[1..] + [last];
      SumRatingsIsLeftFold(reviews[1..], last);
    } else {
      assert [] + [last] == [last];
    }
  }

  /** The mean review rating, or 0 when there are no reviews. */
  function AverageRating(reviews: seq<Review>): (avg: real)
    ensures reviews == [] ==> avg == 0.0
    ensures reviews != [] ==> avg * |reviews| as real == SumRatings(reviews)
  {
    if |reviews| > 0 then SumRatings(reviews) / |reviews| as real else 0.0
  }

  lemma OneMore(m: real, x: real)
    ensures (m + 1.0) * x == m * x + x
  {
  }

  /** Ratings within [lo, hi] sum to between n * lo and n * hi. */
  lemma SumRatingsBounds(reviews: seq<Review>, lo: real, hi: real)
    requires forall r :: r in reviews ==> lo <= r.rating <= hi
    ensures |reviews| as real * lo <= SumRatings(reviews) <= |reviews| as real * hi
  {
    SumRatingsBoundsAt(reviews, lo, hi);
  }

  lemma {:induction false} SumRatingsBoundsAt(reviews: seq<Review>, lo: real, hi: real)
    requires forall i :: 0 <= i < |reviews| ==> lo <= reviews[i].rating <= hi
    ensures |reviews| as real * lo <= SumRatings(reviews) <= |reviews| as real * hi
  {
    if reviews != [] {
      var rest := reviews[1..];
      assert forall i :: 0 <= i < |rest| ==> rest[i] == reviews[i + 1];
      SumRatingsBoundsAt(rest, lo, hi);
      assert |reviews| as real == |rest| as real + 1.0;
      OneMore(|rest| as real, lo);
      OneMore(|rest| as real, hi);
    }
  }

  /** Dividing bounds by a positive count: `n * lo <= x * n <= n * hi` gives `lo <= x <= hi`. */
  lemma ScaleBounds(x: real, n: real, lo: real, hi: real)
    requires n > 0.0 && n * lo <= x * n <= n * hi
    ensures lo <= x <= hi
  {
    assert (x - lo) * n == x * n - n * lo;
    assert (hi - x) * n == n * hi - x * n;
  }

  /** A sum of n values within [lo, hi], divided by n, lies within [lo, hi]. */
  lemma MeanBounds(sum: real, n: real, lo: real, hi: real)
    requires n > 0.0 && n * lo <= sum <= n * hi
    ensures lo <= sum / n <= hi
  {
    assert sum / n * n == sum;
    ScaleBounds(sum / n, n, lo, hi);
  }

  /** Ratings within a range average within the same range. */
  lemma AverageRatingBounds(reviews: seq<Review>, lo: real, hi: real)
    requires reviews != []
    requires forall r :: r in reviews ==> lo <= r.rating <= hi
    ensures lo <= AverageRating(reviews) <= hi
  {
    SumRatingsBounds(reviews, lo, hi);
    MeanBounds(SumRatings(reviews), |reviews| as real, lo, hi);
  }

  // ---------------------------------------------------------------------------
  // Filtering

  /**
   * The filter callback: each filter applies only when it is truthy, so an empty
   * category or a price or rating of 0 restricts nothing.
   */
  predicate Matches(product: Product, filters: ProductFilters): (r: bool)
    ensures r && TruthyStr(filters.category) ==> product.category == filters.category
    ensures r && TruthyNum(filters.minPrice) ==> product.basePrice >= filters.minPrice.value
    ensures r && TruthyNum(filters.maxPrice) ==> product.basePrice <= filters.maxPrice.value
    ensures r && TruthyNum(filters.minRating) ==> AverageRating(product.reviews) >= filters.minRating.value
    ensures r && filters.inStock ==> product.stockQuantity > 0
    ensures (&& (TruthyStr(filters.category) ==> product.category == filters.category)
             && (TruthyNum(filters.minPrice) ==> product.basePrice >= filters.minPrice.value)
             && (TruthyNum(filters.maxPrice) ==> product.basePrice <= filters.maxPrice.value)
             && (TruthyNum(filters.minRating) ==> AverageRating(product.reviews) >= filters.minRating.value)
             && (filters.inStock ==> product.stockQuantity > 0)) ==> r
  {
    && !(TruthyStr(filters.category) && product.category != filters.category)
    && !(TruthyNum(filters.minPrice) && product.basePrice < filters.minPrice.value)
    && !(TruthyNum(filters.maxPrice) && product.basePrice > filters.maxPrice.value)
    && !(TruthyNum(filters.minRating) && AverageRating(product.reviews) < filters.minRating.value)
    && !(filters.inStock && product.stockQuantity <= 0)
  }

  /** filterProducts: the products that pass every supplied filter. */
  function FilterProducts(products: seq<Product>, filters: ProductFilters): (r: seq<Product>)
    ensures forall p :: p in r ==> p in products && Matches(p, filters)
    ensures forall p :: p in products && Matches(p, filters) ==> p in r
    ensures |r| <= |products|
  {
    if products == [] then []
    else if Matches(products[0], filters) then [products[0]] + FilterProducts(products[1..], filters)
    else FilterProducts(products[1..], filters)
  }

  /** Every occurrence of a passing product is kept, with nothing deduplicated. */
  lemma {:induction false} FilterKeepsEveryOccurrence(products: seq<Product>, filters: ProductFilters, p: Product)
    ensures multiset(FilterProducts(products, filters))[p] == if Matches(p, filters) then multiset(products)[p] else 0
  {
    if products != [] {
      FilterKeepsEveryOccurrence(products[1..], filters, p);
      assert products == [products[0]] + products[1..];
    }
  }

  lemma {:induction false} FilterIsSubsequence(products: seq<Product>, filters: ProductFilters)
    ensures Subsequence(FilterProducts(products, filters), products)
  {
    if products != [] {
      FilterIsSubsequence(products[1..], filters);
    }
  }

  /** With no truthy filter (all absent, empty, 0, or unparsable), every product is kept in order. */
  lemma {:induction false} NoFilterKeepsAll(products: seq<Product>, filters: ProductFilters)
    requires !TruthyStr(filters.category) && !TruthyNum(filters.minPrice) && !TruthyNum(filters.maxPrice)
    requires !TruthyNum(filters.minRating) && !filters.inStock
    ensures FilterProducts(products, filters) == products
  {
    if products != [] {
      NoFilterKeepsAll(products[1..], filters);
    }
  }

  /** Any positive minimum rating drops every product without reviews. */
  lemma PositiveMinRatingNeedsReviews(products: seq<Product>, filters: ProductFilters)
    requires filters.minRating.Some? && filters.minRating.value > 0.0
    ensures forall p :: p in FilterProducts(products, filters) ==> p.reviews != []
  {
  }

  /** The stock filter keeps only products with a positive stock quantity. */
  lemma InStockKeepsOnlyStocked(products: seq<Product>, filters: ProductFilters)
    requires filters.inStock
    ensures forall p :: p in FilterProducts(products, filters) ==> p.stockQuantity > 0
  {
  }

  /** A category filter is exact equality; products without a category are dropped. */
  lemma CategoryIsExact(products: seq<Product>, filters: ProductFilters)
    requires TruthyStr(filters.category)
    ensures forall p :: p in FilterProducts(products, filters) ==> p.category == filters.category
  {
  }

  // ---------------------------------------------------------------------------
  // Sorting

  /** String order used for identifiers: lexicographic on character codes, -1, 0 or 1 like localeCompare. */
  function StrCompare(a: string, b: string): (r: int)
    ensures -1 <= r <= 1
    ensures r == 0 <==> a == b
  {
    if a == [] then (if b == [] then 0 else -1)
    else if b == [] then 1
    else if a[0] < b[0] then -1
    else if a[0] > b[0] then 1
    else
      assert a == [a[0]] + a[1..] && b == [b[0]] + b[1..];
      StrCompare(a[1..], b[1..])
  }

  lemma {:induction false} StrCompareAntisymmetric(a: string, b: string)
    ensures StrCompare(b, a) == -StrCompare(a, b)
  {
    if a != [] && b != [] && a[0] == b[0] {
      StrCompareAntisymmetric(a[1..], b[1..]);
    }
  }

  lemma {:induction false} StrCompareTransitive(a: string, b: string, c: string)
    requires StrCompare(a, b) <= 0 && StrCompare(b, c) <= 0
    ensures StrCompare(a, c) <= 0
  {
    if a != [] && b != [] && c != [] && a[0] == b[0] && b[0] == c[0] {
      StrCompareTransitive(a[1..], b[1..], c[1..]);
    }
  }

  /** The price sort key: a truthy discounted price, else the base price. */
  function PriceKey(p: Product): (k: real)
    ensures !TruthyNum(p.discountedPrice) ==> k == p.basePrice
    ensures TruthyNum(p.discountedPrice) ==> k == p.discountedPrice.value
  {
    if TruthyNum(p.discountedPrice) then p.discountedPrice.value else p.basePrice
  }

  /** The sort field after defaulting: an absent sortBy sorts by "date". */
  function SortField(sortBy: string): (field: string)
    ensures field != ""
    ensures sortBy != "" ==> field == sortBy
    ensures sortBy == "" ==> field == "date"
  {
    if sortBy == "" then "date" else sortBy
  }

  /** Numeric sort key for the "price" and "rating" fields. */
  function NumericKey(p: Product, field: string): real {
    if field == "price" then PriceKey(p) else AverageRating(p.reviews)
  }

  /**
   * The comparator passed to sort: key difference for price and rating, string
   * comparison of identifiers for any other field; reversed unless the order is "asc".
   */
  function Comparator(a: Product, b: Product, sortBy: string, sortOrder: string): (c: real)
    ensures a == b ==> c == 0.0
    ensures var field := SortField(sortBy);
            (field == "price" || field == "rating") ==>
              (c <= 0.0 <==> if sortOrder == "asc" then NumericKey(a, field) <= NumericKey(b, field)
                             else NumericKey(b, field) <= NumericKey(a, field))
    ensures SortField(sortBy) != "price" && SortField(sortBy) != "rating" ==>
              && -1.0 <= c <= 1.0 && (c == 0.0 <==> a.id == b.id)
              && (c <= 0.0 <==> if sortOrder == "asc" then StrCompare(a.id, b.id) <= 0 else StrCompare(b.id, a.id) <= 0)
  {
    var field := SortField(sortBy);
    var asc := sortOrder == "asc";
    if field == "price" || field == "rating" then
      if asc then NumericKey(a, field) - NumericKey(b, field) else NumericKey(b, field) - NumericKey(a, field)
    else
      (if asc then StrCompare(a.id, b.id) else StrCompare(b.id, a.id)) as real
  }

  /** Swapping the two products negates the comparator, for every field and direction. */
  lemma ComparatorAntisymmetric(a: Product, b: Product, sortBy: string, sortOrder: string)
    ensures Comparator(b, a, sortBy, sortOrder) == -Comparator(a, b, sortBy, sortOrder)
  {
    StrCompareAntisymmetric(a.id, b.id);
  }

  /**
   * The sort key and the price the engine starts from differ only in the check
   * against the base price: the engine takes the smaller of the two.
   */
  lemma SeedPriceIsCappedPriceKey(p: Product)
    ensures Pricing.SeedPrice(p) == Min(PriceKey(p), p.basePrice)
  {
  }

  /** `a` may stand before `b`: the comparator does not ask to swap them. */
  predicate InOrder(a: Product, b: Product, sortBy: string, sortOrder: string) {
    Comparator(a, b, sortBy, sortOrder) <= 0.0
  }

  lemma InOrderTotal(a: Product, b: Product, sortBy: string, sortOrder: string)
    ensures InOrder(a, b, sortBy, sortOrder) || InOrder(b, a, sortBy, sortOrder)
  {
    StrCompareAntisymmetric(a.id, b.id);
  }

  lemma InOrderTransitive(a: Product, b: Product, c: Product, sortBy: string, sortOrder: string)
    requires InOrder(a, b, sortBy, sortOrder) && InOrder(b, c, sortBy, sortOrder)
    ensures InOrder(a, c, sortBy, sortOrder)
  {
    var field := SortField(sortBy);
    if field != "price" && field != "rating" {
      if sortOrder == "asc" {
        StrCompareTransitive(a.id, b.id, c.id);
      } else {
        StrCompareTransitive(c.id, b.id, a.id);
      }
    }
  }

  ghost predicate Sorted(s: seq<Product>, sortBy: string, sortOrder: string) {
    forall i :: 0 < i < |s| ==> InOrder(s[i - 1], s[i], sortBy, sortOrder)
  }

  /** Places `x` after every element it is not ordered before, keeping equal elements in arrival order. */
  function Insert(x: Product, s: seq<Product>, sortBy: string, sortOrder: string): (r: seq<Product>)
    ensures multiset(r) == multiset(s) + multiset{x}
    ensures |r| == |s| + 1
  {
    if s == [] then [x]
    else if InOrder(s[0], x, sortBy, sortOrder) then
      assert s == [s[0]] + s[1..];
      [s[0]] + Insert(x, s[1..], sortBy, sortOrder)
    else [x] + s
  }

  /** sortProducts: a sorted copy of the list; the list itself is a value and is not changed. */
  function SortProducts(products: seq<Product>, sortBy: string, sortOrder: string): (r: seq<Product>)
    ensures multiset(r) == multiset(products)
    ensures |r| == |products|
  {
    if products == [] then []
    else
      var n := |products| - 1;
      assert products == products[..n] + [products[n]];
      Insert(products[n], SortProducts(products[..n], sortBy, sortOrder), sortBy, sortOrder)
  }

  lemma {:induction false} InsertKeepsSorted(x: Product, s: seq<Product>, sortBy: string, sortOrder: string)
    requires Sorted(s, sortBy, sortOrder)
    ensures Sorted(Insert(x, s, sortBy, sortOrder), sortBy, sortOrder)
    ensures s != [] ==> Insert(x, s, sortBy, sortOrder)[0] in {x, s[0]}
  {
    if s != [] {
      if InOrder(s[0], x, sortBy, sortOrder) {
        assert Sorted(s[1..], sortBy, sortOrder);
        InsertKeepsSorted(x, s[1..], sortBy, sortOrder);
      } else {
        InOrderTotal(s[0], x, sortBy, sortOrder);
      }
    }
  }

  lemma {:induction false} SortProductsIsSorted(products: seq<Product>, sortBy: string, sortOrder: string)
    ensures Sorted(SortProducts(products, sortBy, sortOrder), sortBy, sortOrder)
  {
    if products != [] {
      var n := |products| - 1;
      var rest := SortProducts(products[..n], sortBy, sortOrder);
      assert SortProducts(products, sortBy, sortOrder) == Insert(products[n], rest, sortBy, sortOrder);
      SortProductsIsSorted(products[..n], sortBy, sortOrder);
      InsertKeepsSorted(products[n], rest, sortBy, sortOrder);
    }
  }

  /** Adjacent order extends to every pair, because the comparator is transitive. */
  lemma {:induction false} SortedAllPairs(s: seq<Product>, sortBy: string, sortOrder: string)
    requires Sorted(s, sortBy, sortOrder)
    ensures forall i, j :: 0 <= i < j < |s| ==> InOrder(s[i], s[j], sortBy, sortOrder)
  {
    if |s| > 1 {
      var n := |s| - 1;
      assert Sorted(s[..n], sortBy, sortOrder);
      SortedAllPairs(s[..n], sortBy, sortOrder);
      forall i | 0 <= i < n
        ensures InOrder(s[i], s[n], sortBy, sortOrder)
      {
        assert s[..n][i] == s[i];
        if i < n - 1 {
          assert s[..n][n - 1] == s[n - 1];
          InOrderTransitive(s[i], s[n - 1], s[n], sortBy, sortOrder);
        }
      }
    }
  }

  /**
   * Sorting by price or rating orders the whole result by that numeric key:
   * non-decreasing for "asc", non-increasing for any other order.
   */
  lemma NumericSortIsMonotone(products: seq<Product>, sortBy: string, sortOrder: string)
    requires sortBy == "price" || sortBy == "rating"
    ensures var r := SortProducts(products, sortBy, sortOrder);
            forall i, j :: 0 <= i < j < |r| ==>
              if sortOrder == "asc" then NumericKey(r[i], sortBy) <= NumericKey(r[j], sortBy)
              else NumericKey(r[i], sortBy) >= NumericKey(r[j], sortBy)
  {
    SortProductsIsSorted(products, sortBy, sortOrder);
    SortedAllPairs(SortProducts(products, sortBy, sortOrder), sortBy, sortOrder);
  }

  /**
   * Any other field, "date" and the default included, orders by identifier:
   * ascending for "asc", descending otherwise.
   */
  lemma IdSortIsMonotone(products: seq<Product>, sortBy: string, sortOrder: string)
    requires SortField(sortBy) != "price" && SortField(sortBy) != "rating"
    ensures var r := SortProducts(products, sortBy, sortOrder);
            forall i, j :: 0 <= i < j < |r| ==>
              if sortOrder == "asc" then StrCompare(r[i].id, r[j].id) <= 0
              else StrCompare(r[j].id, r[i].id) <= 0
  {
    SortProductsIsSorted(products, sortBy, sortOrder);
    SortedAllPairs(SortProducts(products, sortBy, sortOrder), sortBy, sortOrder);
  }

  /** Sorting two products keeps them when they are in order and swaps them otherwise. */
  lemma SortTwo(x: Product, y: Product, sortBy: string, sortOrder: string)
    ensures SortProducts([x, y], sortBy, sortOrder)
            == if InOrder(x, y, sortBy, sortOrder) then [x, y] else [y, x]
  {
    assert [x, y][..1] == [x];
    assert SortProducts([x], sortBy, sortOrder) == [x];
    assert [x][1..] == [];
  }

  /** Sorting three products inserts the last one into the sorted first two. */
  lemma SortThree(x: Product, y: Product, z: Product, sortBy: string, sortOrder: string)
    ensures SortProducts([x, y, z], sortBy, sortOrder)
            == Insert(z, SortProducts([x, y], sortBy, sortOrder), sortBy, sortOrder)
  {
    assert [x, y, z][..2] == [x, y];
  }

  /** Inserting into two sorted products: in front, between, or behind them. */
  lemma InsertIntoTwo(z: Product, x: Product, y: Product, sortBy: string, sortOrder: string)
    ensures Insert(z, [x, y], sortBy, sortOrder)
            == if !InOrder(x, z, sortBy, sortOrder) then [z, x, y]
               else if !InOrder(y, z, sortBy, sortOrder) then [x, z, y]
               else [x, y, z]
  {
    assert [x, y][0] == x && [x, y][1..] == [y];
    if InOrder(x, z, sortBy, sortOrder) {
      assert Insert(z, [x, y], sortBy, sortOrder) == [x] + Insert(z, [y], sortBy, sortOrder);
      assert [y][0] == y && [y][1..] == [];
      if InOrder(y, z, sortBy, sortOrder) {
        assert Insert(z, [y], sortBy, sortOrder) == [y] + [z];
      } else {
        assert Insert(z, [y], sortBy, sortOrder) == [z] + [y];
      }
    } else {
      assert Insert(z, [x, y], sortBy, sortOrder) == [z] + [x, y];
    }
  }

  /** Without pre-set discounted prices, the price order compares base prices. */
  lemma PriceOrderOfBasePrices(x: Product, y: Product, sortOrder: string)
    requires x.discountedPrice.None? && y.discountedPrice.None?
    ensures InOrder(x, y, "price", sortOrder)
            <==> (if sortOrder == "asc" then x.basePrice <= y.basePrice else y.basePrice <= x.basePrice)
  {
    assert SortField("price") == "price";
  }

  /** Base prices 100, 200 and 50 sort to 50, 100, 200 in ascending order. */
  lemma PriceSortAscendingExample(a: Product, b: Product, c: Product)
    requires a.discountedPrice.None? && b.discountedPrice.None? && c.discountedPrice.None?
    requires a.basePrice == 100.0 && b.basePrice == 200.0 && c.basePrice == 50.0
    ensures SortProducts([a, b, c], "price", "asc") == [c, a, b]
  {
    PriceOrderOfBasePrices(a, b, "asc");
    PriceOrderOfBasePrices(a, c, "asc");
    SortTwo(a, b, "price", "asc");
    SortThree(a, b, c, "price", "asc");
    InsertIntoTwo(c, a, b, "price", "asc");
  }

  /** The same three products sort to 200, 100, 50 in descending order. */
  lemma PriceSortDescendingExample(a: Product, b: Product, c: Product)
    requires a.discountedPrice.None? && b.discountedPrice.None? && c.discountedPrice.None?
    requires a.basePrice == 100.0 && b.basePrice == 200.0 && c.basePrice == 50.0
    ensures SortProducts([a, b, c], "price", "desc") == [b, a, c]
  {
    PriceOrderOfBasePrices(a, b, "desc");
    PriceOrderOfBasePrices(b, c, "desc");
    PriceOrderOfBasePrices(a, c, "desc");
    SortTwo(a, b, "price", "desc");
    SortThree(a, b, c, "price", "desc");
    InsertIntoTwo(c, b, a, "price", "desc");
  }

  // ---------------------------------------------------------------------------
  // Pagination

  /** `Number(param) || fallback`: an absent, unparsable or zero parameter takes the fallback. */
  function OrDefault(param: Option<nat>, fallback: nat): (r: nat)
    ensures param.Some? && param.value != 0 ==> r == param.value
    ensures (param.None? || param.value == 0) ==> r == fallback
  {
    if param.Some? && param.value != 0 then param.value else fallback
  }

  /** Array.prototype.slice for non-negative bounds: the bounds are clamped to the list. */
  function Slice(s: seq<Product>, start: nat, end: nat): (r: seq<Product>)
    ensures |r| == (if end <= start || start >= |s| then 0 else (if end <= |s| then end else |s|) - start)
    ensures forall k :: 0 <= k < |r| ==> start + k < |s| && r[k] == s[start + k]
    ensures multiset(r) <= multiset(s)
  {
    if end <= start || start >= |s| then []
    else
      var stop := if end <= |s| then end else |s|;
      assert s == s[..start] + s[start..stop] + s[stop..];
      s[start..stop]
  }

  /** The first index of a page. */
  function PageStart(page: nat, limit: nat): nat
    requires page >= 1
  {
    (page - 1) * limit
  }

  /** `slice((page - 1) * limit, (page - 1) * limit + limit)`: at most `limit` products, none past the end. */
  function PageSlice(s: seq<Product>, page: nat, limit: nat): (r: seq<Product>)
    requires page >= 1 && limit >= 1
    ensures |r| <= limit
    ensures PageStart(page, limit) >= |s| ==> r == []
    ensures PageStart(page, limit) < |s| ==>
              |r| == if PageStart(page, limit) + limit <= |s| then limit else |s| - PageStart(page, limit)
    ensures forall k :: 0 <= k < |r| ==> PageStart(page, limit) + k < |s| && r[k] == s[PageStart(page, limit) + k]
    ensures multiset(r) <= multiset(s)
  {
    var start := PageStart(page, limit);
    Slice(s, start, start + limit)
  }

  /** `Math.ceil(total / limit)`. */
  function TotalPages(total: nat, limit: nat): (r: nat)
    requires limit >= 1
    ensures (r - 1) * limit < total <= r * limit
  {
    (total + limit - 1) / limit
  }

  /** The pages 1..totalPages are exactly the non-empty ones. */
  lemma PageIsNonEmptyIffWithinTotal(s: seq<Product>, page: nat, limit: nat)
    requires page >= 1 && limit >= 1
    ensures PageSlice(s, page, limit) != [] <==> page <= TotalPages(|s|, limit)
  {
    var t := TotalPages(|s|, limit);
    assert PageSlice(s, page, limit) != [] <==> PageStart(page, limit) < |s|;
    if page <= t {
      ScaleMonotone(page - 1, t - 1, limit);
    } else {
      ScaleMonotone(t, page - 1, limit);
    }
  }

  lemma ScaleMonotone(a: int, b: int, c: nat)
    requires a <= b
    ensures a * c <= b * c
  {
  }

  /** Every product is on exactly the page and position its index says. */
  lemma EveryIndexIsOnItsPage(s: seq<Product>, limit: nat, k: nat)
    requires limit >= 1 && k < |s|
    ensures var page := k / limit + 1;
            k % limit < |PageSlice(s, page, limit)| && PageSlice(s, page, limit)[k % limit] == s[k]
  {
    var page := k / limit + 1;
    assert (page - 1) * limit + k % limit == k;
  }

  // ---------------------------------------------------------------------------
  // GET /products

  /** Query parameters after Number(): None for an absent, empty or unparsable value. */
  datatype Query = Query(
    category: Option<string>,
    minPrice: Option<real>,
    maxPrice: Option<real>,
    minRating: Option<real>,
    inStock: Option<string>,
    page: Option<nat>,
    limit: Option<nat>,
    sortBy: Option<string>,
    sortOrder: Option<string>)

  datatype ProductPage = ProductPage(products: seq<Product>, total: nat, page: nat, totalPages: nat)

  function ParseFilters(q: Query): (f: ProductFilters)
    ensures f.inStock <==> q.inStock == Some("true")
    ensures f.category != Some("")
    ensures f.category.Some? ==> f.category == q.category
    ensures TruthyStr(f.category) <==> TruthyStr(q.category)
    ensures f.minPrice == q.minPrice && f.maxPrice == q.maxPrice && f.minRating == q.minRating
  {
    ProductFilters(
      if q.category == Some("") then None else q.category,
      q.minPrice, q.maxPrice, q.minRating,
      q.inStock == Some("true"))
  }

  /** The successful answer of GET /products (a failing file read is not part of this model). */
  function ListProducts(all: seq<Product>, q: Query): (resp: ApiResponse<ProductPage>)
    ensures resp.status == 200 && resp.success && resp.data.Some?
    ensures var d := resp.data.value;
            && d.total == |FilterProducts(all, ParseFilters(q))|
            && d.page == OrDefault(q.page, 1) && d.page >= 1 && |d.products| <= OrDefault(q.limit, 10)
            && d.totalPages == TotalPages(d.total, OrDefault(q.limit, 10))
  {
    var products := FilterProducts(all, ParseFilters(q));
    var sorted := SortProducts(products, q.sortBy.GetOr(""), q.sortOrder.GetOr(""));
    var page := OrDefault(q.page, 1);
    var limit := OrDefault(q.limit, 10);
    var paginated := PageSlice(sorted, page, limit);
    ApiResponse(200, true, Some(ProductPage(paginated, |sorted|, page, TotalPages(|sorted|, limit))), None, None)
  }

  /** A listed page holds only products of the store that pass the filters, each at most as often as stored. */
  lemma ListedProductsPassFilters(all: seq<Product>, q: Query)
    ensures var d := ListProducts(all, q).data.value;
            && multiset(d.products) <= multiset(all)
            && forall p :: p in d.products ==> Matches(p, ParseFilters(q))
  {
    var filters := ParseFilters(q);
    var products := FilterProducts(all, filters);
    var sorted := SortProducts(products, q.sortBy.GetOr(""), q.sortOrder.GetOr(""));
    var paginated := ListProducts(all, q).data.value.products;
    assert paginated == PageSlice(sorted, OrDefault(q.page, 1), OrDefault(q.limit, 10));
    FilterSubMultiset(all, filters);
    assert multiset(paginated) <= multiset(sorted) == multiset(products);
    forall p | p in paginated
      ensures Matches(p, filters)
    {
      assert p in multiset(paginated);
      assert p in multiset(products);
    }
  }

  /**
   * The listed page is the page-th slice of the filtered, sorted list:
   * from (page - 1) * limit on, `limit` products or the rest, and none past the end.
   */
  lemma ListedPageIsTheSlice(all: seq<Product>, q: Query)
    ensures var d := ListProducts(all, q).data.value;
            var sorted := SortProducts(FilterProducts(all, ParseFilters(q)), q.sortBy.GetOr(""), q.sortOrder.GetOr(""));
            var limit := OrDefault(q.limit, 10);
            var start := PageStart(d.page, limit);
            && d.total == |sorted|
            && |d.products| == (if start >= d.total then 0 else if start + limit <= d.total then limit else d.total - start)
            && forall k :: 0 <= k < |d.products| ==> start + k < |sorted| && d.products[k] == sorted[start + k]
  {
    var sorted := SortProducts(FilterProducts(all, ParseFilters(q)), q.sortBy.GetOr(""), q.sortOrder.GetOr(""));
    var d := ListProducts(all, q).data.value;
    assert d.products == PageSlice(sorted, OrDefault(q.page, 1), OrDefault(q.limit, 10));
  }

  /** A listed page is in the order the query asks for. */
  lemma ListedProductsAreSorted(all: seq<Product>, q: Query)
    ensures Sorted(ListProducts(all, q).data.value.products, q.sortBy.GetOr(""), q.sortOrder.GetOr(""))
  {
    var sortBy, sortOrder := q.sortBy.GetOr(""), q.sortOrder.GetOr("");
    var sorted := SortProducts(FilterProducts(all, ParseFilters(q)), sortBy, sortOrder);
    SortProductsIsSorted(FilterProducts(all, ParseFilters(q)), sortBy, sortOrder);
    var page := ListProducts(all, q).data.value.products;
    assert page == PageSlice(sorted, OrDefault(q.page, 1), OrDefault(q.limit, 10));
  }

  lemma {:induction false} FilterSubMultiset(products: seq<Product>, filters: ProductFilters)
    ensures multiset(FilterProducts(products, filters)) <= multiset(products)
  {
    if products != [] {
      FilterSubMultiset(products[1..], filters);
      assert products == [products[0]] + products[1..];
    }
  }

  /** Unparsable or missing parameters restrict nothing: page 1 holds every product when there are at most 10. */
  lemma InvalidParamsListEverything(all: seq<Product>, q: Query)
    requires q.category.None? && q.minPrice.None? && q.maxPrice.None? && q.minRating.None? && q.inStock.None?
    requires q.page.None? && q.limit.None? && |all| <= 10
    ensures var d := ListProducts(all, q).data.value;
            d.page == 1 && d.total == |all| && multiset(d.products) == multiset(all)
            && d.totalPages == (if all == [] then 0 else 1)
  {
    NoFilterKeepsAll(all, ParseFilters(q));
    var sorted := SortProducts(all, q.sortBy.GetOr(""), q.sortOrder.GetOr(""));
    assert PageSlice(sorted, 1, 10) == sorted[0..|sorted|];
    assert sorted[0..|sorted|] == sorted;
  }

  /** Three products with a limit of 2: two on page 1, one on page 2, two pages in all. */
  lemma ThreeProductsTwoPerPage(all: seq<Product>, q: Query)
    requires |all| == 3
    requires q.category.None? && q.minPrice.None? && q.maxPrice.None? && q.minRating.None? && q.inStock.None?
    requires q.page == Some(1) && q.limit == Some(2)
    ensures var d := ListProducts(all, q).data.value;
            |d.products| == 2 && d.page == 1 && d.total == 3 && d.totalPages == 2
    ensures var d := ListProducts(all, q.(page := Some(2))).data.value;
            |d.products| == 1 && d.page == 2 && d.totalPages == 2
  {
    NoFilterKeepsAll(all, ParseFilters(q));
    NoFilterKeepsAll(all, ParseFilters(q.(page := Some(2))));
  }

  // ---------------------------------------------------------------------------
  // POST /products

  /** A parsed JSON request body. */
  datatype Json = JNull | JBool(b: bool) | JNum(n: real) | JStr(s: string) | JArr(items: seq<Json>) | JObj(fields: map<string, Json>)

  predicate IsStr(o: map<string, Json>, key: string) { key in o && o[key].JStr? }
  predicate IsNum(o: map<string, Json>, key: string) { key in o && o[key].JNum? }
  predicate IsArr(o: map<string, Json>, key: string) { key in o && o[key].JArr? }

  /** isValidProduct: the duck-typed shape check on the body. */
  predicate IsValidProduct(data: Json): (r: bool)
    ensures r ==> data.JObj?
    ensures r ==> && IsStr(data.fields, "id") && IsStr(data.fields, "title") && IsStr(data.fields, "description")
                  && IsStr(data.fields, "currency")
    ensures r ==> IsArr(data.fields, "images") && IsArr(data.fields, "paymentMethods")
    ensures r ==> IsNum(data.fields, "basePrice") && IsNum(data.fields, "stockQuantity")
    ensures r ==> "seller" in data.fields && data.fields["seller"].JObj? && IsStr(data.fields["seller"].fields, "name")
  {
    && data.JObj?
    && IsStr(data.fields, "id")
    && IsStr(data.fields, "title")
    && IsStr(data.fields, "description")
    && IsArr(data.fields, "images")
    && IsNum(data.fields, "basePrice")
    && IsStr(data.fields, "currency")
    && IsArr(data.fields, "paymentMethods")
    && "seller" in data.fields && data.fields["seller"].JObj?
    && IsStr(data.fields["seller"].fields, "name")
    && IsNum(data.fields, "stockQuantity")
  }

  function StrArray(s: seq<string>): Json {
    JArr(seq(|s|, i requires 0 <= i < |s| => JStr(s[i])))
  }

  function WithOptional(o: map<string, Json>, key: string, v: Option<Json>): map<string, Json> {
    if v.Some? then o[key := v.value] else o
  }

  function OptStr(v: Option<string>): Option<Json> { if v.Some? then Some(JStr(v.value)) else None }
  function OptNum(v: Option<real>): Option<Json> { if v.Some? then Some(JNum(v.value)) else None }
  function OptInt(v: Option<int>): Option<Json> { if v.Some? then Some(JNum(v.value as real)) else None }
  function OptStrArray(v: Option<seq<string>>): Option<Json> { if v.Some? then Some(StrArray(v.value)) else None }

  function ReviewToJson(r: Review): Json {
    JObj(map["id" := JStr(r.id), "userId" := JStr(r.userId), "userName" := JStr(r.userName),
             "rating" := JNum(r.rating), "comment" := JStr(r.comment), "date" := JStr(r.date),
             "verified" := JBool(r.verified)])
  }

  function SellerToJson(s: Seller): Json {
    var base := map["name" := JStr(s.name), "rating" := JNum(s.rating), "location" := JStr(s.location),
                    "contact" := JStr(s.contact)];
    JObj(WithOptional(WithOptional(base, "totalSales", OptInt(s.totalSales)), "memberSince", OptStr(s.memberSince)))
  }

  function ShippingToJson(s: ShippingInfo): Json {
    var base := map["freeShipping" := JBool(s.freeShipping), "estimatedDays" := JNum(s.estimatedDays as real)];
    JObj(WithOptional(WithOptional(base, "cost", OptNum(s.cost)), "methods", OptStrArray(s.methods)))
  }

  function ConditionName(c: Condition): string {
    match c
    case New => "new"
    case Used => "used"
    case Refurbished => "refurbished"
  }

  /** The fields every product carries. */
  function RequiredFields(p: Product): map<string, Json> {
    map[
      "id" := JStr(p.id), "title" := JStr(p.title), "description" := JStr(p.description),
      "images" := StrArray(p.images), "basePrice" := JNum(p.basePrice), "currency" := JStr(p.currency),
      "paymentMethods" := StrArray(p.paymentMethods), "seller" := SellerToJson(p.seller),
      "specifications" := JObj(map k | k in p.specifications :: JStr(p.specifications[k])),
      "reviews" := JArr(seq(|p.reviews|, i requires 0 <= i < |p.reviews| => ReviewToJson(p.reviews[i]))),
      "stockQuantity" := JNum(p.stockQuantity as real), "shippingInfo" := ShippingToJson(p.shippingInfo)]
  }

  /** The optional fields that are present; absent ones are omitted from the text. */
  function OptionalFields(p: Product): map<string, Json> {
    var condition := if p.condition.Some? then Some(JStr(ConditionName(p.condition.value))) else None;
    var m := WithOptional(map[], "discountedPrice", OptNum(p.discountedPrice));
    var m := WithOptional(m, "discountPercentage", OptNum(p.discountPercentage));
    var m := WithOptional(m, "category", OptStr(p.category));
    var m := WithOptional(m, "condition", condition);
    var m := WithOptional(m, "warranty", OptStr(p.warranty));
    WithOptional(m, "tags", OptStrArray(p.tags))
  }

  /** The JSON text of a product (JSON.stringify): its required fields and the optional ones it has. */
  function ProductToJson(p: Product): Json {
    JObj(OptionalFields(p) + RequiredFields(p))
  }

  /** Extra fields never spoil a valid body: the check reads only the keys it names. */
  lemma ExtraFieldsKeepValidity(extra: map<string, Json>, fields: map<string, Json>)
    requires IsValidProduct(JObj(fields))
    ensures IsValidProduct(JObj(extra + fields))
  {
  }

  lemma RequiredFieldsAreValid(p: Product)
    ensures IsValidProduct(JObj(RequiredFields(p)))
  {
  }

  /** Every well-typed product, sent as JSON, passes the shape check. */
  lemma SerializedProductIsValid(p: Product)
    ensures IsValidProduct(ProductToJson(p))
  {
    RequiredFieldsAreValid(p);
    ExtraFieldsKeepValidity(OptionalFields(p), RequiredFields(p));
  }

  /** The keys the shape check reads. */
  const CheckedKeys: set<string> :=
    {"id", "title", "description", "images", "basePrice", "currency", "paymentMethods", "seller", "stockQuantity"}

  /** A body that lacks any of the checked fields is refused. */
  lemma MissingRequiredKeyIsInvalid(body: Json, key: string)
    requires key in CheckedKeys
    requires body.JObj? && key !in body.fields
    ensures !IsValidProduct(body)
  {
  }

  /** A checked field of the wrong JSON type is refused. */
  lemma WrongTypeIsInvalid(body: Json, key: string)
    requires body.JObj? && key in body.fields
    requires || (key in {"id", "title", "description", "currency"} && !body.fields[key].JStr?)
             || (key in {"images", "paymentMethods"} && !body.fields[key].JArr?)
             || (key in {"basePrice", "stockQuantity"} && !body.fields[key].JNum?)
             || (key == "seller" && !body.fields[key].JObj?)
    ensures !IsValidProduct(body)
  {
  }

  /** An object that passes the ten checks is valid, whatever else it holds. */
  lemma CheckedShapeSuffices(body: Json)
    requires body.JObj?
    requires IsStr(body.fields, "id") && IsStr(body.fields, "title") && IsStr(body.fields, "description")
    requires IsStr(body.fields, "currency")
    requires IsArr(body.fields, "images") && IsArr(body.fields, "paymentMethods")
    requires IsNum(body.fields, "basePrice") && IsNum(body.fields, "stockQuantity")
    requires "seller" in body.fields && body.fields["seller"].JObj? && IsStr(body.fields["seller"].fields, "name")
    ensures IsValidProduct(body)
  {
  }

  /** Only the checked keys decide validity: objects that agree on them are both valid or both invalid. */
  lemma OnlyCheckedKeysMatter(a: Json, b: Json)
    requires a.JObj? && b.JObj?
    requires forall k :: k in CheckedKeys ==> (k in a.fields <==> k in b.fields)
    requires forall k :: k in CheckedKeys && k in a.fields ==> a.fields[k] == b.fields[k]
    ensures IsValidProduct(a) <==> IsValidProduct(b)
  {
  }

  /** A body that is not a JSON object, or lacks a title, is refused. */
  lemma NonObjectOrMissingTitleIsInvalid(body: Json)
    requires !body.JObj? || "title" !in body.fields
    ensures !IsValidProduct(body)
  {
  }

  /** The body and the product handed to create are the same object: their checked fields agree. */
  predicate Describes(body: Json, product: Product) {
    IsValidProduct(body) ==>
      && body.fields["id"] == JStr(product.id)
      && body.fields["title"] == JStr(product.title)
      && body.fields["description"] == JStr(product.description)
      && body.fields["basePrice"] == JNum(product.basePrice)
      && body.fields["currency"] == JStr(product.currency)
      && body.fields["seller"].fields["name"] == JStr(product.seller.name)
      && body.fields["stockQuantity"] == JNum(product.stockQuantity as real)
  }

  /** POST /products: 400 without touching the store, 409 when create refuses or the write fails, else 201 echoing the body. */
  method Post(store: Store.ProductStore, body: Json, product: Product, writeSucceeds: bool)
    returns (resp: ApiResponse<Json>)
    requires Describes(body, product)
    modifies store
    ensures !IsValidProduct(body) ==>
              resp == ApiResponse(400, false, None, Some("Invalid product data"), None)
              && store.products == old(store.products)
    ensures IsValidProduct(body) ==>
              (resp.status == 201 <==> Store.FindIndex(old(store.products), product.id).None? && writeSucceeds)
    ensures resp.status == 201 ==>
              resp == ApiResponse(201, true, Some(body), None, Some("Product created successfully"))
              && store.products == old(store.products) + [product]
    ensures IsValidProduct(body) && resp.status != 201 ==>
              resp == ApiResponse(409, false, None, Some("Product with this ID already exists or failed to create"), None)
              && store.products == old(store.products)
  {
    if !IsValidProduct(body) {
      return ApiResponse(400, false, None, Some("Invalid product data"), None);
    }
    var success := store.CreateProduct(product, writeSucceeds);
    if !success {
      return ApiResponse(409, false, None, Some("Product with this ID already exists or failed to create"), None);
    }
    resp := ApiResponse(201, true, Some(body), None, Some("Product created successfully"));
  }
}
