# Product catalog core, modelled in Dafny

This project models the non-UI logic of a small e-commerce product catalog.
It covers four parts.

- **Pricing engine** (`Pricing.dfy`). It seeds a price from the product's own
  pre-set discounted price. It then applies every active discount rule in the
  order given, each on the running price. It reports the original price, the
  final price floored at 0, the total discount, the rounded percentage and the
  rules that took something off.
- **Catalog query** (`Catalog.dfy`). It covers the query behind
  `GET /products`: AND-combined optional filters, a sort by price, rating or
  identifier, and pagination with `total` and `totalPages`. It also covers the
  `POST /products` decision: shape check, create, then 400, 409 or 201.
- **Product store** (`Store.dfy`). It looks products up by identifier, creates
  them (duplicate identifiers are refused) and updates them by shallow merge.
  The store is a class whose `products` field is the persisted list. The
  outcome of writing the file is passed in as a boolean.
- **Savings helper** (`Savings.dfy`). It is `calculateSavings`, which shares
  the pricing engine's rounding rule.

`Types.dfy` transcribes the records of `src/types/index.ts`. It also holds the
bits of JavaScript number semantics the core relies on:

- truthiness of an optional number or string (undefined, 0 and "" are falsy);
- `Math.round`, written as `Floor(x + 1/2)`.

Prices and ratings are `real`. Stock quantities are `int`.

`Seqs.dfy` defines order-preserving subsequences.

The model follows the code in these details:

- The price sort key is `discountedPrice || basePrice`. It does not check that
  the discounted price is below the base price, unlike the seed price of the
  pricing engine.
- A `discountedPrice` of 0 counts as absent, both in the sort key and in the
  seed price.
- A sort order other than `"asc"` sorts descending.
- A sort field other than `price` or `rating` compares identifiers.

## Model

| member | source | states |
|---|---|---|
| `Types.TruthyNum` | src/lib/discountCalculator.ts:8 | an optional number is falsy exactly when it is missing or 0, and truthy only when present |
| `Types.TruthyStr` | src/app/api/products/route.ts:102 | an optional string is falsy exactly when it is missing or empty, and truthy only when present |
| `Types.Round` | src/lib/utils.ts:15 | Math.round: the result lies in (x - 1/2, x + 1/2], so halves round up |
| `Pricing.ApplicableDiscounts` | src/lib/discountCalculator.ts:32-34 | a rule is kept if and only if it is in the input and active; never more rules than given |
| `Pricing.ApplicableKeepsEveryOccurrence` | src/lib/discountCalculator.ts:33 | each active rule occurs in the result exactly as often as in the input, and an inactive one never: nothing is deduplicated |
| `Pricing.ApplicableIsSubsequence` | src/lib/discountCalculator.ts:33 | the active rules keep their input order (order-preserving subsequence) |
| `Pricing.ApplicableIgnoresProduct` | src/lib/discountCalculator.ts:32-34 | which rules apply never depends on the product; conditions are not evaluated |
| `Pricing.ApplyDiscount` | src/lib/discountCalculator.ts:36-47 | percentage: amount times 100 equals price times value; fixed: the smaller of value and price, never above either; conditional: 0 |
| `Pricing.AmountWithinPrice` | src/lib/discountCalculator.ts:36-47 | on a non-negative price, a fixed rule or a rule of at most 100 % never takes more than the price |
| `Pricing.SeedPrice` | src/lib/discountCalculator.ts:8-10 | the seed is at most the base price; it differs from the base price exactly when the pre-set price is truthy and below the base price, and then it is that price |
| `Pricing.Compound` | src/lib/discountCalculator.ts:14-21 | running price plus accumulated discount equals the starting price; the discount is non-negative; applied rules come from the input |
| `Pricing.AppliedIsSubsequence` | src/lib/discountCalculator.ts:12-20 | the applied rules are an order-preserving subsequence of the rules run |
| `Pricing.AppliedRulesSuffice` | src/lib/discountCalculator.ts:14-21 | running only the applied rules over the same price gives the same price, total and list, so skipped rules changed nothing |
| `Pricing.AppliedRulesEachTake` | src/lib/discountCalculator.ts:14-21 | each recorded rule took a positive amount from the price the rules before it left, so a rule that takes 0 or less is never reported as applied |
| `Pricing.CompoundStaysNonNegative` | src/lib/discountCalculator.ts:14-21 | with no percentage rule above 100, a non-negative price never goes below 0 |
| `Pricing.PercentOf` | src/lib/discountCalculator.ts:27 | 0 when no discount was taken; otherwise the nearest integer to total / base * 100, halves up |
| `Pricing.PercentInRange` | src/lib/discountCalculator.ts:27 | a total between 0 and a positive base price gives a percentage between 0 and 100 |
| `Pricing.Calculation` | src/lib/discountCalculator.ts:4-30 | original price is the base price; final price is max(0, base - amount) and never negative; amount is non-negative; the percentage follows the rounding rule; applied rules are active input rules |
| `Pricing.AppliedDiscountsAreSubsequence` | src/lib/discountCalculator.ts:12-20 | the reported applied rules are an order-preserving subsequence of the active rules |
| `Pricing.NoActiveRulesPassThrough` | src/lib/discountCalculator.ts:6-25 | with no active rule, the final price is the seed floored at 0, the amount is base - seed, and nothing is applied |
| `Pricing.SensibleDataStaysInRange` | src/lib/discountCalculator.ts:23-27 | with a positive base price, a non-negative pre-set price and no rule above 100 %: percentage in 0..100, and final price plus amount equals the base price |
| `Pricing.OnePercentageRule` | src/lib/discountCalculator.ts:4-30 | one active 10 % rule on 100 yields {100, 90, 10, 10, [rule]} |
| `Pricing.TwoPercentageRulesCompound` | src/lib/discountCalculator.ts:14-18 | two 10 % rules on 100 compound to 81 with a total of 19, not 80 and 20 |
| `Pricing.CalculateProductDiscount` | src/lib/discountCalculator.ts:4-30 | the loop's result equals `Calculation`; its invariant keeps running price plus total equal to the base price |
| `Savings.CalculateSavings` | src/lib/utils.ts:10-18 | amount is original minus discounted; percentage is 0 for a non-positive original price, else the nearest integer to amount / original * 100, halves up |
| `Savings.SavingsInRange` | src/lib/utils.ts:14-15 | a discounted price between 0 and a positive original price saves between 0 and the original price, and 0 to 100 % |
| `Savings.NoSavingAtEqualPrices` | src/lib/utils.ts:14-15 | equal prices save {amount: 0, percentage: 0} |
| `Savings.SavingsAgreeWithPricing` | src/lib/utils.ts:15 | for a positive base price, the savings from the original price to base minus the engine's amount are the engine's amount and percentage |
| `Store.FindIndex` | src/lib/fileOperations.ts:56 | returns the first position holding the identifier, or None exactly when no product has it |
| `Store.FindIndexOfDistinct` | src/lib/fileOperations.ts:56 | in a list with distinct identifiers, the identifier at position i is found at i |
| `Store.MergeUpdate` | src/lib/fileOperations.ts:62 | each update field that is present wins and each absent one keeps the old value; every other field is the old product's |
| `Store.MergeIsIdempotent` | src/lib/fileOperations.ts:62 | merging the same update twice equals merging it once |
| `Store.MergeOfNothingIsIdentity` | src/lib/fileOperations.ts:62 | an empty update leaves the product unchanged |
| `Store.ProductStore.GetProductById` | src/lib/fileOperations.ts:49-52 | None exactly when no stored product has the identifier; otherwise the first stored product that has it |
| `Store.ProductStore.CreateProduct` | src/lib/fileOperations.ts:68-78 | a taken identifier gives false and leaves the store unchanged; otherwise the store becomes old + [product] when the write succeeds; the result is the write outcome; distinct identifiers stay distinct; after success the lookup returns the product |
| `Store.ProductStore.UpdateProduct` | src/lib/fileOperations.ts:54-66 | unknown identifier: None, store unchanged; otherwise only the first matching slot becomes the merge, and the merge is returned, when the write succeeds, else None with the store unchanged; length is kept; distinct identifiers stay distinct, because the update record cannot carry an identifier |
| `Catalog.SumRatings` | src/app/api/products/route.ts:116 | the empty sum is 0 |
| `Catalog.SumRatingsIsLeftFold` | src/app/api/products/route.ts:116 | appending a review adds its rating, so the sum equals the left-to-right `reduce` from 0 |
| `Catalog.SumRatingsBounds` | src/app/api/products/route.ts:116 | n ratings within [lo, hi] sum to between n * lo and n * hi |
| `Catalog.AverageRating` | src/app/api/products/route.ts:114-117 | 0 without reviews; otherwise the mean, i.e. mean times count equals the rating sum |
| `Catalog.AverageRatingBounds` | src/app/api/products/route.ts:115-117 | ratings within [lo, hi] average within [lo, hi] |
| `Catalog.Matches` | src/app/api/products/route.ts:101-128 | a product passes exactly when it meets every truthy filter: equal category, base price within the bounds, average rating at least the minimum, stock above 0 when asked (both directions) |
| `Catalog.FilterProducts` | src/app/api/products/route.ts:100-129 | every kept product is in the input and passes every truthy filter; every input product that passes is kept |
| `Catalog.FilterKeepsEveryOccurrence` | src/app/api/products/route.ts:100-101 | each passing product occurs in the result exactly as often as in the input, and a failing one never: nothing is deduplicated |
| `Catalog.FilterIsSubsequence` | src/app/api/products/route.ts:100-101 | the kept products are an order-preserving subsequence of the input |
| `Catalog.FilterSubMultiset` | src/app/api/products/route.ts:100-101 | no product is kept more often than it occurs |
| `Catalog.NoFilterKeepsAll` | src/app/api/products/route.ts:102-127 | when no filter is truthy (absent, empty, 0 or unparsable), the result is the input itself |
| `Catalog.PositiveMinRatingNeedsReviews` | src/app/api/products/route.ts:114-121 | any positive minimum rating excludes every product without reviews |
| `Catalog.InStockKeepsOnlyStocked` | src/app/api/products/route.ts:123-125 | the stock filter keeps only products with a stock quantity above 0 |
| `Catalog.CategoryIsExact` | src/app/api/products/route.ts:102-104 | a truthy category filter keeps exactly equal categories and drops products without one |
| `Catalog.StrCompare` | src/app/api/products/route.ts:163-165 | the string comparison returns -1, 0 or 1, and 0 exactly for equal strings |
| `Catalog.StrCompareAntisymmetric` | src/app/api/products/route.ts:163-165 | swapping the arguments negates the comparison |
| `Catalog.StrCompareTransitive` | src/app/api/products/route.ts:163-165 | the comparison's "not after" relation is transitive |
| `Catalog.SortField` | src/app/api/products/route.ts:132 | an empty sortBy becomes "date", and any other sortBy is kept as it is |
| `Catalog.PriceKey` | src/app/api/products/route.ts:141-142 | the discounted price when it is truthy, the base price otherwise |
| `Catalog.SeedPriceIsCappedPriceKey` | src/app/api/products/route.ts:141-142 | the pricing engine's starting price is the smaller of the sort key and the base price, so the two differ only for a discounted price above the base price |
| `Catalog.Comparator` | src/app/api/products/route.ts:135-166 | a product compares equal to itself; by price or rating the result is at most 0 exactly when the first key is at most the second ("asc") or at least it (any other order); by identifier the result is -1, 0 or 1, 0 exactly for equal identifiers, and at most 0 exactly when the identifiers are in order for the direction |
| `Catalog.ComparatorAntisymmetric` | src/app/api/products/route.ts:135-166 | swapping the two products negates the comparator for every field and direction |
| `Catalog.InOrderTotal` | src/app/api/products/route.ts:159-165 | for any two products, the comparator accepts at least one of the two orders |
| `Catalog.InOrderTransitive` | src/app/api/products/route.ts:159-165 | the comparator's order is transitive for every sort field and direction |
| `Catalog.Insert` | src/app/api/products/route.ts:135 | inserting adds exactly that one product to the multiset |
| `Catalog.InsertKeepsSorted` | src/app/api/products/route.ts:135 | inserting into a sorted list keeps it sorted |
| `Catalog.SortProducts` | src/app/api/products/route.ts:131-167 | the result is a permutation of the input (same multiset and length) |
| `Catalog.SortProductsIsSorted` | src/app/api/products/route.ts:131-167 | each adjacent pair is in the comparator's order |
| `Catalog.SortedAllPairs` | src/app/api/products/route.ts:135-166 | in a sorted list, every earlier product is in order with every later one |
| `Catalog.NumericSortIsMonotone` | src/app/api/products/route.ts:139-161 | sorting by price or rating makes the key non-decreasing for "asc" and non-increasing otherwise |
| `Catalog.IdSortIsMonotone` | src/app/api/products/route.ts:132-165 | sorting by any other field, "date" and the default included, orders identifiers ascending for "asc" and descending otherwise |
| `Catalog.PriceSortAscendingExample` | tests/api/products/route.test.ts:162-173 | base prices 100, 200, 50 sort ascending to 50, 100, 200 |
| `Catalog.PriceSortDescendingExample` | tests/api/products/route.test.ts:175-186 | the same products sort descending to 200, 100, 50 |
| `Catalog.OrDefault` | src/app/api/products/route.ts:18-19 | `Number(x) || d`: an absent, unparsable or 0 parameter takes the default, any other keeps its value |
| `Catalog.Slice` | src/app/api/products/route.ts:33 | slice clamps to the list: its length is min(end, len) - start when positive, else 0; its k-th element is the list's (start + k)-th; the result is a sub-multiset |
| `Catalog.PageSlice` | src/app/api/products/route.ts:29-33 | a page has at most `limit` products, is empty from the end on, has the full `limit` or the remainder otherwise, and holds the products from (page - 1) * limit on, in order |
| `Catalog.TotalPages` | src/app/api/products/route.ts:46 | the ceiling of total / limit: (r - 1) * limit < total <= r * limit |
| `Catalog.PageIsNonEmptyIffWithinTotal` | src/app/api/products/route.ts:29-46 | a page is non-empty exactly when its number is at most totalPages |
| `Catalog.EveryIndexIsOnItsPage` | src/app/api/products/route.ts:31-33 | product k is on page k / limit + 1 at position k mod limit |
| `Catalog.ParseFilters` | src/app/api/products/route.ts:9-15 | `inStock` is on exactly for the string "true"; an empty category becomes absent and any other is kept, so the category is truthy exactly when the parameter is; the price and rating bounds pass through |
| `Catalog.ListProducts` | src/app/api/products/route.ts:5-48 | status 200; total is the post-filter, pre-pagination count; page is the page parameter, or 1 when it is absent, unparsable or 0; at most `limit` products; totalPages is the ceiling of total / limit |
| `Catalog.ListedPageIsTheSlice` | src/app/api/products/route.ts:29-33 | with start = (page - 1) * limit, the page holds no product when start is at or past the total, `limit` products when a whole page remains, and the rest otherwise; its k-th product is the sorted list's product start + k |
| `Catalog.ListedProductsAreSorted` | src/app/api/products/route.ts:26-33 | the listed page is in the comparator's order for the requested field and direction |
| `Catalog.ListedProductsPassFilters` | src/app/api/products/route.ts:24-33 | every listed product is a stored product that passes the filters, each listed at most as often as stored |
| `Catalog.InvalidParamsListEverything` | tests/api/products/route.test.ts:219-230 | with parameters missing or unparsable and at most 10 products, page 1 lists all of them and there is at most one page |
| `Catalog.ThreeProductsTwoPerPage` | tests/api/products/route.test.ts:85-97 | 3 products with limit 2: page 1 has 2, page 2 has 1, total 3, totalPages 2 |
| `Catalog.IsValidProduct` | src/app/api/products/route.ts:169-183 | a valid body is an object whose id, title, description and currency are strings, images and paymentMethods arrays, basePrice and stockQuantity numbers, and seller an object with a string name |
| `Catalog.SerializedProductIsValid` | src/app/api/products/route.ts:169-183 | every well-typed product, as JSON, passes the shape check |
| `Catalog.ExtraFieldsKeepValidity` | src/app/api/products/route.ts:169-183 | the shape check reads only the keys it names, so fields added to a valid body keep it valid |
| `Catalog.MissingRequiredKeyIsInvalid` | src/app/api/products/route.ts:169-183 | an object lacking any of the nine checked keys fails the shape check |
| `Catalog.CheckedShapeSuffices` | src/app/api/products/route.ts:169-183 | an object whose ten checked fields have the checked types is valid, whatever else it holds |
| `Catalog.OnlyCheckedKeysMatter` | src/app/api/products/route.ts:169-183 | two objects that agree on the nine checked keys are both valid or both invalid |
| `Catalog.WrongTypeIsInvalid` | src/app/api/products/route.ts:169-183 | a checked key holding the wrong JSON type (a non-string text field, a non-array list, a non-number quantity or price, a non-object seller) fails the shape check |
| `Catalog.NonObjectOrMissingTitleIsInvalid` | src/app/api/products/route.ts:169-183 | a body that is not an object, or has no title, fails the shape check |
| `Catalog.Post` | src/app/api/products/route.ts:61-89 | invalid body: 400 with the store untouched; valid body: 201 exactly when the identifier is free and the write succeeds, echoing the body with the product appended; otherwise 409 with the store unchanged |

## Left out

- File I/O is not modelled. This covers `readProducts`, `readDiscounts`, `writeProducts`, `writeDiscounts`, JSON parsing and printing, and the logged, swallowed error paths (src/lib/fileOperations.ts:1-47). The store's list is the class field, and a write's outcome is a boolean parameter.
- `calculateProductDiscount` falls back to `readDiscounts()` without a rule list (src/lib/discountCalculator.ts:5). In the model the rules are always passed in.
- HTTP plumbing is not modelled: request and response objects, URL parsing, `request.json()`, and the try/catch mapping to 500. `ListProducts` is the successful answer only.
- `Number()`'s string grammar is not modelled. A number parameter that is missing, empty or unparsable (NaN) arrives as None.
- `page` and `limit` are natural numbers. JavaScript's slice-from-the-end behaviour for negative or fractional values is therefore outside the model.
- IEEE floating point is not modelled. Arithmetic is exact on `real`, so rounding error, NaN and Infinity do not occur.
- Pricing.PercentOf: with a base price of 0 and a positive total, the source divides by zero and reports Infinity. The model reports 0. This case needs a negative pre-set price: from a running price of 0, a percentage rule takes 0 and a fixed rule at most 0, so no rule takes anything off.
- `localeCompare` is modelled as lexicographic order on character codes. Locale-specific collation is left out.
- Catalog.SortProducts: the library sort is modelled as an insertion sort. The contract states permutation and order, but not that products with equal keys keep their input order.
- Store.MergeUpdate: the update record carries the five `ProductUpdateData` fields. The source spreads every key of the request body over the product, so an `id` or any other key in the body would also be merged.
- Catalog.Post: `stockQuantity` is an `int`. The shape check accepts any number (src/app/api/products/route.ts:181), so a body with a fractional stock quantity has no product record here, and `Describes` excludes it.
- Catalog.Post: turning the JSON body into a product record is not modelled. The product handed to create is a parameter. `Describes` ties its checked fields to the body.
- `DiscountConditions` are carried in the data but never evaluated, as in the source.
- `formatPrice` (src/lib/utils.ts:3-8) is a thin wrapper over `Intl.NumberFormat`.
- Store.ProductStore.UpdateProduct: `PUT /products/{id}` passes the whole request body as the update (src/app/api/products/[id]/route.ts:80, 107-115). A body carrying `id` could rename the product and break distinct identifiers; the model's update record has no `id`.
- The per-product handlers `GET /products/{id}` and `PUT /products/{id}`, and their `isValidUpdateData`, are not part of this model.
- The React components and pages are presentation.
- Concurrent requests and lost updates on the backing file are not modelled.
