/**
 * The catalog's records, transcribed from the TypeScript interfaces of the
 * product catalog: products with their reviews, seller and shipping data,
 * discount rules and the derived pricing record, plus the small pieces of
 * JavaScript number semantics (truthiness, Math.round) that the core relies on.
 */
module Types {

  datatype Option<+T> = None | Some(value: T) {
    function GetOr(default: T): T {
      match this
      case Some(v) => v
      case None => default
    }
  }

  datatype Review = Review(
    id: string,
    userId: string,
    userName: string,
    rating: real,
    comment: string,
    date: string,
    verified: bool)

  datatype Seller = Seller(
    name: string,
    rating: real,
    location: string,
    contact: string,
    totalSales: Option<int>,
    memberSince: Option<string>)

  datatype ShippingInfo = ShippingInfo(
    freeShipping: bool,
    estimatedDays: int,
    cost: Option<real>,
    methods: Option<seq<string>>)

  datatype Condition = New | Used | Refurbished

  datatype Product = Product(
    id: string,
    title: string,
    description: string,
    images: seq<string>,
    basePrice: real,
    discountedPrice: Option<real>,
    discountPercentage: Option<real>,
    currency: string,
    paymentMethods: seq<string>,
    seller: Seller,
    specifications: map<string, string>,
    reviews: seq<Review>,
    stockQuantity: int,
    shippingInfo: ShippingInfo,
    category: Option<string>,
    condition: Option<Condition>,
    warranty: Option<string>,
    tags: Option<seq<string>>)

  /** Present in every rule but never evaluated by the pricing engine. */
  datatype DiscountConditions = DiscountConditions(
    category: Option<string>,
    validUntil: Option<string>,
    validFrom: Option<string>,
    maxUsage: Option<int>,
    currentUsage: Option<int>)

  datatype DiscountKind = Percentage | Fixed | Conditional

  datatype DiscountRule = DiscountRule(
    id: string,
    kind: DiscountKind,
    value: real,
    conditions: Option<DiscountConditions>,
    isActive: bool,
    name: Option<string>,
    description: Option<string>)

  /** The optional fields a partial update may carry. */
  datatype ProductUpdateData = ProductUpdateData(
    title: Option<string>,
    description: Option<string>,
    basePrice: Option<real>,
    stockQuantity: Option<int>,
    specifications: Option<map<string, string>>)

  /** Query filters after parsing: a parameter that was absent or did not parse as a number is None. */
  datatype ProductFilters = ProductFilters(
    category: Option<string>,
    minPrice: Option<real>,
    maxPrice: Option<real>,
    minRating: Option<real>,
    inStock: bool)

  /** The pricing engine's result. */
  datatype DiscountCalculation = DiscountCalculation(
    originalPrice: real,
    discountedPrice: real,
    discountAmount: real,
    discountPercentage: int,
    appliedDiscounts: seq<DiscountRule>)

  /** A JSON response envelope with its HTTP status. */
  datatype ApiResponse<T> = ApiResponse(
    status: nat,
    success: bool,
    data: Option<T>,
    error: Option<string>,
    message: Option<string>)

  /** JavaScript truthiness of an optional number: undefined and 0 are falsy. */
  predicate TruthyNum(x: Option<real>): (r: bool)
    ensures !r <==> x.GetOr(0.0) == 0.0
    ensures r ==> x.Some?
  {
    x.Some? && x.value != 0.0
  }

  /** JavaScript truthiness of an optional string: undefined and "" are falsy. */
  predicate TruthyStr(x: Option<string>): (r: bool)
    ensures !r <==> x.GetOr("") == ""
    ensures r ==> x.Some?
  {
    x.Some? && x.value != ""
  }

  /** Math.round: the nearest integer, halves rounded towards +infinity. */
  function Round(x: real): (r: int)
    ensures x - 0.5 < r as real <= x + 0.5
  {
    (x + 0.5).Floor
  }

  lemma RoundMonotone(x: real, y: real)
    requires x <= y
    ensures Round(x) <= Round(y)
  {
    assert Round(y) as real > Round(x) as real - 1.0;
  }

  lemma RoundOfInt(n: int)
    ensures Round(n as real) == n
  {
  }

  function Max(a: real, b: real): (r: real)
    ensures r >= a && r >= b && (r == a || r == b)
  {
    if a >= b then a else b
  }

  function Min(a: real, b: real): (r: real)
    ensures r <= a && r <= b && (r == a || r == b)
  {
    if a <= b then a else b
  }
}
