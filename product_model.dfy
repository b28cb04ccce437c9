/**
 * The catalogue's Product document: its fields, the defaults the schema fills
 * in, the bounds and enums its validators enforce, and the pre-save hook that
 * stamps `meta.updatedAt`.
 */
module ProductModel {
  import opened Wrappers
  import Js

  type ProductId = nat

  /** The `availabilityStatus` enum. */
  datatype Availability = InStock | LowStock | OutOfStock

  function AvailabilityName(a: Availability): string {
    match a
    case InStock => "In Stock"
    case LowStock => "Low Stock"
    case OutOfStock => "Out of Stock"
  }

  /** The enum validator: only the three labels are accepted. */
  function ParseAvailability(s: string): (r: Option<Availability>)
    ensures r.Some? <==> s in {"In Stock", "Low Stock", "Out of Stock"}
    ensures r.Some? ==> AvailabilityName(r.value) == s
  {
    if s == "In Stock" then Some(InStock)
    else if s == "Low Stock" then Some(LowStock)
    else if s == "Out of Stock" then Some(OutOfStock)
    else None
  }

  lemma AvailabilityRoundTrip(a: Availability)
    ensures ParseAvailability(AvailabilityName(a)) == Some(a)
  {
  }

  datatype Review = Review(rating: real, comment: string, reviewerName: string, reviewerEmail: string, date: int)

  /** A review's rating lies in [1, 5] and its three text fields are required. */
  predicate ValidReview(r: Review) {
    1.0 <= r.rating <= 5.0 && r.comment != "" && r.reviewerName != "" && r.reviewerEmail != ""
  }

  datatype Dimensions = Dimensions(width: Option<real>, height: Option<real>, depth: Option<real>)

  datatype Meta = Meta(createdAt: int, updatedAt: int, barcode: Option<string>, qrCode: Option<string>)

  datatype Product = Product(
    id: ProductId,
    title: string,
    description: string,
    category: string,
    price: real,
    discountPercentage: real,
    rating: real,
    stock: int,
    tags: seq<string>,
    brand: Option<string>,
    sku: string,
    weight: Option<real>,
    dimensions: Dimensions,
    warrantyInformation: string,
    shippingInformation: string,
    availabilityStatus: Availability,
    reviews: seq<Review>,
    returnPolicy: string,
    minimumOrderQuantity: int,
    meta: Meta,
    images: seq<string>,
    thumbnail: string)

  predicate NonNegative(x: Option<real>) {
    x.None? || x.value >= 0.0
  }

  /** The paths whose validators reject `p`, in schema order (mongoose's `errors` keys). */
  function Violations(p: Product): seq<string> {
    (if p.title == "" || |p.title| > 200 then ["title"] else [])
    + (if p.description == "" || |p.description| > 2000 then ["description"] else [])
    + (if p.category == "" then ["category"] else [])
    + (if p.price < 0.0 then ["price"] else [])
    + (if p.discountPercentage < 0.0 || p.discountPercentage > 100.0 then ["discountPercentage"] else [])
    + (if p.rating < 0.0 || p.rating > 5.0 then ["rating"] else [])
    + (if p.stock < 0 then ["stock"] else [])
    + (if p.sku == "" then ["sku"] else [])
    + (if !NonNegative(p.weight) then ["weight"] else [])
    + (if !NonNegative(p.dimensions.width) then ["dimensions.width"] else [])
    + (if !NonNegative(p.dimensions.height) then ["dimensions.height"] else [])
    + (if !NonNegative(p.dimensions.depth) then ["dimensions.depth"] else [])
    + ReviewViolations(p.reviews, 0)
    + (if p.minimumOrderQuantity < 1 then ["minimumOrderQuantity"] else [])
    + (if p.thumbnail == "" then ["thumbnail"] else [])
  }

  /** `reviews.<i>` for every invalid review, numbering from `from`. */
  function ReviewViolations(rs: seq<Review>, from: nat): (v: seq<string>)
    ensures v == [] <==> forall i :: 0 <= i < |rs| ==> ValidReview(rs[i])
    decreases |rs|
  {
    if rs == [] then []
    else
      (if ValidReview(rs[0]) then [] else ["reviews." + Js.NatToString(from)])
      + ReviewViolations(rs[1..], from + 1)
  }

  /** Every bound and required field of the schema holds. */
  predicate ValidProduct(p: Product) {
    && p.title != "" && |p.title| <= 200
    && p.description != "" && |p.description| <= 2000
    && p.category != ""
    && p.price >= 0.0
    && 0.0 <= p.discountPercentage <= 100.0
    && 0.0 <= p.rating <= 5.0
    && p.stock >= 0
    && p.sku != ""
    && NonNegative(p.weight)
    && NonNegative(p.dimensions.width) && NonNegative(p.dimensions.height) && NonNegative(p.dimensions.depth)
    && (forall i :: 0 <= i < |p.reviews| ==> ValidReview(p.reviews[i]))
    && p.minimumOrderQuantity >= 1
    && p.thumbnail != ""
  }

  /** Validation passes exactly when the document is valid. */
  lemma ViolationsExactlyWhenInvalid(p: Product)
    ensures Violations(p) == [] <==> ValidProduct(p)
  {
  }

  /** The fields of a document being created; `None` is an absent field. */
  datatype ProductInput = ProductInput(
    title: Option<string>,
    description: Option<string>,
    category: Option<string>,
    price: Option<real>,
    discountPercentage: Option<real>,
    rating: Option<real>,
    stock: Option<int>,
    tags: seq<string>,
    brand: Option<string>,
    sku: Option<string>,
    weight: Option<real>,
    dimensions: Dimensions,
    warrantyInformation: Option<string>,
    shippingInformation: Option<string>,
    availabilityStatus: Option<string>,
    reviews: seq<Review>,
    returnPolicy: Option<string>,
    minimumOrderQuantity: Option<int>,
    barcode: Option<string>,
    qrCode: Option<string>,
    images: seq<string>,
    thumbnail: Option<string>)

  /** The schema's `trim: true` on every tag. */
  function TrimTags(tags: seq<string>): (r: seq<string>)
    ensures |r| == |tags| && forall i :: 0 <= i < |tags| ==> r[i] == Js.Trim(tags[i])
    ensures forall i :: 0 <= i < |r| ==> Js.Trimmed(r[i])
  {
    seq(|tags|, i requires 0 <= i < |tags| => Js.Trim(tags[i]))
  }

  /**
   * A new document as the schema builds it: absent fields take their
   * defaults, the `trim: true` paths (title, category, tags, brand) are
   * trimmed on assignment, then the validators run on the trimmed values and
   * the pre-save hook stamps the time. A missing required field is the empty
   * string, which the required validator rejects; a label outside the enum
   * is rejected as well.
   */
  function CreateProduct(input: ProductInput, id: ProductId, now: int): (r: Result<Product, seq<string>>)
    ensures r.Ok? ==> ValidProduct(r.value) && r.value.id == id && r.value.meta.updatedAt == now
    ensures r.Ok? && input.discountPercentage.None? ==> r.value.discountPercentage == 0.0
    ensures r.Ok? && input.rating.None? ==> r.value.rating == 0.0
    ensures r.Ok? && input.stock.None? ==> r.value.stock == 0
    ensures r.Ok? && input.availabilityStatus.None? ==> r.value.availabilityStatus == InStock
    ensures r.Ok? && input.minimumOrderQuantity.None? ==> r.value.minimumOrderQuantity == 1
    ensures r.Ok? && input.price.Some? ==> r.value.price == input.price.value
    ensures r.Ok? ==> input.title.Some? && r.value.title == Js.Trim(input.title.value)
    ensures r.Ok? ==> input.category.Some? && r.value.category == Js.Trim(input.category.value)
    ensures r.Ok? ==> r.value.tags == TrimTags(input.tags)
    ensures r.Ok? ==> r.value.brand == if input.brand.Some? then Some(Js.Trim(input.brand.value)) else None
    ensures input.price.None? ==> r.Err? && "price" in r.error
    ensures input.availabilityStatus.Some? && ParseAvailability(input.availabilityStatus.value).None? ==> r.Err?
    ensures r.Err? ==> r.error != []
  {
    var p := NewDocument(input, id, now);
    var errors := CreationErrors(input, p);
    ViolationsExactlyWhenInvalid(p);
    if errors == [] then Ok(p) else Err(errors)
  }

  /** The label the document gets: the default when absent, `None` when outside the enum. */
  function StatusOf(input: ProductInput): Option<Availability> {
    if input.availabilityStatus.Some? then ParseAvailability(input.availabilityStatus.value) else Some(InStock)
  }

  /** The document before validation: defaults filled in, the `trim: true` paths trimmed. */
  function NewDocument(input: ProductInput, id: ProductId, now: int): (r: Product)
    ensures r.id == id && r.meta.createdAt == now && r.meta.updatedAt == now
    ensures Js.Trimmed(r.title) && Js.Trimmed(r.category)
    ensures forall i :: 0 <= i < |r.tags| ==> Js.Trimmed(r.tags[i])
    ensures r.brand.Some? <==> input.brand.Some?
    ensures r.brand.Some? ==> Js.Trimmed(r.brand.value)
  {
    Product(
      id,
      Js.Trim(input.title.GetOr("")),
      input.description.GetOr(""),
      Js.Trim(input.category.GetOr("")),
      input.price.GetOr(0.0),
      input.discountPercentage.GetOr(0.0),
      input.rating.GetOr(0.0),
      input.stock.GetOr(0),
      TrimTags(input.tags),
      if input.brand.Some? then Some(Js.Trim(input.brand.value)) else None,
      input.sku.GetOr(""),
      input.weight,
      input.dimensions,
      input.warrantyInformation.GetOr("No warranty"),
      input.shippingInformation.GetOr("Ships in 3-5 business days"),
      StatusOf(input).GetOr(InStock),
      input.reviews,
      input.returnPolicy.GetOr("30 days return policy"),
      input.minimumOrderQuantity.GetOr(1),
      Meta(now, now, input.barcode, input.qrCode),
      input.images,
      input.thumbnail.GetOr(""))
  }

  /** Every validation error of the new document: the schema's validators, a missing price, an unknown label. */
  function CreationErrors(input: ProductInput, p: Product): seq<string> {
    Violations(p)
    + (if input.price.None? then ["price"] else [])
    + (if StatusOf(input).None? then ["availabilityStatus"] else [])
  }

  /** The title is validated after trimming: one that is blank, or longer than 200 characters once trimmed, is rejected. */
  lemma BlankOrLongTitleRejected(input: ProductInput, id: ProductId, now: int)
    requires input.title.Some? && (Js.Trim(input.title.value) == "" || |Js.Trim(input.title.value)| > 200)
    ensures CreateProduct(input, id, now).Err? && "title" in CreateProduct(input, id, now).error
  {
    var p := NewDocument(input, id, now);
    assert p.title == Js.Trim(input.title.value);
    TitleReportedFirst(p);
    var errors := CreationErrors(input, p);
    assert errors[0] == "title";
    assert CreateProduct(input, id, now) == Err(errors);
  }

  /** A document whose title fails its validators has `title` as its first violation. */
  lemma TitleReportedFirst(p: Product)
    requires p.title == "" || |p.title| > 200
    ensures |Violations(p)| > 0 && Violations(p)[0] == "title"
  {
    var rest := Violations(p)[1..];
    assert Violations(p) == ["title"] + rest;
  }

  /** The category is validated after trimming: a blank one is rejected. */
  lemma BlankCategoryRejected(input: ProductInput, id: ProductId, now: int)
    requires input.category.Some? && Js.Trim(input.category.value) == ""
    ensures CreateProduct(input, id, now).Err?
  {
  }

  /** A title padded with white space is stored without it, and passes the length bound by its trimmed length. */
  lemma PaddedTitleStoredTrimmed(input: ProductInput, id: ProductId, now: int)
    requires input.title.Some?
    requires CreateProduct(input, id, now).Ok?
    ensures var t := CreateProduct(input, id, now).value.title;
      t == Js.Trim(input.title.value) && Js.Trim(t) == t && 0 < |t| <= 200
  {
    Js.TrimIdempotent(input.title.value);
  }

  /** The pre-save hook: every save stamps `meta.updatedAt` and changes nothing else. */
  function Touch(p: Product, now: int): (r: Product)
    ensures r.meta.updatedAt == now
    ensures r.(meta := p.meta) == p && r.meta.(updatedAt := p.meta.updatedAt) == p.meta
  {
    p.(meta := p.meta.(updatedAt := now))
  }
}
