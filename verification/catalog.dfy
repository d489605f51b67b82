/** The records the sync passes around: what the parts supplier's API returns
    for one part, and the draft product kept on disk between two sync steps
    (`current-product.json`). Only the fields the core reads are kept; a
    field the API may leave out is an `Option`. */
module Catalog {
  import opened Wrappers
  import opened Text

  /** The `details` response of a part. */
  datatype Details = Details(
    partName: Option<string>,
    brandCode: Option<string>,
    productCode: Option<string>,
    catalogCodes: Option<string>,
    vendorPartNumber: Option<string>)

  /** What the supplier's web page says about the part: only whether it
      offers variants is read by the core. */
  datatype Supplier = Supplier(hasVariants: bool)

  datatype Image = Image(uri: string)

  /** `images.map(i => i.uri)`. */
  function Uris(images: seq<Image>): (r: seq<string>)
    ensures |r| == |images| && forall k :: 0 <= k < |images| ==> r[k] == images[k].uri
  {
    seq(|images|, k requires 0 <= k < |images| => images[k].uri)
  }

  /** The `media` response; its `images` list may be missing. */
  datatype Media = Media(images: Option<seq<Image>>)

  datatype Price = Price(retailPrice: Option<real>, price: Option<real>)

  datatype Availability = Availability(euAvailability: Option<int>)

  datatype Fitment = Fitment(id: int, vehicleId: int, partNumber: string,
                             position: Option<string>, information: Option<string>)

  /** The `fitments` response `{fitments: [...]}`; the list may be missing. */
  datatype FitmentList = FitmentList(fitments: Option<seq<Fitment>>)

  /** One fitment as it is stored in the `fitments.part` metafield. */
  datatype FormattedFitment = FormattedFitment(id: int, vehicleId: int, partNumber: string,
                                               position: string, information: string)

  /** Everything fetched for one part; a response that came back as
      `undefined` (see `retryRequest`) is `None`. */
  datatype PartData = PartData(
    partNumber: string,
    details: Details,
    media: Option<Media>,
    price: Option<Price>,
    availability: Option<Availability>,
    fitments: Option<FitmentList>,
    supplier: Supplier)

  /** One variant of a draft product; price, cost and stock have had their
      defaults applied. */
  datatype Variant = Variant(
    partNumber: string,
    size: Option<string>,
    color: Option<string>,
    price: real,
    cost: real,
    stock: int,
    media: Option<Media>,
    fitments: Option<FitmentList>,
    details: Details)

  /** The product being assembled: the name, brand, details and supplier
      record of its first part, and its variants in the order they came. */
  datatype Draft = Draft(
    baseName: string,
    brandCode: Option<string>,
    baseDetails: Details,
    baseSupplier: Supplier,
    variants: seq<Variant>)

  /** `x || 0` for a number that may be missing (a present 0 gives 0 as well). */
  function OrZero(x: Option<real>): real { if x.Some? then x.value else 0.0 }

  function OrZeroInt(x: Option<int>): int { if x.Some? then x.value else 0 }

  /** The variant record of a part. Building it reads the price and the
      availability, so it throws when either came back `undefined`; missing
      numbers inside them default to 0. */
  function BuildVariant(partNumber: string, size: Option<string>, color: Option<string>, pd: PartData): (v: Option<Variant>)
    ensures v.Some? <==> pd.price.Some? && pd.availability.Some?
    ensures v.Some? ==>
              && v.value.partNumber == partNumber && v.value.details == pd.details
              && v.value.size == size && v.value.color == color
              && v.value.media == pd.media && v.value.fitments == pd.fitments
              && v.value.price == (if pd.price.value.retailPrice.Some? then pd.price.value.retailPrice.value else 0.0)
              && v.value.cost == (if pd.price.value.price.Some? then pd.price.value.price.value else 0.0)
              && v.value.stock == (if pd.availability.value.euAvailability.Some? then pd.availability.value.euAvailability.value else 0)
  {
    if pd.price.None? || pd.availability.None? then None
    else Some(Variant(partNumber, size, color,
                      OrZero(pd.price.value.retailPrice), OrZero(pd.price.value.price),
                      OrZeroInt(pd.availability.value.euAvailability),
                      pd.media, pd.fitments, pd.details))
  }

  function PartNumbers(vs: seq<Variant>): (r: seq<string>)
    ensures |r| == |vs| && forall i :: 0 <= i < |vs| ==> r[i] == vs[i].partNumber
  {
    seq(|vs|, i requires 0 <= i < |vs| => vs[i].partNumber)
  }

  lemma PartNumbersOne(v: Variant)
    ensures PartNumbers([v]) == [v.partNumber]
  {
  }

  lemma PartNumbersAppend(a: seq<Variant>, b: seq<Variant>)
    ensures PartNumbers(a + b) == PartNumbers(a) + PartNumbers(b)
  {
  }

  // ---------------------------------------------------------------------------
  // Fitments metafield
  // ---------------------------------------------------------------------------

  /** `x?.fitments || []`: the raw fitments of a response that may be
      missing or hold no list. */
  function RawFitments(fitments: Option<FitmentList>): seq<Fitment> {
    if fitments.Some? && fitments.value.fitments.Some? then fitments.value.fitments.value else []
  }

  function FormatFitment(f: Fitment): FormattedFitment {
    FormattedFitment(f.id, f.vehicleId, f.partNumber, OrEmpty(f.position), OrEmpty(f.information))
  }

  /** The value of the fitments metafield, before `JSON.stringify`: nothing
      when the response or its list is missing or empty, otherwise one record
      per fitment, in order, with the same identifiers and with a missing
      position or information written as "". */
  function FormatFitmentsForMetafield(fitments: Option<FitmentList>): (r: seq<FormattedFitment>)
    ensures fitments.None? || fitments.value.fitments.None? ==> r == []
    ensures fitments.Some? && fitments.value.fitments.Some? ==>
              var fs := fitments.value.fitments.value;
              && |r| == |fs|
              && forall i :: 0 <= i < |fs| ==>
                   && r[i].id == fs[i].id && r[i].vehicleId == fs[i].vehicleId
                   && r[i].partNumber == fs[i].partNumber
                   && r[i].position == (if Truthy(fs[i].position) then fs[i].position.value else "")
                   && r[i].information == (if Truthy(fs[i].information) then fs[i].information.value else "")
  {
    if fitments.None? || fitments.value.fitments.None? || |fitments.value.fitments.value| == 0 then []
    else
      var fs := fitments.value.fitments.value;
      seq(|fs|, i requires 0 <= i < |fs| => FormatFitment(fs[i]))
  }

  /** A stored record read back as a fitment. */
  function StoredFitment(f: FormattedFitment): Fitment {
    Fitment(f.id, f.vehicleId, f.partNumber, Some(f.position), Some(f.information))
  }

  /** Formatting is a projection: formatting records that were read back from
      the metafield gives those records again. */
  lemma FormatFitmentsIdempotent(fitments: Option<FitmentList>)
    ensures var r := FormatFitmentsForMetafield(fitments);
            FormatFitmentsForMetafield(Some(FitmentList(Some(seq(|r|, i requires 0 <= i < |r| => StoredFitment(r[i])))))) == r
  {
  }
}
