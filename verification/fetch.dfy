/** `fetchPartData` in `shopifySync.js`: the five supplier requests of a part,
    each through `retryRequest`, then the supplier page. The requests and the
    page are oracles; what is modelled is how their results combine. */
module PartFetch {
  import opened Wrappers
  import opened Catalog
  import opened Retry

  /** `retryRequest`'s default number of attempts, which every call uses. */
  const DefaultRetries: int := 3

  /** The fitments request is followed by `.catch(() => ({fitments: []}))`:
      an error passed on becomes an empty list, while `undefined` (the request
      was rate-limited on its last attempt) stays missing. */
  function FitmentsAfterRetry(r: RetryResult<FitmentList>): (f: Option<FitmentList>)
    ensures r.Value? ==> f == Some(r.value)
    ensures r.Threw? ==> f == Some(FitmentList(Some([])))
    ensures r.Undefined? ==> f.None?
  {
    match r
    case Value(v) => Some(v)
    case Threw(_) => Some(FitmentList(Some([])))
    case Undefined => None
  }

  /** However the fitments request ends, the product's fitments metafield
      (`v.fitments?.fitments || []` for each variant) can be built: a failure
      gives the same empty list as a missing response. */
  lemma FailedFitmentsGiveNone(r: RetryResult<FitmentList>)
    ensures !r.Value? ==> RawFitments(FitmentsAfterRetry(r)) == []
  {
  }

  /** `scrapeSupplierPage`: a page that could not be read counts as a page
      without variants. */
  function SupplierOrDefault(page: Option<Supplier>): (s: Supplier)
    ensures page.None? ==> !s.hasVariants
    ensures page.Some? ==> s == page.value
  {
    if page.Some? then page.value else Supplier(false)
  }

  datatype FetchOutcome = Fetched(data: PartData) | FetchFailed

  /** `Promise.all` over the requests rejects when one of the first four
      passes an error on; `details.link` then throws when the details came
      back `undefined`. Otherwise the part's record holds whatever came back,
      with `undefined` for a rate-limited media, price or availability
      request. */
  function FetchPartData(partNumber: string, details: RetryResult<Details>, media: RetryResult<Media>,
                         price: RetryResult<Price>, availability: RetryResult<Availability>,
                         fitments: RetryResult<FitmentList>, page: Option<Supplier>): (r: FetchOutcome)
    ensures r.Fetched? <==> details.Value? && !media.Threw? && !price.Threw? && !availability.Threw?
    ensures r.Fetched? ==>
              && r.data.partNumber == partNumber && r.data.details == details.value
              && r.data.media == (if media.Value? then Some(media.value) else None)
              && r.data.price == (if price.Value? then Some(price.value) else None)
              && r.data.availability == (if availability.Value? then Some(availability.value) else None)
              && r.data.fitments == FitmentsAfterRetry(fitments)
              && r.data.supplier.hasVariants == (page.Some? && page.value.hasVariants)
  {
    if details.Threw? || media.Threw? || price.Threw? || availability.Threw? then FetchFailed
    else if details.Undefined? then FetchFailed
    else
      Fetched(PartData(partNumber, details.value,
                       if media.Value? then Some(media.value) else None,
                       if price.Value? then Some(price.value) else None,
                       if availability.Value? then Some(availability.value) else None,
                       FitmentsAfterRetry(fitments), SupplierOrDefault(page)))
  }
}
