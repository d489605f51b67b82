/** `syncPartToShopify.js`: one Shopify product per part of the parts list,
    each with a single variant. A run resumes at the saved index, fetches
    everything about the part, posts the product, sets its stock and cost,
    records the part number and saves the progress; the first part that
    fails ends the run. The fetches, the supplier page and the Shopify calls
    are oracles: `attempt(i)` says how far part `i` got. */
module PartSync {
  import opened Wrappers
  import opened Text
  import opened Catalog
  import opened Resume

  /** `getPartFitments`: the response, or the fetch failed. */
  datatype FitmentFetch = FitmentsFetched(response: FitmentList) | FitmentsFailed

  /** What the four fetches that must succeed and the fitments fetch gave. */
  datatype Fetched = Fetched(
    details: Details,
    media: Media,
    price: Price,
    availability: Availability,
    fitments: FitmentFetch)

  /** How far one part got: a fetch or the supplier page threw before the
      product was posted, or the product was posted and `created` says
      whether creating it and setting its stock and cost all succeeded. */
  datatype Attempt = FetchFailed | Posted(fetched: Fetched, created: bool)

  /** The product posted for a part (the HTML description and the
      constant metafields are left out). */
  datatype PartProduct = PartProduct(
    title: Option<string>,
    vendor: Option<string>,
    productType: string,
    tags: string,
    sku: string,
    price: real,
    cost: real,
    stock: int,
    images: seq<string>,
    vendorPartNumber: string,
    brandCode: string,
    productCode: string,
    catalogCodes: string,
    fitments: seq<FormattedFitment>)

  /** A failed fitments fetch is caught and answered with an empty list. */
  function FitmentsResponse(f: FitmentFetch): (r: FitmentList)
    ensures f.FitmentsFailed? ==> r.fitments == Some([])
    ensures f.FitmentsFetched? ==> r == f.response
  {
    match f
    case FitmentsFetched(response) => response
    case FitmentsFailed => FitmentList(Some([]))
  }

  /** The product built from what was fetched for `partNumber`. */
  function BuildPartProduct(partNumber: string, f: Fetched): PartProduct {
    var d := f.details;
    PartProduct(
      d.partName,
      d.brandCode,
      if Truthy(d.productCode) then d.productCode.value else "Parts",
      TagLine([OrEmpty(d.partName), OrEmpty(d.brandCode), OrEmpty(d.productCode)]),
      partNumber,
      OrZero(f.price.retailPrice),
      OrZero(f.price.price),
      OrZeroInt(f.availability.euAvailability),
      if f.media.images.Some? then Uris(f.media.images.value) else [],
      OrEmpty(d.vendorPartNumber),
      OrEmpty(d.brandCode),
      OrEmpty(d.productCode),
      OrEmpty(d.catalogCodes),
      FormatFitmentsForMetafield(Some(FitmentsResponse(f.fitments))))
  }

  /** A part whose fitments could not be fetched is still created, with an
      empty fitments metafield. */
  lemma FailedFitmentsGiveEmptyMetafield(partNumber: string, f: Fetched)
    requires f.fitments.FitmentsFailed?
    ensures BuildPartProduct(partNumber, f).fitments == []
  {
  }

  /** The product carries the part: its title is the part name, its vendor
      the brand, its single variant's SKU the part number, one image per
      media image in order, one fitment record per fitment fetched. */
  lemma ProductFollowsPart(partNumber: string, f: Fetched)
    ensures var p := BuildPartProduct(partNumber, f);
            && p.title == f.details.partName && p.vendor == f.details.brandCode && p.sku == partNumber
            && (f.media.images.Some? ==>
                  |p.images| == |f.media.images.value|
                  && forall k :: 0 <= k < |p.images| ==> p.images[k] == f.media.images.value[k].uri)
            && (f.media.images.None? ==> p.images == [])
            && (f.fitments.FitmentsFetched? && f.fitments.response.fitments.Some? ==>
                  |p.fitments| == |f.fitments.response.fitments.value|)
  {
  }

  /** A missing stock, retail price or cost is 0, a missing or empty product
      code makes the type "Parts", and a missing text field is "". */
  lemma MissingValuesDefault(partNumber: string, f: Fetched)
    ensures var p := BuildPartProduct(partNumber, f);
            && (f.price.retailPrice.None? ==> p.price == 0.0)
            && (f.price.price.None? ==> p.cost == 0.0)
            && (f.availability.euAvailability.None? ==> p.stock == 0)
            && (f.price.retailPrice.Some? ==> p.price == f.price.retailPrice.value)
            && (f.price.price.Some? ==> p.cost == f.price.price.value)
            && (f.availability.euAvailability.Some? ==> p.stock == f.availability.euAvailability.value)
            && (p.productType == "Parts" <==> !Truthy(f.details.productCode) || f.details.productCode.value == "Parts")
            && (!Truthy(f.details.vendorPartNumber) ==> p.vendorPartNumber == "")
  {
  }

  /** The tags are the part name, then the brand and the product code when
      present, separated by ", "; the default type "Parts" is not a tag. */
  lemma PartTags(partNumber: string, f: Fetched)
    requires Truthy(f.details.partName)
    ensures var d := f.details;
            BuildPartProduct(partNumber, f).tags
              == d.partName.value
                 + (if Truthy(d.brandCode) then ", " + d.brandCode.value else "")
                 + (if Truthy(d.productCode) then ", " + d.productCode.value else "")
  {
    var d := f.details;
    TagLineOfThree(d.partName.value, OrEmpty(d.brandCode), OrEmpty(d.productCode));
  }

  /** The entry each part gets in `completed` when it was created. */
  function SyncSteps(parts: seq<string>, attempt: nat -> Attempt): nat -> Option<string> {
    (i: nat) => if i < |parts| && attempt(i).Posted? && attempt(i).created then Some(parts[i]) else None
  }

  /** The products posted for the parts in `[lo, hi)`, in order, `build`
      making the product of a part from what was fetched for it. */
  function PostedBetween(parts: seq<string>, attempt: nat -> Attempt, build: (string, Fetched) -> PartProduct,
                         lo: nat, hi: nat): (r: seq<PartProduct>)
    ensures |r| <= if hi <= lo then 0 else hi - lo
    decreases hi
  {
    if hi <= lo then []
    else PostedBetween(parts, attempt, build, lo, hi - 1)
         + (if hi - 1 < |parts| && attempt(hi - 1).Posted? then [build(parts[hi - 1], attempt(hi - 1).fetched)] else [])
  }

  lemma PostedStep(parts: seq<string>, attempt: nat -> Attempt, build: (string, Fetched) -> PartProduct, lo: nat, i: nat)
    requires lo <= i < |parts|
    ensures PostedBetween(parts, attempt, build, lo, i + 1)
            == PostedBetween(parts, attempt, build, lo, i)
               + (if attempt(i).Posted? then [build(parts[i], attempt(i).fetched)] else [])
  {
  }

  lemma SkusAppend(a: seq<PartProduct>, p: PartProduct)
    ensures Skus(a + [p]) == Skus(a) + [p.sku]
  {
    assert Skus(a + [p])[|a|] == p.sku;
  }

  /** The index one past the last part a run looked at, when it stopped at
      `last` among `n` parts. */
  function Reached(n: nat, last: nat): nat {
    if last < n then last + 1 else n
  }

  /** `main`: the progress is read (or started at 0 with nothing completed);
      for each part from the saved index on, its product is posted, and once
      it is created the part number is recorded, the index moves past it and
      the progress is saved; the first failure ends the run. Returns the
      progress and the products posted, `build` making each product. */
  method SyncPartsBy(file: ProgressFile<string>, parts: seq<string>, attempt: nat -> Attempt,
                     build: (string, Fetched) -> PartProduct)
    returns (progress: Progress<string>, posted: seq<PartProduct>)
    modifies file
    ensures progress == RunFrom(|parts|, Start(old(file.saved)), SyncSteps(parts, attempt))
    ensures posted == PostedBetween(parts, attempt, build, Start(old(file.saved)).lastIndex, Reached(|parts|, progress.lastIndex))
    ensures file.saved == if progress.lastIndex == Start(old(file.saved)).lastIndex then old(file.saved) else Some(progress)
  {
    progress := Start(file.saved);
    posted := [];
    ghost var start := progress;
    ghost var steps := SyncSteps(parts, attempt);
    var i := progress.lastIndex;
    while i < |parts|
      invariant progress.lastIndex == i && start.lastIndex <= i
      invariant RunFrom(|parts|, progress, steps) == RunFrom(|parts|, start, steps)
      invariant i <= |parts| || i == start.lastIndex
      invariant posted == PostedBetween(parts, attempt, build, start.lastIndex, i)
      invariant file.saved == if i == start.lastIndex then old(file.saved) else Some(progress)
      decreases |parts| - i
    {
      var outcome := attempt(i);
      PostedStep(parts, attempt, build, start.lastIndex, i);
      if outcome.FetchFailed? {
        assert posted == PostedBetween(parts, attempt, build, start.lastIndex, Reached(|parts|, i));
        return;
      }
      posted := posted + [build(parts[i], outcome.fetched)];
      if !outcome.created {
        assert posted == PostedBetween(parts, attempt, build, start.lastIndex, Reached(|parts|, i));
        return;
      }
      assert steps(i) == Some(parts[i]);
      progress := progress.(done := progress.done + [parts[i]]);
      progress := progress.(lastIndex := i + 1);
      file.saved := Some(progress);
      i := i + 1;
    }
  }

  /** `main` with the products of this file. */
  method SyncParts(file: ProgressFile<string>, parts: seq<string>, attempt: nat -> Attempt)
    returns (progress: Progress<string>, posted: seq<PartProduct>)
    modifies file
    ensures progress == RunFrom(|parts|, Start(old(file.saved)), SyncSteps(parts, attempt))
    ensures posted == PostedBetween(parts, attempt, BuildPartProduct, Start(old(file.saved)).lastIndex, Reached(|parts|, progress.lastIndex))
    ensures file.saved == if progress.lastIndex == Start(old(file.saved)).lastIndex then old(file.saved) else Some(progress)
  {
    progress, posted := SyncPartsBy(file, parts, attempt, BuildPartProduct);
  }

  function Skus(ps: seq<PartProduct>): (r: seq<string>)
    ensures |r| == |ps| && forall k :: 0 <= k < |ps| ==> r[k] == ps[k].sku
  {
    seq(|ps|, k requires 0 <= k < |ps| => ps[k].sku)
  }

  /** Over parts that were all posted, one product is posted per part, in
      order, each with the part number as its SKU. */
  lemma {:induction false} PostedAll(parts: seq<string>, attempt: nat -> Attempt, build: (string, Fetched) -> PartProduct,
                                     lo: nat, hi: nat)
    requires forall pn, f :: build(pn, f).sku == pn
    requires lo <= hi <= |parts|
    requires forall k :: lo <= k < hi ==> attempt(k).Posted?
    ensures Skus(PostedBetween(parts, attempt, build, lo, hi)) == parts[lo..hi]
    decreases hi
  {
    if lo < hi {
      PostedAll(parts, attempt, build, lo, hi - 1);
      PostedStep(parts, attempt, build, lo, hi - 1);
      SkusAppend(PostedBetween(parts, attempt, build, lo, hi - 1), build(parts[hi - 1], attempt(hi - 1).fetched));
      assert parts[lo..hi] == parts[lo..hi - 1] + [parts[hi - 1]];
    }
  }

  /** A run records the part numbers of the parts it created, in order, after
      those recorded before, and stops at the first part that was not
      created. */
  lemma SyncRun(parts: seq<string>, p: Progress<string>, attempt: nat -> Attempt)
    requires p.lastIndex <= |parts|
    ensures var r := RunFrom(|parts|, p, SyncSteps(parts, attempt));
            && p.lastIndex <= r.lastIndex <= |parts|
            && r.done == p.done + parts[p.lastIndex..r.lastIndex]
            && (forall k :: p.lastIndex <= k < r.lastIndex ==> attempt(k).Posted? && attempt(k).created)
            && (r.lastIndex < |parts| ==> attempt(r.lastIndex).FetchFailed? || !attempt(r.lastIndex).created)
  {
    var steps := SyncSteps(parts, attempt);
    var r := RunFrom(|parts|, p, steps);
    RunShape(|parts|, p, steps);
    assert r.done == p.done + parts[p.lastIndex..r.lastIndex] by {
      assert r.done == r.done[..|p.done|] + r.done[|p.done|..];
      forall k | 0 <= k < r.lastIndex - p.lastIndex
        ensures r.done[|p.done|..][k] == parts[p.lastIndex..r.lastIndex][k]
      {
        assert steps(p.lastIndex + k).Some?;
      }
    }
    forall k | p.lastIndex <= k < r.lastIndex
      ensures attempt(k).Posted? && attempt(k).created
    {
      assert steps(k).Some?;
    }
    if r.lastIndex < |parts| {
      assert steps(r.lastIndex).None?;
    }
  }

  /** A run posts one product for each part it records, in order, and, when
      it stopped at a part whose product was posted but whose creation or
      stock calls failed, one for that part as well, which the next run then
      posts again. */
  lemma PostedInRun(parts: seq<string>, p: Progress<string>, attempt: nat -> Attempt, build: (string, Fetched) -> PartProduct)
    requires forall pn, f :: build(pn, f).sku == pn
    requires p.lastIndex <= |parts|
    ensures var r := RunFrom(|parts|, p, SyncSteps(parts, attempt));
            p.lastIndex <= r.lastIndex <= |parts| &&
            Skus(PostedBetween(parts, attempt, build, p.lastIndex, Reached(|parts|, r.lastIndex)))
              == parts[p.lastIndex..r.lastIndex]
                 + (if r.lastIndex < |parts| && attempt(r.lastIndex).Posted? then [parts[r.lastIndex]] else [])
  {
    var r := RunFrom(|parts|, p, SyncSteps(parts, attempt));
    SyncRun(parts, p, attempt);
    PostedAll(parts, attempt, build, p.lastIndex, r.lastIndex);
    if r.lastIndex < |parts| && attempt(r.lastIndex).Posted? {
      PostedStep(parts, attempt, build, p.lastIndex, r.lastIndex);
      SkusAppend(PostedBetween(parts, attempt, build, p.lastIndex, r.lastIndex), build(parts[r.lastIndex], attempt(r.lastIndex).fetched));
    }
  }

  /** From a fresh start (no progress file) the completed list is exactly
      the parts before the saved index, so its length is that index. */
  lemma FreshStartCompleted(parts: seq<string>, attempt: nat -> Attempt)
    ensures var r := RunFrom(|parts|, Start(None), SyncSteps(parts, attempt));
            r.lastIndex <= |parts| && r.done == parts[..r.lastIndex] && |r.done| == r.lastIndex
  {
    SyncRun(parts, Progress(0, []), attempt);
  }
}
