/** `uploadToShopify` (upload-to-shopify.js): the script that creates one
    storefront product per organised product, in order, resuming from the
    index kept in its progress file and stopping at the first product that
    fails. The storefront calls are an oracle: `created(i)` is the id of the
    product created for product `i`, or `None` when creating it, or setting
    the inventory or cost of one of its variants, threw. */
module BulkUpload {
  import opened Wrappers
  import opened Text
  import opened Dedup
  import opened Catalog
  import opened Organize
  import opened Shaping
  import opened Resume

  // ---------------------------------------------------------------------------
  // Tags
  // ---------------------------------------------------------------------------

  /** The base name, the brand and the product type, the missing or empty
      ones dropped, joined by ", ". */
  function ProductTags(g: ProductGroup): string {
    TagLine([g.baseName, OrEmpty(g.brand), g.productType])
  }

  /** The tags of a product with a name and a type: the brand sits between
      them when there is one, and is left out otherwise. */
  lemma TagsOfProduct(g: ProductGroup)
    requires g.baseName != "" && g.productType != ""
    ensures Truthy(g.brand) ==> ProductTags(g) == g.baseName + ", " + g.brand.value + ", " + g.productType
    ensures !Truthy(g.brand) ==> ProductTags(g) == g.baseName + ", " + g.productType
  {
    TagLineOfThree(g.baseName, OrEmpty(g.brand), g.productType);
  }

  // ---------------------------------------------------------------------------
  // Images
  // ---------------------------------------------------------------------------

  /** The image uris of a variant; none when its media or their image list
      is missing. */
  function ImagesOf(v: Variant): seq<string> {
    if v.media.Some? && v.media.value.images.Some? then Uris(v.media.value.images.value) else []
  }

  /** The image uris of the variants, variant by variant, in order. */
  function AllImageUris(vs: seq<Variant>): seq<string> {
    ConcatMap(vs, ImagesOf)
  }

  /** `allImages`: the `forEach` over the variants. */
  method CollectImages(variants: seq<Variant>) returns (images: seq<string>)
    ensures images == Distinct(AllImageUris(variants))
  {
    images := [];
    var i := 0;
    while i < |variants|
      invariant 0 <= i <= |variants|
      invariant images == Distinct(AllImageUris(variants[..i]))
    {
      var v := variants[i];
      if v.media.Some? && v.media.value.images.Some? {
        images := AddImages(images, AllImageUris(variants[..i]), v.media.value.images.value);
      } else {
        assert AllImageUris(variants[..i]) + ImagesOf(v) == AllImageUris(variants[..i]);
      }
      ConcatMapStep(variants, ImagesOf, i);
      i := i + 1;
    }
    assert variants[..|variants|] == variants;
  }

  /** The inner `forEach`: each image of one variant is appended unless one
      with the same uri is already there. */
  method AddImages(images: seq<string>, ghost seen: seq<string>, imgs: seq<Image>) returns (r: seq<string>)
    requires images == Distinct(seen)
    ensures r == Distinct(seen + Uris(imgs))
  {
    r := images;
    var k := 0;
    assert seen + Uris(imgs[..0]) == seen;
    while k < |imgs|
      invariant 0 <= k <= |imgs|
      invariant r == Distinct(seen + Uris(imgs[..k]))
    {
      UrisStep(seen, imgs, k);
      DistinctAppend(seen + Uris(imgs[..k]), imgs[k].uri);
      if imgs[k].uri !in r {
        r := r + [imgs[k].uri];
      }
      k := k + 1;
    }
    assert imgs[..|imgs|] == imgs;
  }

  lemma UrisStep(seen: seq<string>, imgs: seq<Image>, k: nat)
    requires k < |imgs|
    ensures seen + Uris(imgs[..k + 1]) == (seen + Uris(imgs[..k])) + [imgs[k].uri]
  {
  }

  /** The product's images: no uri twice, every image of every variant is
      there, nothing else is, and they come in the order in which the uris
      first occur across the variants. */
  lemma ImagesUniqueByUri(vs: seq<Variant>)
    ensures var imgs := Distinct(AllImageUris(vs));
            && (forall a, b :: 0 <= a < b < |imgs| ==> imgs[a] != imgs[b])
            && (forall u :: u in imgs <==> exists i :: 0 <= i < |vs| && u in ImagesOf(vs[i]))
            && FirstOccurrences(imgs, AllImageUris(vs), Identity)
  {
    DistinctProperties(AllImageUris(vs));
    forall u ensures u in AllImageUris(vs) <==> exists i :: 0 <= i < |vs| && u in ImagesOf(vs[i]) {
      ConcatMapMembers(vs, ImagesOf, u);
    }
  }

  // ---------------------------------------------------------------------------
  // Fitments metafield
  // ---------------------------------------------------------------------------

  /** `v.fitments?.fitments || []`. */
  function FitmentsOf(v: Variant): seq<Fitment> {
    RawFitments(v.fitments)
  }

  /** `allFitments`, the value of the product's fitments metafield before
      `JSON.stringify`: the raw fitments of all the variants (this script
      does not format them). */
  function AllFitments(vs: seq<Variant>): seq<Fitment> {
    ConcatMap(vs, FitmentsOf)
  }

  /** The metafield holds exactly the fitments of the variants, variant by
      variant and repeats included: those of one variant are its own list,
      and those of two runs of variants are the two lists one after the
      other. */
  lemma AllFitmentsOfVariants(vs: seq<Variant>, ws: seq<Variant>, v: Variant)
    ensures forall f :: f in AllFitments(vs) <==> exists i :: 0 <= i < |vs| && f in FitmentsOf(vs[i])
    ensures AllFitments([v]) == FitmentsOf(v)
    ensures AllFitments(vs + ws) == AllFitments(vs) + AllFitments(ws)
  {
    forall f ensures f in AllFitments(vs) <==> exists i :: 0 <= i < |vs| && f in FitmentsOf(vs[i]) {
      ConcatMapMembers(vs, FitmentsOf, f);
    }
    assert [v][..0] == [];
    assert ConcatMap([v], FitmentsOf) == ConcatMap([], FitmentsOf) + FitmentsOf(v);
    ConcatMapAppend(vs, ws, FitmentsOf);
  }

  // ---------------------------------------------------------------------------
  // Variants and options
  // ---------------------------------------------------------------------------

  /** A variant as sent: its SKU and price, `option1` only when it has a
      size and `option2` only when it has a colour. */
  datatype VariantData = VariantData(sku: string, price: real, option1: Option<string>, option2: Option<string>)

  function UploadVariant(v: Variant): VariantData {
    VariantData(v.partNumber, v.price,
                if Truthy(v.size) then Some(v.size.value) else None,
                if Truthy(v.color) then Some(v.color.value) else None)
  }

  datatype ProductOption = ProductOption(name: string, values: seq<string>)

  /** `variants.map(v => v.size).filter(Boolean)`. */
  function Sizes(vs: seq<Variant>): seq<string> {
    NonEmpty(seq(|vs|, i requires 0 <= i < |vs| => OrEmpty(vs[i].size)))
  }

  function Colors(vs: seq<Variant>): seq<string> {
    NonEmpty(seq(|vs|, i requires 0 <= i < |vs| => OrEmpty(vs[i].color)))
  }

  /** The options list: Size when some variant has a size, then Color when
      some variant has a colour, each with its distinct values; nothing is
      sent when neither exists. */
  function OptionsList(vs: seq<Variant>): seq<ProductOption> {
    (if HasSizes(vs) then [ProductOption("Size", Distinct(Sizes(vs)))] else []) +
    (if HasColors(vs) then [ProductOption("Color", Distinct(Colors(vs)))] else [])
  }

  function ProductOptions(vs: seq<Variant>): Option<seq<ProductOption>> {
    var opts := OptionsList(vs);
    if |opts| > 0 then Some(opts) else None
  }

  lemma SizesMembers(vs: seq<Variant>, s: string)
    ensures s in Distinct(Sizes(vs)) <==> exists i :: 0 <= i < |vs| && Truthy(vs[i].size) && vs[i].size.value == s
  {
    var raw := seq(|vs|, i requires 0 <= i < |vs| => OrEmpty(vs[i].size));
    DistinctProperties(Sizes(vs));
    if s in raw && s != "" {
      var i :| 0 <= i < |raw| && raw[i] == s;
      assert Truthy(vs[i].size) && vs[i].size.value == s;
    }
    if exists i :: 0 <= i < |vs| && Truthy(vs[i].size) && vs[i].size.value == s {
      var i :| 0 <= i < |vs| && Truthy(vs[i].size) && vs[i].size.value == s;
      assert raw[i] == s;
    }
  }

  lemma ColorsMembers(vs: seq<Variant>, c: string)
    ensures c in Distinct(Colors(vs)) <==> exists i :: 0 <= i < |vs| && Truthy(vs[i].color) && vs[i].color.value == c
  {
    var raw := seq(|vs|, i requires 0 <= i < |vs| => OrEmpty(vs[i].color));
    DistinctProperties(Colors(vs));
    if c in raw && c != "" {
      var i :| 0 <= i < |raw| && raw[i] == c;
      assert Truthy(vs[i].color) && vs[i].color.value == c;
    }
    if exists i :: 0 <= i < |vs| && Truthy(vs[i].color) && vs[i].color.value == c {
      var i :| 0 <= i < |vs| && Truthy(vs[i].color) && vs[i].color.value == c;
      assert raw[i] == c;
    }
  }

  /** A Size option exists exactly when some variant has a size, a Color
      option exactly when some variant has a colour, Size first; no option at
      all is sent when neither does; and each option's values are the
      variants' values without repeats, every one of them. */
  lemma OptionsFollowVariants(vs: seq<Variant>)
    ensures ProductOptions(vs).None? <==> !HasSizes(vs) && !HasColors(vs)
    ensures var opts := OptionsList(vs);
            && |opts| <= 2
            && (HasSizes(vs) <==> |opts| > 0 && opts[0].name == "Size")
            && (HasColors(vs) <==> |opts| > 0 && opts[|opts| - 1].name == "Color")
            && forall j :: 0 <= j < |opts| ==>
                 && (forall a, b :: 0 <= a < b < |opts[j].values| ==> opts[j].values[a] != opts[j].values[b])
                 && (opts[j].name == "Size" ==> forall s :: s in opts[j].values <==>
                       exists i :: 0 <= i < |vs| && Truthy(vs[i].size) && vs[i].size.value == s)
                 && (opts[j].name == "Color" ==> forall c :: c in opts[j].values <==>
                       exists i :: 0 <= i < |vs| && Truthy(vs[i].color) && vs[i].color.value == c)
  {
    DistinctProperties(Sizes(vs));
    DistinctProperties(Colors(vs));
    forall s { SizesMembers(vs, s); }
    forall c { ColorsMembers(vs, c); }
  }

  /** Each value a variant sends is among the values of the option with its
      name. */
  lemma VariantValuesAreOptionValues(vs: seq<Variant>, i: nat)
    requires i < |vs|
    ensures var d := UploadVariant(vs[i]);
            var opts := OptionsList(vs);
            && (d.option1.Some? ==> opts[0].name == "Size" && d.option1.value in opts[0].values)
            && (d.option2.Some? ==> opts[|opts| - 1].name == "Color" && d.option2.value in opts[|opts| - 1].values)
  {
    var d := UploadVariant(vs[i]);
    if d.option1.Some? {
      SizesMembers(vs, d.option1.value);
    }
    if d.option2.Some? {
      ColorsMembers(vs, d.option2.value);
    }
  }

  /** A variant whose product has only a Color option (its variants have
      colours but no sizes) still sends its colour as `option2`, the value of
      a second option that the product does not define. */
  lemma ColourOnlyVariantUsesMissingOption()
    ensures var v := Variant("P-1", None, Some("RED"), 10.0, 5.0, 1, None, None,
                             Details(Some("JACKET"), None, None, None, None));
            && OptionsList([v]) == [ProductOption("Color", ["RED"])]
            && UploadVariant(v).option1 == None
            && UploadVariant(v).option2 == Some("RED")
  {
    var v := Variant("P-1", None, Some("RED"), 10.0, 5.0, 1, None, None,
                     Details(Some("JACKET"), None, None, None, None));
    assert [v][0] == v && |"RED"| == 3;
    assert !HasSizes([v]) && HasColors([v]);
    assert seq(1, i requires 0 <= i < 1 => OrEmpty([v][i].color)) == ["RED"];
    assert NonEmpty(["RED"]) == ["RED"];
    DistinctAppend([], "RED");
  }

  /** The value a variant has for the option named `name`. */
  function ValueFor(v: Variant, name: string): Option<string> {
    if name == "Size" && Truthy(v.size) then Some(v.size.value)
    else if name == "Color" && Truthy(v.color) then Some(v.color.value)
    else None
  }

  /** The variant with its values placed by the position of their option in
      the options list, as the later upload in shopifySync.js does. */
  function PlacedVariant(v: Variant, opts: seq<ProductOption>): VariantData {
    VariantData(v.partNumber, v.price,
                if |opts| >= 1 then ValueFor(v, opts[0].name) else None,
                if |opts| >= 2 then ValueFor(v, opts[1].name) else None)
  }

  /** With the values placed by position, every value a variant sends belongs
      to an option the product defines, and every size or colour it has is
      sent. */
  lemma PlacedValuesHaveOptions(vs: seq<Variant>, i: nat)
    requires i < |vs|
    ensures var opts := OptionsList(vs);
            var d := PlacedVariant(vs[i], opts);
            && (d.option1.Some? ==> |opts| >= 1 && d.option1.value in opts[0].values)
            && (d.option2.Some? ==> |opts| >= 2 && d.option2.value in opts[1].values)
            && (Truthy(vs[i].size) ==> d.option1 == Some(vs[i].size.value))
            && (Truthy(vs[i].color) ==>
                  (if HasSizes(vs) then d.option2 else d.option1) == Some(vs[i].color.value))
  {
    var opts := OptionsList(vs);
    SizesMembers(vs, if Truthy(vs[i].size) then vs[i].size.value else "");
    ColorsMembers(vs, if Truthy(vs[i].color) then vs[i].color.value else "");
  }

  // ---------------------------------------------------------------------------
  // The resumable upload loop
  // ---------------------------------------------------------------------------

  /** One entry of `uploaded_products`. */
  datatype UploadedProduct = UploadedProduct(shopifyId: int, title: string, variantCount: nat)

  function Entry(g: ProductGroup, id: int): UploadedProduct {
    UploadedProduct(id, g.baseName, |g.variants|)
  }

  /** The entry each product gets when it was created. */
  function UploadSteps(products: seq<ProductGroup>, created: nat -> Option<int>): nat -> Option<UploadedProduct> {
    (i: nat) => if i < |products| && created(i).Some? then Some(Entry(products[i], created(i).value)) else None
  }

  /** `uploadToShopify`: the progress is read (or started); after each
      product that was created it gains one entry, its index moves past the
      product and it is saved; the first failure ends the loop. */
  method UploadToShopify(file: ProgressFile<UploadedProduct>, products: seq<ProductGroup>, created: nat -> Option<int>)
    returns (progress: Progress<UploadedProduct>)
    modifies file
    ensures progress == RunFrom(|products|, Start(old(file.saved)), UploadSteps(products, created))
    ensures file.saved == if progress.lastIndex == Start(old(file.saved)).lastIndex then old(file.saved) else Some(progress)
  {
    progress := Start(file.saved);
    ghost var start := progress;
    ghost var steps := UploadSteps(products, created);
    var i := progress.lastIndex;
    while i < |products|
      invariant progress.lastIndex == i && start.lastIndex <= i
      invariant RunFrom(|products|, progress, steps) == RunFrom(|products|, start, steps)
      invariant file.saved == if i == start.lastIndex then old(file.saved) else Some(progress)
      decreases |products| - i
    {
      var outcome := created(i);
      if outcome.None? {
        break;
      }
      progress := progress.(done := progress.done + [Entry(products[i], outcome.value)]);
      progress := progress.(lastIndex := i + 1);
      file.saved := Some(progress);
      i := i + 1;
    }
  }

  /** A run uploads the products from the saved index on, one entry per
      product created, each naming the product and counting its variants,
      and stops at the first product that failed. */
  lemma UploadRun(products: seq<ProductGroup>, p: Progress<UploadedProduct>, created: nat -> Option<int>)
    requires p.lastIndex <= |products|
    ensures var r := RunFrom(|products|, p, UploadSteps(products, created));
            && p.lastIndex <= r.lastIndex <= |products|
            && |r.done| == |p.done| + (r.lastIndex - p.lastIndex)
            && r.done[..|p.done|] == p.done
            && (forall k :: p.lastIndex <= k < r.lastIndex ==>
                  && created(k).Some?
                  && r.done[|p.done| + (k - p.lastIndex)] == UploadedProduct(created(k).value, products[k].baseName, |products[k].variants|))
            && (r.lastIndex < |products| ==> created(r.lastIndex).None?)
  {
    var steps := UploadSteps(products, created);
    RunShape(|products|, p, steps);
    forall k | p.lastIndex <= k < |products|
      ensures steps(k).Some? <==> created(k).Some?
      ensures steps(k).Some? ==> steps(k).value == UploadedProduct(created(k).value, products[k].baseName, |products[k].variants|)
    {
    }
  }
}
