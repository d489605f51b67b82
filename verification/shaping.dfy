/** The pure shaping done in `shopifySync.js` before a product is sent to the
    storefront: the brand lookup, the tags and product type, the removal of
    duplicate variants, the choice of options and of the option values each
    variant carries, and the filter that drops empty metafields. */
module Shaping {
  import opened Wrappers
  import opened Text
  import opened Dedup
  import opened Catalog

  // ---------------------------------------------------------------------------
  // Brands
  // ---------------------------------------------------------------------------

  /** An entry of the brands file; its name may be missing. */
  datatype Brand = Brand(code: string, name: Option<string>)

  /** The lookup built from the brands file: each code maps to the name of the
      last brand with that code. */
  function LookupOf(brands: seq<Brand>): map<string, Option<string>>
    decreases |brands|
  {
    if brands == [] then map[]
    else
      var b := brands[|brands| - 1];
      LookupOf(brands[..|brands| - 1])[b.code := b.name]
  }

  /** The `forEach` that fills `brandsLookup`. */
  method BuildBrandsLookup(brands: seq<Brand>) returns (lookup: map<string, Option<string>>)
    ensures lookup == LookupOf(brands)
  {
    lookup := map[];
    var i := 0;
    while i < |brands|
      invariant 0 <= i <= |brands|
      invariant lookup == LookupOf(brands[..i])
    {
      assert brands[..i + 1][..i] == brands[..i];
      lookup := lookup[brands[i].code := brands[i].name];
      i := i + 1;
    }
    assert brands[..|brands|] == brands;
  }

  /** A code is in the lookup exactly when some brand has it, and it maps to
      the name of the last such brand. */
  lemma {:induction false} LookupLastWins(brands: seq<Brand>, code: string)
    ensures code in LookupOf(brands) <==> exists i :: 0 <= i < |brands| && brands[i].code == code
    ensures code in LookupOf(brands) ==>
              exists i :: 0 <= i < |brands| && brands[i].code == code &&
                          LookupOf(brands)[code] == brands[i].name &&
                          forall j :: i < j < |brands| ==> brands[j].code != code
    decreases |brands|
  {
    if brands != [] {
      var p, b := brands[..|brands| - 1], brands[|brands| - 1];
      LookupLastWins(p, code);
      if b.code == code {
        assert brands[|brands| - 1].code == code;
      } else if code in LookupOf(p) {
        var i :| 0 <= i < |p| && p[i].code == code && LookupOf(p)[code] == p[i].name &&
                 forall j :: i < j < |p| ==> p[j].code != code;
        assert brands[i] == p[i];
        assert forall j :: i < j < |brands| ==> brands[j].code != code by {
          forall j | i < j < |brands| ensures brands[j].code != code {
            if j < |p| { assert brands[j] == p[j]; }
          }
        }
      } else {
        forall i | 0 <= i < |brands| ensures brands[i].code != code {
          if i < |p| { assert brands[i] == p[i]; }
        }
      }
    }
  }

  /** `getBrandName`: the looked-up name when there is a non-empty one, else
      the code when it is non-empty, else "Unknown". */
  function GetBrandName(lookup: map<string, Option<string>>, code: Option<string>): (r: string)
    ensures r != ""
    ensures r == "Unknown" || (Truthy(code) && r == code.value) ||
            (code.Some? && code.value in lookup && lookup[code.value] == Some(r))
  {
    if code.Some? && code.value in lookup && Truthy(lookup[code.value]) then lookup[code.value].value
    else if Truthy(code) then code.value
    else "Unknown"
  }

  /** With the lookup built from the brands file, a code resolves to the name
      of the last brand listed with it, or to itself when that name is
      missing or empty, or when no brand has the code. */
  lemma BrandNameFromBrands(brands: seq<Brand>, code: string)
    requires code != ""
    ensures forall i :: 0 <= i < |brands| && brands[i].code == code &&
                        (forall j :: i < j < |brands| ==> brands[j].code != code) ==>
              GetBrandName(LookupOf(brands), Some(code)) ==
                (if Truthy(brands[i].name) then brands[i].name.value else code)
    ensures (forall i :: 0 <= i < |brands| ==> brands[i].code != code) ==>
              GetBrandName(LookupOf(brands), Some(code)) == code
  {
    LookupLastWins(brands, code);
    forall i | 0 <= i < |brands| && brands[i].code == code &&
               (forall j :: i < j < |brands| ==> brands[j].code != code)
      ensures GetBrandName(LookupOf(brands), Some(code)) ==
                (if Truthy(brands[i].name) then brands[i].name.value else code)
    {
      var k :| 0 <= k < |brands| && brands[k].code == code &&
               LookupOf(brands)[code] == brands[k].name &&
               forall j :: k < j < |brands| ==> brands[j].code != code;
      var bi, bk := brands[i], brands[k];
      assert k < i ==> bi.code != code;
      assert i < k ==> bk.code != code;
    }
  }

  // ---------------------------------------------------------------------------
  // Tags and product type
  // ---------------------------------------------------------------------------

  /** `catalog_codes.split(',').map(c => c.trim())`, or nothing when the field
      is missing or empty. */
  function CatalogCodes(d: Details): seq<string> {
    if Truthy(d.catalogCodes) then
      var cs := Split(d.catalogCodes.value, ',');
      seq(|cs|, i requires 0 <= i < |cs| => Trim(cs[i]))
    else []
  }

  /** The tags collected before duplicates and empty ones are dropped: the
      brand name unless it is "Unknown", the product code, and the first three
      catalog codes. */
  function RawTags(lookup: map<string, Option<string>>, d: Details): seq<string> {
    var brand := GetBrandName(lookup, d.brandCode);
    var cs := CatalogCodes(d);
    (if brand != "Unknown" then [brand] else []) +
    (if Truthy(d.productCode) then [d.productCode.value] else []) +
    (if |cs| <= 3 then cs else cs[..3])
  }

  /** `[...new Set(tags)].filter(Boolean)`. */
  function TagList(lookup: map<string, Option<string>>, d: Details): seq<string> {
    NonEmpty(Distinct(RawTags(lookup, d)))
  }

  /** `generateTags`. */
  function GenerateTags(lookup: map<string, Option<string>>, d: Details): string {
    Join(TagList(lookup, d), ", ")
  }

  /** The tags are the non-empty collected ones, each once, at most five of
      them, and the brand name leads when it is known. */
  lemma TagListProperties(lookup: map<string, Option<string>>, d: Details)
    ensures forall t :: t in TagList(lookup, d) <==> t in RawTags(lookup, d) && t != ""
    ensures var ts := TagList(lookup, d); forall i, j :: 0 <= i < j < |ts| ==> ts[i] != ts[j]
    ensures |TagList(lookup, d)| <= 5
    ensures GetBrandName(lookup, d.brandCode) != "Unknown" ==>
              TagList(lookup, d) != [] && TagList(lookup, d)[0] == GetBrandName(lookup, d.brandCode)
  {
    var raw := RawTags(lookup, d);
    var dist := Distinct(raw);
    DistinctProperties(raw);
    DistinctByLength(raw, Identity);
    NonEmptyKeepsUnique(dist);
    NonEmptyLength(dist);
    if GetBrandName(lookup, d.brandCode) != "Unknown" {
      DistinctByHead(raw, Identity);
    }
  }

  lemma {:induction false} NonEmptyKeepsUnique(s: seq<string>)
    requires KeysUnique(s, Identity)
    ensures var r := NonEmpty(s); forall i, j :: 0 <= i < j < |r| ==> r[i] != r[j]
    decreases |s|
  {
    if s != [] {
      assert KeysUnique(s[1..], Identity) by {
        forall i, j | 0 <= i < j < |s[1..]| ensures s[1..][i] != s[1..][j] {
          assert Identity(s[i + 1]) != Identity(s[j + 1]);
        }
      }
      NonEmptyKeepsUnique(s[1..]);
      if s[0] != "" {
        forall j | 1 <= j < |s| ensures s[j] != s[0] {
          assert Identity(s[0]) != Identity(s[j]);
        }
        assert s[0] !in s[1..];
        assert s[0] !in NonEmpty(s[1..]);
      }
    }
  }

  lemma {:induction false} NonEmptyLength(s: seq<string>)
    ensures |NonEmpty(s)| <= |s|
    ensures s != [] && s[0] != "" ==> NonEmpty(s)[0] == s[0]
    decreases |s|
  {
    if s != [] {
      NonEmptyLength(s[1..]);
    }
  }

  /** `getProductType`: the product code, else the first catalog code
      trimmed, else "Parts & Accessories". */
  function GetProductType(d: Details): (r: string)
    ensures r != ""
  {
    if Truthy(d.productCode) then d.productCode.value
    else if Truthy(d.catalogCodes) && Trim(Split(d.catalogCodes.value, ',')[0]) != "" then
      Trim(Split(d.catalogCodes.value, ',')[0])
    else "Parts & Accessories"
  }

  /** The product type is one of the product's tags unless it is the default. */
  lemma ProductTypeIsTag(lookup: map<string, Option<string>>, d: Details)
    ensures GetProductType(d) == "Parts & Accessories" || GetProductType(d) in TagList(lookup, d)
  {
    TagListProperties(lookup, d);
    var raw := RawTags(lookup, d);
    var brand := GetBrandName(lookup, d.brandCode);
    var pre := (if brand != "Unknown" then [brand] else []);
    if Truthy(d.productCode) {
      assert raw[|pre|] == d.productCode.value;
    } else if Truthy(d.catalogCodes) && Trim(Split(d.catalogCodes.value, ',')[0]) != "" {
      var cs := CatalogCodes(d);
      assert cs[0] == Trim(Split(d.catalogCodes.value, ',')[0]);
      assert raw[|pre|] == cs[0];
    }
  }

  // ---------------------------------------------------------------------------
  // Variants and options
  // ---------------------------------------------------------------------------

  /** `size || 'NONE'`. */
  function OrNone(s: Option<string>): string { if Truthy(s) then s.value else "NONE" }

  /** The key under which duplicate variants are recognised. */
  function VariantKey(v: Variant): string { OrNone(v.size) + "_" + OrNone(v.color) }

  /** The loop that keeps the first variant per key; what `DistinctBy` keeps
      is stated by `DistinctByFirstOccurrences`. */
  method DedupVariants(variants: seq<Variant>) returns (unique: seq<Variant>)
    ensures unique == DistinctBy(variants, VariantKey)
  {
    unique := KeepFirstPerKey(variants, VariantKey);
  }

  predicate HasSizes(vs: seq<Variant>) { exists i :: 0 <= i < |vs| && Truthy(vs[i].size) }

  predicate HasColors(vs: seq<Variant>) { exists i :: 0 <= i < |vs| && Truthy(vs[i].color) }

  /** The product's options: Size when some variant has a size, Color when
      some variant has a colour, Size first. */
  function OptionNames(vs: seq<Variant>): (r: seq<string>)
    ensures "Size" in r <==> HasSizes(vs)
    ensures "Color" in r <==> HasColors(vs)
    ensures r == [] || r == ["Size"] || r == ["Color"] || r == ["Size", "Color"]
  {
    if HasSizes(vs) && HasColors(vs) then ["Size", "Color"]
    else if HasSizes(vs) then ["Size"]
    else if HasColors(vs) then ["Color"]
    else []
  }

  /** A variant as sent to the storefront. */
  datatype VariantPayload = VariantPayload(sku: string, price: real, option1: Option<string>, option2: Option<string>)

  /** `x || "Default"`. */
  function OrDefault(s: Option<string>): string { if Truthy(s) then s.value else "Default" }

  function Payload(v: Variant, names: seq<string>): VariantPayload {
    if names == ["Size", "Color"] then
      VariantPayload(v.partNumber, v.price, Some(OrDefault(v.size)), Some(OrDefault(v.color)))
    else if names == ["Size"] then VariantPayload(v.partNumber, v.price, Some(OrDefault(v.size)), None)
    else if names == ["Color"] then VariantPayload(v.partNumber, v.price, Some(OrDefault(v.color)), None)
    else VariantPayload(v.partNumber, v.price, None, None)
  }

  /** The options and variants of the product built from a draft. */
  datatype ProductShape = ProductShape(options: Option<seq<string>>, variants: seq<VariantPayload>)

  /** What `uploadProductToShopify` sends for the draft's variants: after the
      duplicates are gone, a single variant carries only its SKU and price,
      and several carry one value per option; the options are sent only with
      several variants. */
  function ShapeProduct(draftVariants: seq<Variant>): (p: ProductShape)
    requires draftVariants != []
  {
    var vs := DistinctBy(draftVariants, VariantKey);
    DistinctByHead(draftVariants, VariantKey);
    var names := OptionNames(vs);
    if |vs| == 1 then ProductShape(None, [VariantPayload(vs[0].partNumber, vs[0].price, None, None)])
    else
      ProductShape(if names != [] then Some(names) else None,
                   seq(|vs|, i requires 0 <= i < |vs| => Payload(vs[i], names)))
  }

  /** One payload per surviving variant, in order, each with that variant's
      part number as SKU and its price; options are sent exactly when there
      are several variants and some have a size or a colour, and then every
      payload carries exactly one value per option: the variant's own value,
      or "Default" when it has none. */
  lemma ShapeProductProperties(draftVariants: seq<Variant>)
    requires draftVariants != []
    ensures var p := ShapeProduct(draftVariants);
            var vs := DistinctBy(draftVariants, VariantKey);
            && |p.variants| == |vs|
            && (forall i :: 0 <= i < |vs| ==> p.variants[i].sku == vs[i].partNumber && p.variants[i].price == vs[i].price)
            && (p.options.Some? <==> |vs| > 1 && (HasSizes(vs) || HasColors(vs)))
            && (p.options.Some? ==> p.options.value == OptionNames(vs))
            && (forall i :: 0 <= i < |vs| ==>
                  && (p.variants[i].option1.Some? <==> p.options.Some?)
                  && (p.variants[i].option2.Some? <==> p.options == Some(["Size", "Color"])))
            && (forall i :: 0 <= i < |vs| && p.options.Some? && p.options.value[0] == "Size" ==>
                  p.variants[i].option1 == Some(OrDefault(vs[i].size)))
            && (forall i :: 0 <= i < |vs| && p.options.Some? && p.options.value[0] == "Color" ==>
                  p.variants[i].option1 == Some(OrDefault(vs[i].color)))
            && (forall i :: 0 <= i < |vs| && p.options == Some(["Size", "Color"]) ==>
                  p.variants[i].option2 == Some(OrDefault(vs[i].color)))
  {
    DistinctByHead(draftVariants, VariantKey);
  }

  /** A size or colour value that cannot be confused with the markers the
      source writes for a missing one. */
  predicate CleanValue(s: Option<string>) {
    Truthy(s) ==> s.value != "NONE" && s.value != "Default"
  }

  /** When no size or colour is one of the two markers, two variants kept by
      the dedup never carry the same option values, which is what the
      storefront requires of a product's variants; and several variants
      always come with options. */
  lemma OptionCombinationsDistinct(draftVariants: seq<Variant>)
    requires draftVariants != []
    requires forall i :: 0 <= i < |draftVariants| ==>
               CleanValue(draftVariants[i].size) && CleanValue(draftVariants[i].color)
    ensures var p := ShapeProduct(draftVariants);
            |p.variants| > 1 ==>
              p.options.Some? &&
              forall i, j :: 0 <= i < j < |p.variants| ==>
                (p.variants[i].option1, p.variants[i].option2) != (p.variants[j].option1, p.variants[j].option2)
  {
    var vs := DistinctBy(draftVariants, VariantKey);
    DistinctByFirstOccurrences(draftVariants, VariantKey);
    DistinctByElements(draftVariants, VariantKey);
    DistinctByHead(draftVariants, VariantKey);
    if |vs| > 1 {
      KeptVariantsDiffer(vs);
      PayloadsDiffer(vs);
    }
  }

  /** Variants with different keys differ in their size or in their colour,
      each read with `|| 'NONE'`. */
  lemma KeptVariantsDiffer(vs: seq<Variant>)
    requires KeysUnique(vs, VariantKey)
    ensures forall i, j :: 0 <= i < j < |vs| ==>
              OrNone(vs[i].size) != OrNone(vs[j].size) || OrNone(vs[i].color) != OrNone(vs[j].color)
  {
    forall i, j | 0 <= i < j < |vs|
      ensures OrNone(vs[i].size) != OrNone(vs[j].size) || OrNone(vs[i].color) != OrNone(vs[j].color)
    {
      assert VariantKey(vs[i]) != VariantKey(vs[j]);
    }
  }

  lemma PayloadsDiffer(vs: seq<Variant>)
    requires |vs| > 1
    requires forall v :: v in vs ==> CleanValue(v.size) && CleanValue(v.color)
    requires forall i, j :: 0 <= i < j < |vs| ==>
               OrNone(vs[i].size) != OrNone(vs[j].size) || OrNone(vs[i].color) != OrNone(vs[j].color)
    ensures OptionNames(vs) != []
    ensures forall i, j :: 0 <= i < j < |vs| ==>
              var p, q := Payload(vs[i], OptionNames(vs)), Payload(vs[j], OptionNames(vs));
              (p.option1, p.option2) != (q.option1, q.option2)
  {
    var names := OptionNames(vs);
    assert !HasSizes(vs) ==> OrNone(vs[0].size) == OrNone(vs[1].size);
    assert !HasColors(vs) ==> OrNone(vs[0].color) == OrNone(vs[1].color);
    forall i, j | 0 <= i < j < |vs|
      ensures var p, q := Payload(vs[i], names), Payload(vs[j], names);
              (p.option1, p.option2) != (q.option1, q.option2)
    {
      assert vs[i] in vs && vs[j] in vs;
      DefaultAgreesWithNone(vs[i].size, vs[j].size);
      DefaultAgreesWithNone(vs[i].color, vs[j].color);
      if !HasColors(vs) {
        assert !Truthy(vs[i].color) && !Truthy(vs[j].color);
      }
      if !HasSizes(vs) {
        assert !Truthy(vs[i].size) && !Truthy(vs[j].size);
      }
    }
  }

  /** For clean values, `x || "Default"` tells apart what `x || 'NONE'` does. */
  lemma DefaultAgreesWithNone(a: Option<string>, b: Option<string>)
    requires CleanValue(a) && CleanValue(b)
    ensures OrDefault(a) == OrDefault(b) <==> OrNone(a) == OrNone(b)
  {
  }

  // ---------------------------------------------------------------------------
  // Metafields
  // ---------------------------------------------------------------------------

  datatype Metafield = Metafield(namespace: string, key: string, kind: string, value: string)

  /** The filter applied to the product's metafields: numbers and booleans
      are always sent, JSON only when it is not an empty object or array, and
      any other kind only when its value is not blank. */
  predicate KeepMetafield(m: Metafield) {
    if m.kind == "number_integer" || m.kind == "number_decimal" then true
    else if m.kind == "boolean" then true
    else if m.kind == "json" then m.value != "{}" && m.value != "[]"
    else m.value != "" && Trim(m.value) != ""
  }

  function FilterMetafields(ms: seq<Metafield>): (r: seq<Metafield>)
    ensures forall m :: m in r <==> m in ms && KeepMetafield(m)
    ensures |r| <= |ms|
    decreases |ms|
  {
    if ms == [] then []
    else if KeepMetafield(ms[0]) then [ms[0]] + FilterMetafields(ms[1..])
    else FilterMetafields(ms[1..])
  }

  /** The filter keeps the order of the fields it keeps: filtering two runs
      of fields one after the other gives the kept fields of the first run
      followed by those of the second. */
  lemma {:induction false} FilterMetafieldsAppend(a: seq<Metafield>, b: seq<Metafield>)
    ensures FilterMetafields(a + b) == FilterMetafields(a) + FilterMetafields(b)
    decreases |a|
  {
    if a == [] {
      assert a + b == b;
    } else {
      assert (a + b)[0] == a[0] && (a + b)[1..] == a[1..] + b;
      FilterMetafieldsAppend(a[1..], b);
    }
  }

  /** Filtering twice is filtering once. */
  lemma {:induction false} FilterMetafieldsIdempotent(ms: seq<Metafield>)
    ensures FilterMetafields(FilterMetafields(ms)) == FilterMetafields(ms)
    decreases |ms|
  {
    if ms != [] {
      FilterMetafieldsIdempotent(ms[1..]);
      if KeepMetafield(ms[0]) {
        var r := [ms[0]] + FilterMetafields(ms[1..]);
        assert r[1..] == FilterMetafields(ms[1..]);
      }
    }
  }

  /** Every field sent has something in it: no blank text and no empty JSON. */
  lemma SentMetafieldsNotBlank(ms: seq<Metafield>)
    ensures forall m :: m in FilterMetafields(ms) && m.kind == "json" ==> m.value != "{}" && m.value != "[]"
    ensures forall m :: (m in FilterMetafields(ms) && m.kind != "json" && m.kind != "boolean" &&
                         m.kind != "number_integer" && m.kind != "number_decimal") ==> Trim(m.value) != ""
  {
  }
}
