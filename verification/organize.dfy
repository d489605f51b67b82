/** `organizeProducts` (organize-products.js): the offline script that groups
    the enriched parts into products. Each part's name is split by the older
    parser; parts with the same key (base name and brand) form one product,
    whose fields come from the first of them, and every part becomes one
    variant of its product. Reading the parts file and writing the products
    file are left out: the parts are the method's input and the products its
    result. */
module Organize {
  import opened Wrappers
  import opened Text
  import opened Dedup
  import opened Catalog
  import opened LegacyClassifier

  /** One product of the organised file. */
  datatype ProductGroup = ProductGroup(
    baseName: string,
    brand: Option<string>,
    productType: string,
    vendorPartNumber: Option<string>,
    baseDetails: Details,
    baseSupplier: Supplier,
    variants: seq<Variant>)

  /** The product key: base name, '_' and brand (or ""), lower-cased, with
      every run of whitespace replaced by one '_'. */
  function GroupKey(baseName: string, brand: Option<string>): string {
    ReplaceSpaceRuns(Lower(baseName + "_" + OrEmpty(brand)), '_')
  }

  /** The name the parser is given; a part without one has no variant (see
      `PartVariant`), so the script fails before its key could matter. */
  function NameText(p: PartData): string {
    OrEmpty(p.details.partName)
  }

  function ProductKey(p: PartData): string {
    GroupKey(LegacyParse(NameText(p)).baseName, p.details.brandCode)
  }

  /** A product key never holds whitespace. */
  lemma KeyHasNoWhitespace(baseName: string, brand: Option<string>)
    ensures forall i :: 0 <= i < |GroupKey(baseName, brand)| ==> !IsSpace(GroupKey(baseName, brand)[i])
  {
    ReplaceSpaceRunsNoSpace(Lower(baseName + "_" + OrEmpty(brand)), '_');
  }

  /** The product a part opens when it is the first with its key, before its
      variant is added. */
  function OpenGroup(p: PartData): ProductGroup {
    ProductGroup(LegacyParse(NameText(p)).baseName, p.details.brandCode,
                 if Truthy(p.details.productCode) then p.details.productCode.value else "Parts",
                 p.details.vendorPartNumber, p.details, p.supplier, [])
  }

  /** The variant a part becomes; `None` when the script throws on the part:
      matching a missing name, or reading a missing price or availability. */
  function PartVariant(p: PartData): Option<Variant> {
    if p.details.partName.None? then None
    else
      var parsed := LegacyParse(p.details.partName.value);
      BuildVariant(p.partNumber, parsed.size, parsed.color, p)
  }

  /** How the script turns a part into a key, a new product and a variant.
      The grouping below is stated for any such triple, so that its proofs do
      not unfold the name parser; the script's own is `NameRules`. */
  datatype Organizer = Organizer(key: PartData -> string, open: PartData -> ProductGroup,
                                 variant: PartData -> Option<Variant>)

  const NameRules: Organizer := Organizer(ProductKey, OpenGroup, PartVariant)

  /** The variants of the parts `ps`, in order. */
  function VariantsOf(o: Organizer, ps: seq<PartData>): seq<Variant>
    decreases |ps|
  {
    if ps == [] then []
    else
      var v := o.variant(ps[|ps| - 1]);
      VariantsOf(o, ps[..|ps| - 1]) + (if v.Some? then [v.value] else [])
  }

  /** The product whose first part is `first`: the product that part opens,
      with the variants of all the parts with its key. */
  function GroupOf(o: Organizer, parts: seq<PartData>, first: PartData): ProductGroup {
    o.open(first).(variants := VariantsOf(o, WithKey(parts, o.key, o.key(first))))
  }

  /** What the script writes: nothing when some part has no variant (the
      script throws on it); otherwise one product per key, in the
      order in which the keys first occur. */
  function Organized(o: Organizer, parts: seq<PartData>): Option<seq<ProductGroup>> {
    if exists i :: 0 <= i < |parts| && o.variant(parts[i]).None? then None
    else
      var firsts := DistinctBy(parts, o.key);
      Some(seq(|firsts|, j requires 0 <= j < |firsts| => GroupOf(o, parts, firsts[j])))
  }

  /** The `productGroups` object, with `order` the order in which its keys
      were created: `Object.values` lists the products in that order, since a
      key always holds '_' and so is never an array index. */
  datatype Table = Table(groups: map<string, ProductGroup>, order: seq<string>)

  /** One turn of the `forEach` for a part that has a variant: the part opens
      its product when its key is new, and its variant is appended to its
      product. */
  function Place(o: Organizer, t: Table, p: PartData): Table
    requires o.variant(p).Some?
  {
    var k := o.key(p);
    var t1 := if k in t.groups then t else Table(t.groups[k := o.open(p).(variants := [])], t.order + [k]);
    Table(t1.groups[k := t1.groups[k].(variants := t1.groups[k].variants + [o.variant(p).value])], t1.order)
  }

  /** The table after the parts `parts`: one key per distinct key of the
      parts, in first-occurrence order, each holding its product. */
  ghost predicate Tabulates(o: Organizer, t: Table, parts: seq<PartData>) {
    && t.order == KeySeq(DistinctBy(parts, o.key), o.key)
    && t.groups.Keys == Keys(parts, o.key)
    && forall j :: 0 <= j < |t.order| ==>
         t.order[j] in t.groups && t.groups[t.order[j]] == GroupOf(o, parts, DistinctBy(parts, o.key)[j])
  }

  /** `organizeProducts`: the `forEach` over the parts, then `Object.values`.
      The callback computes the part's key, opens its product when the key is
      new, builds its variant (reading the price and the availability throws
      when either is missing) and appends it to the product. */
  method OrganizeBy(o: Organizer, parts: seq<PartData>) returns (r: Option<seq<ProductGroup>>)
    ensures r == Organized(o, parts)
  {
    var groups: map<string, ProductGroup> := map[];
    var order: seq<string> := [];
    var i := 0;
    while i < |parts|
      invariant 0 <= i <= |parts|
      invariant forall j :: 0 <= j < i ==> o.variant(parts[j]).Some?
      invariant Tabulates(o, Table(groups, order), parts[..i])
    {
      var p := parts[i];
      ghost var t := Table(groups, order);
      var key := o.key(p);
      if key !in groups {
        groups := groups[key := o.open(p).(variants := [])];
        order := order + [key];
      }
      var v := o.variant(p);
      if v.None? {
        assert o.variant(parts[i]).None?;
        return None;
      }
      groups := groups[key := groups[key].(variants := groups[key].variants + [v.value])];
      PlaceNext(o, parts, i, t);
      i := i + 1;
    }
    assert parts[..|parts|] == parts;
    r := Some(seq(|order|, j requires 0 <= j < |order| => groups[order[j]]));
    TableGivesProducts(o, parts, Table(groups, order), r.value);
  }

  /** Once every part is placed, `Object.values` of the table is the result. */
  lemma TableGivesProducts(o: Organizer, parts: seq<PartData>, t: Table, gs: seq<ProductGroup>)
    requires AllHaveVariants(o, parts) && Tabulates(o, t, parts)
    requires |gs| == |t.order| && forall j :: 0 <= j < |gs| ==> gs[j] == t.groups[t.order[j]]
    ensures Organized(o, parts) == Some(gs)
  {
    var firsts := DistinctBy(parts, o.key);
    assert gs == seq(|firsts|, j requires 0 <= j < |firsts| => GroupOf(o, parts, firsts[j]));
  }

  /** The script itself, with the older name parser. */
  method OrganizeProducts(parts: seq<PartData>) returns (r: Option<seq<ProductGroup>>)
    ensures r == Organized(NameRules, parts)
  {
    r := OrganizeBy(NameRules, parts);
  }

  /** Placing part `i` extends the table from the first `i` parts to the
      first `i + 1`. */
  lemma PlaceNext(o: Organizer, parts: seq<PartData>, i: nat, t: Table)
    requires i < |parts| && o.variant(parts[i]).Some? && Tabulates(o, t, parts[..i])
    ensures Tabulates(o, Place(o, t, parts[i]), parts[..i + 1])
  {
    assert parts[..i + 1] == parts[..i] + [parts[i]];
    OrganizeStep(o, parts[..i], parts[i], t);
  }

  /** Each turn of the loop keeps the table in step with the parts seen. */
  lemma OrganizeStep(o: Organizer, before: seq<PartData>, p: PartData, t: Table)
    requires o.variant(p).Some? && Tabulates(o, t, before)
    ensures Tabulates(o, Place(o, t, p), before + [p])
  {
    DistinctByAppend(before, p, o.key);
    DistinctByKeys(before, o.key);
    KeysAppend(before, p, o.key);
    if o.key(p) in t.groups {
      StepOldKey(o, before, p, t);
    } else {
      StepNewKey(o, before, p, t);
    }
  }

  lemma StepOldKey(o: Organizer, before: seq<PartData>, p: PartData, t: Table)
    requires o.variant(p).Some? && Tabulates(o, t, before)
    requires o.key(p) in t.groups
    requires DistinctBy(before + [p], o.key) == DistinctBy(before, o.key)
    requires Keys(before + [p], o.key) == Keys(before, o.key)
    ensures Tabulates(o, Place(o, t, p), before + [p])
  {
    var d := DistinctBy(before, o.key);
    var t2 := Place(o, t, p);
    forall j | 0 <= j < |t2.order|
      ensures t2.order[j] in t2.groups && t2.groups[t2.order[j]] == GroupOf(o, before + [p], d[j])
    {
      GroupOfStep(o, before, p, d[j]);
    }
  }

  lemma StepNewKey(o: Organizer, before: seq<PartData>, p: PartData, t: Table)
    requires o.variant(p).Some? && Tabulates(o, t, before)
    requires o.key(p) !in t.groups
    requires DistinctBy(before + [p], o.key) == DistinctBy(before, o.key) + [p]
    requires Keys(before + [p], o.key) == Keys(before, o.key) + {o.key(p)}
    ensures Tabulates(o, Place(o, t, p), before + [p])
  {
    var d := DistinctBy(before, o.key);
    var d1 := d + [p];
    var t2 := Place(o, t, p);
    assert t2.order == KeySeq(d1, o.key);
    forall j | 0 <= j < |t2.order|
      ensures t2.order[j] in t2.groups && t2.groups[t2.order[j]] == GroupOf(o, before + [p], d1[j])
    {
      GroupOfStep(o, before, p, d1[j]);
      if j == |d| {
        WithKeyAbsent(before, o.key, o.key(p));
      } else {
        assert d1[j] == d[j];
      }
    }
  }

  /** Appending a part to the parts changes only the product with its key,
      whose variants gain the part's variant at the end. */
  lemma GroupOfStep(o: Organizer, before: seq<PartData>, p: PartData, first: PartData)
    requires o.variant(p).Some?
    ensures GroupOf(o, before + [p], first) ==
            var g := GroupOf(o, before, first);
            if o.key(p) == o.key(first) then g.(variants := g.variants + [o.variant(p).value]) else g
  {
    var k := o.key(first);
    var w := WithKey(before, o.key, k);
    WithKeyAppend(before, p, o.key, k);
    if o.key(p) == k {
      assert WithKey(before + [p], o.key, k) == w + [p];
      assert (w + [p])[..|w|] == w;
      assert VariantsOf(o, w + [p]) == VariantsOf(o, w) + [o.variant(p).value];
    } else {
      assert WithKey(before + [p], o.key, k) == w;
    }
  }

  // ---------------------------------------------------------------------------
  // What the products hold
  // ---------------------------------------------------------------------------

  /** The number of variants over all the products. */
  function TotalVariants(gs: seq<ProductGroup>): nat
    decreases |gs|
  {
    if gs == [] then 0 else |gs[0].variants| + TotalVariants(gs[1..])
  }

  predicate AllHaveVariants(o: Organizer, parts: seq<PartData>) {
    forall i :: 0 <= i < |parts| ==> o.variant(parts[i]).Some?
  }

  /** The variants of parts that all have one: one per part, in order. */
  lemma {:induction false} VariantsOfEach(o: Organizer, ps: seq<PartData>)
    requires AllHaveVariants(o, ps)
    ensures |VariantsOf(o, ps)| == |ps|
    ensures forall m :: 0 <= m < |ps| ==> VariantsOf(o, ps)[m] == o.variant(ps[m]).value
    decreases |ps|
  {
    if ps != [] {
      var p := ps[..|ps| - 1];
      VariantsOfEach(o, p);
    }
  }

  /** No part is lost or counted twice: when the script writes its file,
      the products hold as many variants as there were parts. */
  lemma EveryPartBecomesOneVariant(o: Organizer, parts: seq<PartData>)
    ensures Organized(o, parts).Some? ==> TotalVariants(Organized(o, parts).value) == |parts|
  {
    if Organized(o, parts).Some? {
      var firsts := DistinctBy(parts, o.key);
      SumOfGroups(o, parts, firsts);
      GroupsCoverAll(parts, o.key);
    }
  }

  lemma {:induction false} SumOfGroups(o: Organizer, parts: seq<PartData>, fs: seq<PartData>)
    requires AllHaveVariants(o, parts)
    ensures TotalVariants(seq(|fs|, j requires 0 <= j < |fs| => GroupOf(o, parts, fs[j]))) ==
            CountWithKeys(parts, o.key, KeySeq(fs, o.key))
    decreases |fs|
  {
    var gs := seq(|fs|, j requires 0 <= j < |fs| => GroupOf(o, parts, fs[j]));
    if fs != [] {
      var w := WithKey(parts, o.key, o.key(fs[0]));
      WithKeyMembers(parts, o.key, o.key(fs[0]));
      assert AllHaveVariants(o, w) by {
        forall m | 0 <= m < |w| ensures o.variant(w[m]).Some? {
          assert w[m] in w;
        }
      }
      VariantsOfEach(o, w);
      SumOfGroups(o, parts, fs[1..]);
      assert gs[1..] == seq(|fs[1..]|, j requires 0 <= j < |fs[1..]| => GroupOf(o, parts, fs[1..][j]));
      assert KeySeq(fs, o.key)[1..] == KeySeq(fs[1..], o.key);
    }
  }

  /** The products come one per key of the parts, no key twice, in the order
      in which the keys first occur. */
  lemma ProductsFollowFirstParts(o: Organizer, parts: seq<PartData>)
    ensures Organized(o, parts).Some? ==>
              var ks := KeySeq(DistinctBy(parts, o.key), o.key);
              && |Organized(o, parts).value| == |ks|
              && (forall k :: k in ks <==> k in Keys(parts, o.key))
              && (forall j, j' :: 0 <= j < j' < |ks| ==>
                    && ks[j] != ks[j']
                    && ks[j] in Keys(parts, o.key) && ks[j'] in Keys(parts, o.key)
                    && FirstIndex(parts, o.key, ks[j]) < FirstIndex(parts, o.key, ks[j']))
  {
    if Organized(o, parts).Some? {
      var firsts := DistinctBy(parts, o.key);
      var ks := KeySeq(firsts, o.key);
      DistinctByFirstOccurrences(parts, o.key);
      forall k ensures k in ks <==> k in Keys(parts, o.key) {
        KeysMember(firsts, o.key, k);
      }
    }
  }

  /** Each product is the one opened by the first part with its key, and
      holds the variants of all the parts with that key, in order. */
  lemma ProductContents(o: Organizer, parts: seq<PartData>, j: nat)
    requires Organized(o, parts).Some? && j < |Organized(o, parts).value|
    ensures var g := Organized(o, parts).value[j];
            var k := KeySeq(DistinctBy(parts, o.key), o.key)[j];
            var w := WithKey(parts, o.key, k);
            && k in Keys(parts, o.key)
            && g == o.open(parts[FirstIndex(parts, o.key, k)]).(variants := g.variants)
            && |g.variants| == |w|
            && forall m :: 0 <= m < |w| ==> o.key(w[m]) == k && o.variant(w[m]) == Some(g.variants[m])
  {
    var firsts := DistinctBy(parts, o.key);
    DistinctByFirstOccurrences(parts, o.key);
    var k := o.key(firsts[j]);
    var w := WithKey(parts, o.key, k);
    WithKeyMembers(parts, o.key, k);
    assert AllHaveVariants(o, w) && forall m :: 0 <= m < |w| ==> o.key(w[m]) == k by {
      forall m | 0 <= m < |w| ensures o.variant(w[m]).Some? && o.key(w[m]) == k {
        assert w[m] in w;
      }
    }
    VariantsOfEach(o, w);
  }

  /** The script writes nothing exactly when some part came back without a
      name, without a price or without an availability record. */
  lemma FailsExactlyOnIncompletePart(parts: seq<PartData>)
    ensures Organized(NameRules, parts).None? <==>
              exists i :: 0 <= i < |parts| &&
                (parts[i].details.partName.None? || parts[i].price.None? || parts[i].availability.None?)
  {
    forall i | 0 <= i < |parts|
      ensures NameRules.variant(parts[i]).None? <==>
                parts[i].details.partName.None? || parts[i].price.None? || parts[i].availability.None?
    {
      assert NameRules.variant(parts[i]) == PartVariant(parts[i]);
    }
  }

  /** What one of the script's products holds (its variants are given by
      `ProductContents`, and what a variant holds by `BuildVariant`): its key is the key of its own
      name and brand; its name, brand, vendor part number, details and
      supplier record are those of the first part with that key; and its type
      is that part's product code, or "Parts" when the code is missing or
      empty. */
  lemma ScriptProductFields(parts: seq<PartData>, j: nat)
    requires Organized(NameRules, parts).Some? && j < |Organized(NameRules, parts).value|
    ensures var g := Organized(NameRules, parts).value[j];
            var k := GroupKey(g.baseName, g.brand);
            && k in Keys(parts, ProductKey)
            && var f := parts[FirstIndex(parts, ProductKey, k)];
            && f.details.partName.Some?
            && g.baseName == LegacyParse(f.details.partName.value).baseName
            && g.brand == f.details.brandCode
            && g.vendorPartNumber == f.details.vendorPartNumber
            && g.baseDetails == f.details && g.baseSupplier == f.supplier
            && g.productType == (if Truthy(f.details.productCode) then f.details.productCode.value else "Parts")
  {
    ProductContents(NameRules, parts, j);
    var g := Organized(NameRules, parts).value[j];
    var k := KeySeq(DistinctBy(parts, ProductKey), ProductKey)[j];
    var f := parts[FirstIndex(parts, ProductKey, k)];
    assert g == OpenGroup(f).(variants := g.variants);
  }
}
