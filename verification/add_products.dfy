/** `shopify/addProducts.js`: products of a supplier's catalogue file become
    Shopify products. Each item's category path is turned into category
    names through the categories file, which give the product type and,
    after the gender, the tags; the euro sign is dropped from the prices.
    A stored index says where to resume. The product creation request is an
    oracle: `posted(i)` says whether item `i` was created. */
module AddProducts {
  import opened Wrappers
  import opened Text
  import opened Resume

  /** One item of the catalogue file. `categories` is `None` when the field
      is not a string. `stock` is the number `Number(item.stock)` gives. */
  datatype Item = Item(
    name: string,
    manufacturer: Option<string>,
    description: Option<string>,
    gender: Option<string>,
    categories: Option<string>,
    recommendedPrice: string,
    price: string,
    ean: string,
    stock: int,
    image: string)

  /** The categories file: each known id with its name, which may be missing. */
  type CategoryTable = map<string, Option<string>>

  /** The request body of one product. */
  datatype ProductBody = ProductBody(
    title: string,
    vendor: Option<string>,
    bodyHtml: string,
    productType: string,
    tags: string,
    price: string,
    cost: string,
    sku: string,
    barcode: string,
    inventoryQuantity: int,
    images: seq<string>)

  /** The category ids of an item: its category path split on '/', or none
      when the field is missing, not a string or empty. Joining the ids with
      '/' gives the path back, and no id holds a '/'. */
  function CategoryIds(raw: Option<string>): (r: seq<string>)
    ensures raw.None? || raw.value == "" ==> r == []
    ensures raw.Some? && raw.value != "" ==>
              Join(r, "/") == raw.value && forall id :: id in r ==> '/' !in id
  {
    if raw.Some? && |raw.value| > 0 then
      SplitJoin(raw.value, '/');
      Split(raw.value, '/')
    else []
  }

  /** The name an id stands for, or "" when the id is unknown or has no name
      (both are dropped by the filter). */
  function CategoryName(table: CategoryTable, id: string): string {
    if id in table then OrEmpty(table[id]) else ""
  }

  /** The names of the known, named categories among `ids`, in order. */
  function CategoryNames(table: CategoryTable, ids: seq<string>): seq<string> {
    NonEmpty(seq(|ids|, k requires 0 <= k < |ids| => CategoryName(table, ids[k])))
  }

  /** The first category name, or "" when there is none. */
  function MainCategory(names: seq<string>): string {
    if |names| > 0 then names[0] else ""
  }

  /** The tags: the gender, when present, and the category names, separated
      by ','. */
  function Tags(gender: Option<string>, names: seq<string>): string {
    Join(NonEmpty([OrEmpty(gender)] + names), ",")
  }

  /** The body posted for an item. */
  function Body(item: Item, table: CategoryTable): ProductBody {
    var names := CategoryNames(table, CategoryIds(item.categories));
    ProductBody(
      item.name,
      item.manufacturer,
      OrEmpty(item.description),
      MainCategory(names),
      Tags(item.gender, names),
      RemoveFirst(item.recommendedPrice, '€'),
      RemoveFirst(item.price, '€'),
      item.ean,
      item.ean,
      item.stock,
      [item.image])
  }

  /** A name is among the category names exactly when some id of the path is
      known and carries that (non-empty) name. */
  lemma CategoryNamesMembers(table: CategoryTable, ids: seq<string>, n: string)
    ensures n in CategoryNames(table, ids) <==>
              n != "" && exists k :: 0 <= k < |ids| && ids[k] in table && table[ids[k]] == Some(n)
  {
    var ss := seq(|ids|, k requires 0 <= k < |ids| => CategoryName(table, ids[k]));
    if n in CategoryNames(table, ids) {
      var k :| 0 <= k < |ss| && ss[k] == n;
      assert ids[k] in table && table[ids[k]] == Some(n);
    }
    if n != "" && exists k :: 0 <= k < |ids| && ids[k] in table && table[ids[k]] == Some(n) {
      var k :| 0 <= k < |ids| && ids[k] in table && table[ids[k]] == Some(n);
      assert ss[k] == n;
    }
  }

  /** The category names follow the path: the names of the ids before it,
      then the name of the next id when it has one. */
  lemma CategoryNamesAppend(table: CategoryTable, ids: seq<string>, id: string)
    ensures CategoryNames(table, ids + [id])
            == CategoryNames(table, ids) + (if CategoryName(table, id) != "" then [CategoryName(table, id)] else [])
  {
    var ss := seq(|ids|, k requires 0 <= k < |ids| => CategoryName(table, ids[k]));
    var ts := seq(|ids + [id]|, k requires 0 <= k < |ids + [id]| => CategoryName(table, (ids + [id])[k]));
    assert ts == ss + [CategoryName(table, id)];
    NonEmptyAppend(ss, [CategoryName(table, id)]);
    assert [CategoryName(table, id)][1..] == [];
  }

  /** The product type is the name of the first id of the path that is known
      and named, or "" when there is none. */
  lemma MainCategoryIsFirstNamed(table: CategoryTable, ids: seq<string>)
    ensures (forall k :: 0 <= k < |ids| ==> CategoryName(table, ids[k]) == "") ==>
              MainCategory(CategoryNames(table, ids)) == ""
    ensures forall k :: 0 <= k < |ids| && CategoryName(table, ids[k]) != ""
                        && (forall j :: 0 <= j < k ==> CategoryName(table, ids[j]) == "") ==>
              MainCategory(CategoryNames(table, ids)) == CategoryName(table, ids[k])
  {
    var ss := seq(|ids|, k requires 0 <= k < |ids| => CategoryName(table, ids[k]));
    if forall k :: 0 <= k < |ids| ==> CategoryName(table, ids[k]) == "" {
      NonEmptyOfBlanks(ss);
    }
    forall k | 0 <= k < |ids| && CategoryName(table, ids[k]) != ""
                 && (forall j :: 0 <= j < k ==> CategoryName(table, ids[j]) == "")
      ensures MainCategory(CategoryNames(table, ids)) == CategoryName(table, ids[k])
    {
      NonEmptyFirst(ss, k);
    }
  }

  /** The tags are the gender, when present, followed by every category name,
      separated by ','. */
  lemma TagsOfItem(gender: Option<string>, names: seq<string>)
    requires forall n :: n in names ==> n != ""
    ensures Tags(gender, names) == Join((if Truthy(gender) then [gender.value] else []) + names, ",")
  {
    NonEmptyAppend([OrEmpty(gender)], names);
    NonEmptyKeeps(names);
    assert [OrEmpty(gender)][1..] == [];
  }

  /** Only the first euro sign of each price is dropped: a price without one
      is sent as it is, and otherwise the characters around the first one are
      kept, a later one included. */
  lemma PricesDropFirstEuro(item: Item, table: CategoryTable)
    ensures '€' !in item.recommendedPrice ==> Body(item, table).price == item.recommendedPrice
    ensures '€' !in item.price ==> Body(item, table).cost == item.price
    ensures forall k :: 0 <= k < |item.recommendedPrice| && item.recommendedPrice[k] == '€'
                        && '€' !in item.recommendedPrice[..k] ==>
              Body(item, table).price == item.recommendedPrice[..k] + item.recommendedPrice[k + 1..]
    ensures forall k :: 0 <= k < |item.price| && item.price[k] == '€' && '€' !in item.price[..k] ==>
              Body(item, table).cost == item.price[..k] + item.price[k + 1..]
  {
    if '€' !in item.recommendedPrice {
      RemoveFirstAbsent(item.recommendedPrice, '€');
    }
    if '€' !in item.price {
      RemoveFirstAbsent(item.price, '€');
    }
    forall k | 0 <= k < |item.recommendedPrice| && item.recommendedPrice[k] == '€'
                 && '€' !in item.recommendedPrice[..k]
      ensures Body(item, table).price == item.recommendedPrice[..k] + item.recommendedPrice[k + 1..]
    {
      RemoveFirstAt(item.recommendedPrice, '€', k);
    }
    forall k | 0 <= k < |item.price| && item.price[k] == '€' && '€' !in item.price[..k]
      ensures Body(item, table).cost == item.price[..k] + item.price[k + 1..]
    {
      RemoveFirstAt(item.price, '€', k);
    }
  }

  // ---------------------------------------------------------------------------
  // The upload loop
  // ---------------------------------------------------------------------------

  /** The progress record in the database: absent, or the index to resume at. */
  class ProgressStore {
    var index: Option<nat>

    constructor(index0: Option<nat>)
      ensures index == index0
    {
      index := index0;
    }
  }

  datatype Outcome = AllUploaded | StoppedAt(failed: nat)

  /** The index a run starts at: the stored one, or 0 for a new record. */
  function StartIndex(index: Option<nat>): (r: nat)
    ensures index.None? ==> r == 0
    ensures index.Some? ==> r == index.value
  {
    if index.Some? then index.value else 0
  }

  /** The body of each item, under the categories file `table`. */
  function BodyIn(table: CategoryTable): Item -> ProductBody {
    (item: Item) => Body(item, table)
  }

  /** The body each item created contributes, `body` making it. */
  function AddSteps(products: seq<Item>, body: Item -> ProductBody, posted: nat -> bool): nat -> Option<ProductBody> {
    (i: nat) => if i < |products| && posted(i) then Some(body(products[i])) else None
  }

  /** `uploadProducts`: the progress record is read or created with index 0;
      from its index on, each item's body is posted, and after each success
      the index moves past the item; a failure stores the failing index and
      ends the run with an error; after the last item the index is set to the
      number of items. Returns how the run ended and the bodies created,
      `body` making each body. */
  method UploadProductsBy(store: ProgressStore, products: seq<Item>, posted: nat -> bool, body: Item -> ProductBody)
    returns (outcome: Outcome, created: seq<ProductBody>)
    modifies store
    ensures var r := RunFrom(|products|, Progress(StartIndex(old(store.index)), []), AddSteps(products, body, posted));
            && created == r.done
            && outcome == (if r.lastIndex < |products| then StoppedAt(r.lastIndex) else AllUploaded)
            && store.index == Some(if r.lastIndex < |products| then r.lastIndex else |products|)
  {
    if store.index.None? {
      store.index := Some(0);
    }
    var start := store.index.value;
    ghost var steps := AddSteps(products, body, posted);
    ghost var p0 := Progress(start, []);
    ghost var p := p0;
    created := [];
    var i := start;
    while i < |products|
      invariant p.lastIndex == i && p.done == created && start <= i
      invariant RunFrom(|products|, p, steps) == RunFrom(|products|, p0, steps)
      invariant store.index == Some(i)
      decreases |products| - i
    {
      if !posted(i) {
        store.index := Some(i);
        outcome := StoppedAt(i);
        return;
      }
      created := created + [body(products[i])];
      p := Progress(i + 1, created);
      store.index := Some(i + 1);
      i := i + 1;
    }
    store.index := Some(|products|);
    outcome := AllUploaded;
  }

  /** `uploadProducts` with the bodies of this file. */
  method UploadProducts(store: ProgressStore, products: seq<Item>, table: CategoryTable, posted: nat -> bool)
    returns (outcome: Outcome, created: seq<ProductBody>)
    modifies store
    ensures var r := RunFrom(|products|, Progress(StartIndex(old(store.index)), []), AddSteps(products, BodyIn(table), posted));
            && created == r.done
            && outcome == (if r.lastIndex < |products| then StoppedAt(r.lastIndex) else AllUploaded)
            && store.index == Some(if r.lastIndex < |products| then r.lastIndex else |products|)
  {
    outcome, created := UploadProductsBy(store, products, posted, BodyIn(table));
  }

  /** A run creates the items from the stored index on, in order, one body
      each; it stops at the first item that was not created and stores that
      item's index, so the next run retries it; a run that reaches the end
      stores the number of items, also when the stored index was beyond it. */
  lemma AddRun(products: seq<Item>, body: Item -> ProductBody, posted: nat -> bool, index: Option<nat>)
    ensures var start := StartIndex(index);
            var r := RunFrom(|products|, Progress(start, []), AddSteps(products, body, posted));
            && (start <= |products| ==>
                  && start <= r.lastIndex <= |products|
                  && |r.done| == r.lastIndex - start
                  && (forall k :: start <= k < r.lastIndex ==>
                        posted(k) && r.done[k - start] == body(products[k])))
            && (r.lastIndex < |products| ==> !posted(r.lastIndex))
            && (start > |products| ==> r.lastIndex == start && r.done == [])
  {
    var start := StartIndex(index);
    var steps := AddSteps(products, body, posted);
    if start <= |products| {
      RunShape(|products|, Progress(start, []), steps);
      var r := RunFrom(|products|, Progress(start, []), steps);
      forall k | start <= k < r.lastIndex
        ensures posted(k) && r.done[k - start] == body(products[k])
      {
        assert steps(k).Some?;
      }
      if r.lastIndex < |products| {
        assert steps(r.lastIndex).None?;
      }
    }
  }
}
