# Parts catalogue sync: a Dafny model

This project models the core of a Node.js service that copies a motorcycle parts catalogue from a supplier's API into a Shopify store.

**The incremental sync step (`syncToShopify` in `shopifySync.js`).** Each call reads a durable checkpoint (`last_index`, `last_part_number`) and the product draft saved on disk. It fetches one part and splits its name into a base name, a size and a colour. Then it does one of four things:

- appends the part to the draft as a variant;
- hands the draft to the storefront and starts a new one;
- starts the first draft;
- skips the part.

It then moves the checkpoint on by one part. There are three exceptions:

- when the parts are exhausted, the call reports `complete`;
- when the upload hit the store's "Daily variant creation limit", it reports `dailyLimitReached` and changes nothing;
- when no access token could be obtained, the call fails.

**Around the step:**

- the name classifier and the product-identity check;
- the brand lookup, tags and product type;
- `retryRequest` and `fetchPartData`;
- the upload-side shaping: variant dedup, option schema and metafield filter;
- the batch scripts:
  - `organize-products.js` groups parts into products by key;
  - `upload-to-shopify.js` uploads the grouped products with a resumable progress file;
  - `syncPartToShopify.js` uploads one product per part with a resumable progress file;
  - `buildPartsListFromVehicleFitments.js` builds the first-occurrence list of part numbers;
  - `shopify/addProducts.js` uploads a catalogue with an index kept in the database.

**How the model is built:**

- HTTP calls, the token exchange, the supplier web page, files and the database become inputs: oracle values or functions from an index to an outcome.
- The state the source updates in place becomes classes with `modifies` clauses:
  - the sync's checkpoint row and draft file (`SyncEngine.SyncStore`);
  - the progress files (`Resume.ProgressFile`);
  - the progress record (`AddProducts.ProgressStore`).
- Each loop is a method proved against a function, and the properties are lemmas about that function.

Modules, in dependency order:

| module | file | models |
|---|---|---|
| `Wrappers` | wrappers.dfy | `Option`, with `x \|\| default` |
| `Text` | text.dfy | ASCII case mapping, `trim`, `split`/`join`, `replace(/\s+/g, …)`, `filter(Boolean)`, `replace('€', '')` |
| `Dedup` | dedup.dfy | first-occurrence dedup by key (`Set`-guarded loops, `[...new Set(s)]`), grouping by key, `flatMap` |
| `Regex` | regex.dfy | the regular-expression semantics the parsers rely on: ASCII `\b`, leftmost match, alternatives in order, ignoring case |
| `Catalog` | catalog.dfy | the supplier's records, variants, drafts, `formatFitmentsForMetafield` |
| `Classifier` | classifier.dfy | `parseProductNameAndVariant` and `isSameProduct` of `shopifySync.js` |
| `LegacyClassifier` | legacy_classifier.dfy | the older `parseProductNameAndVariant` of `organize-products.js` |
| `Shaping` | shaping.dfy | `brandsLookup`, `getBrandName`, `generateTags`, `getProductType`, variant dedup, options, metafield filter |
| `Retry` | retry.dfy | `retryRequest` |
| `PartFetch` | fetch.dfy | `fetchPartData` |
| `SyncEngine` | sync_engine.dfy | `syncToShopify`, `getProgressFromDB`, `saveProgressToDB` |
| `Organize` | organize.dfy | `organizeProducts` |
| `Resume` | resume.dfy | the resumable "advance `last_index` on success, stop at the first failure" loop shared by two scripts |
| `BulkUpload` | bulk_upload.dfy | `uploadToShopify` |
| `PartSync` | part_sync.dfy | `main` of `syncPartToShopify.js` |
| `AddProducts` | add_products.dfy | `uploadProducts` |
| `PartsList` | parts_list.dfy | `buildPartsList` |

### Behaviour of the code worth knowing

The model follows the code in each case.

- **The last draft is never uploaded.** When the checkpoint reaches the end of the parts list, `shopifySync.js:485-489` answers `complete` and never uploads the pending draft (`SyncEngine.CompleteWhenExhausted`).
- **Plain colour words do not group.** The colour pattern at `shopifySync.js:254` only knows slash-joined codes of two or three letters and two named colour lists. So "WIDGET A RED SM" and "WIDGET A BLUE SM" get the base names "WIDGET A RED" and "WIDGET A BLUE", and `isSameProduct` (`shopifySync.js:273-279`) keeps them apart.
- **The checkpoint does not always move by one.** The quota stop at `shopifySync.js:563-569` returns before `saveProgressToDB`. `getAccessToken` at `shopifySync.js:492` is called outside the `try`, so its failure rejects the call with the checkpoint unchanged (`SyncEngine.CheckpointAdvancesByOne`).
- **A part without a name is skipped.** `partName.match` (`shopifySync.js:243`) throws on a missing name. The catch at `shopifySync.js:630-646` then moves the checkpoint past the part and keeps the draft (`SyncEngine.MissingNameSkips`). In `organize-products.js:25` the same throw ends the script before anything is written (`Organize.FailsExactlyOnIncompletePart`).
- **A skipped part can leave an uploaded draft pending.** The draft is uploaded at `shopifySync.js:549`. Building the next draft then reads `partData.price.retail_price` at `shopifySync.js:585`, which throws when the price came back missing; a missing availability throws the same way. The catch skips the part and never replaces the draft. The draft stays pending, so its variants are uploaded again when a later part does not join it (`SyncEngine.SkipAfterUploadKeepsDraft`).
- **A failed upload drops the draft.** When uploading the draft fails with anything but the daily quota, `shopifySync.js:573-576` logs the error and starts the new draft anyway. The checkpoint has already moved past the dropped draft's parts, so they are never sent again (`SyncEngine.GroupingRule`: the draft is replaced whatever else the upload did). `SyncEngine.RunConservesParts` counts such a draft among those handed over, not among those created.
- **A failure after the POST repeats the POST.** `syncPartToShopify.js:252-260` records a part only after the product is created and its stock and cost are set. A product that was posted but whose stock or cost call failed is not recorded, and the next run posts it again (`PartSync.PostedInRun`). `upload-to-shopify.js:220-246` behaves the same way: a product created before a `setInventory` or `setInventoryCost` call threw is not recorded, the loop breaks, and the next run creates it again. In `BulkUpload` both failures are `created(i) == None`.
- **A stored index past the end is reset.** `shopify/addProducts.js:89-91` sets the stored index to the number of items when the loop ends, even if it was larger (`AddProducts.AddRun`).

## Model

| member | source | states |
|---|---|---|
| `Regex.FirstWord` | shopifySync.js:242-243 | the match of `\b(t0\|t1\|…)\b` with `i`: it finds a token exactly when one occurs as a whole word somewhere. The match is the leftmost such occurrence, and its text in upper case is a token |
| `Regex.FirstWordLeftmost` | shopifySync.js:243 | a scan of positions from 0 on yields the leftmost whole-word token, or none when no position has one |
| `Regex.WholeWordUnique` | shopifySync.js:242 | tokens made of word characters match a whole word in at most one way at a given position, so the order of the alternatives cannot change the match |
| `Regex.FirstWordEnd` | shopifySync.js:242-250 | the match ends where any word token occurring at its start ends |
| `Classifier.ColorMatch` | shopifySync.js:254-255 | the colour found is the leftmost slash-joined pair of 2-3 letter codes, or one of the two named colours, bounded by `\b`; none exactly when no such colour occurs |
| `Classifier.FirstColorLeftmost` | shopifySync.js:254-255 | scanning for the colour pattern from 0 finds the leftmost colour or proves that there is none |
| `Classifier.ColorIndex` | shopifySync.js:259 | the index used for the cut is the first occurrence of the colour's text, at or before the match |
| `Classifier.ParseNameAndVariant` | shopifySync.js:241-271 | the size is present iff a size token occurs as a whole word, and is that token in upper case. The colour is present iff a colour occurs, and is its text as written. A non-empty name never yields an empty base name, and the base name is the name or a trimmed prefix of it |
| `Classifier.ParseWithoutTokens` | shopifySync.js:245-266 | a name with no size and no colour comes back unchanged, with neither size nor colour |
| `Classifier.ParseCutsAtSize` | shopifySync.js:249-266 | when no colour's first occurrence precedes the size, the base name is the trimmed text before the size, or the whole name when that is empty |
| `Classifier.ParseCutsAtColor` | shopifySync.js:257-266 | when the colour's first occurrence precedes the size, or there is no size, the base name is the trimmed text before it, or the whole name when that is empty |
| `Classifier.ParsedValuesNotMarkers` | shopifySync.js:241-271 | no detected size or colour equals the "NONE" and "Default" markers the upload writes for a missing value |
| `Classifier.SameProductReflexive` | shopifySync.js:273-279 | every name and brand is the same product as itself |
| `Classifier.SameProductSymmetric` | shopifySync.js:273-279 | the identity check does not depend on the order of its arguments |
| `Classifier.SameProductTransitive` | shopifySync.js:273-279 | the identity check is transitive, so together with the two above it is an equivalence |
| `Classifier.MissingBrandIsEmpty` | shopifySync.js:276 | a missing brand and an empty brand compare alike |
| `Classifier.SameProductIgnoresCase` | shopifySync.js:274-277 | upper-casing a name and a brand does not change the verdict |
| `Classifier.SameProductIgnoresSurroundingSpace` | shopifySync.js:274-277 | whitespace around a name or a brand does not change the verdict |
| `Classifier.SameProductIgnoresRunWidth` | shopifySync.js:274 | inside a name, a whitespace run of any length compares equal to one space |
| `LegacyClassifier.LegacyColorMatch` | organize-products.js:37-38 | the colour is the leftmost slash-joined or single 2-3 letter code that starts at a word boundary and is followed by whitespace and a size token; none exactly when there is none |
| `LegacyClassifier.FirstLegacyColorLeftmost` | organize-products.js:37-38 | scanning from 0 finds that leftmost colour or proves that there is none |
| `LegacyClassifier.SpacesThenSizeEnd` | organize-products.js:37 | the greedy `\s+` followed by a size token matches exactly when some run of whitespace followed by a token does |
| `LegacyClassifier.LegacyParse` | organize-products.js:21-50 | with neither a size nor a colour, the base name is the name unchanged. The size is present iff a token of the smaller vocabulary occurs as a whole word. It is then the leftmost such occurrence in upper case, which is a token of that vocabulary. The colour is present iff a colour followed by a size occurs; it is then the text as written, and the base name is the trimmed text before it, or the whole name when that is empty. A non-empty name never gives an empty base name |
| `LegacyClassifier.LegacyCutsAtSize` | organize-products.js:31-46 | without a colour, the base name is the trimmed text before the size, or the whole name when that is empty |
| `LegacyClassifier.LegacyTokenShapes` | organize-products.js:24 | every size token is two or three word characters, with a letter second, starting with one of X, S, M, L, 2, 3, 4 |
| `LegacyClassifier.DocCommentExample` | organize-products.js:22 | "HELMET SOLARIS 2.0 SLATER BK/YL XL" parses to base "HELMET SOLARIS 2.0 SLATER", colour "BK/YL", size "XL" |
| `Shaping.BuildBrandsLookup` | shopifySync.js:75-79 | the loop builds the lookup `LookupOf` describes |
| `Shaping.LookupLastWins` | shopifySync.js:77-79 | a code is in the lookup iff some brand has it, and it maps to the name of the last brand listed with it |
| `Shaping.GetBrandName` | shopifySync.js:95-97 | the brand name is never empty: it is the looked-up name, the code, or "Unknown" |
| `Shaping.BrandNameFromBrands` | shopifySync.js:75-97 | a code resolves to the name of the last brand listed with it, or to itself when that name is missing or empty or no brand has the code |
| `Shaping.TagListProperties` | shopifySync.js:99-109 | the tags are exactly the non-empty collected ones, each once, at most five, and the brand name leads when it is known |
| `Shaping.GetProductType` | shopifySync.js:111-115 | the product type is never empty |
| `Shaping.ProductTypeIsTag` | shopifySync.js:99-115 | the product type is one of the product's tags unless it is the default "Parts & Accessories" |
| `Shaping.DedupVariants` | shopifySync.js:319-332 | the loop keeps what `DistinctBy` keeps under the key `size\|\|'NONE'` `_` `color\|\|'NONE'`: per `Dedup.DistinctByFirstOccurrences`, the first variant of each key, in order |
| `Shaping.OptionNames` | shopifySync.js:334-346 | Size is an option iff some variant has a size, Color iff some has a colour, Size first |
| `Shaping.ShapeProductProperties` | shopifySync.js:334-374 | one payload per surviving variant, in order, with its part number as SKU and its price. Options are sent iff several variants survive and some have a size or a colour. Each payload then carries exactly one value per option: its own value, or "Default" |
| `Shaping.OptionCombinationsDistinct` | shopifySync.js:319-374 | when no value is a marker, the surviving variants never repeat a combination of option values, and several variants always come with options |
| `Shaping.KeptVariantsDiffer` | shopifySync.js:323-324 | variants with different dedup keys differ in their size or their colour, each read with `\|\| 'NONE'` |
| `Shaping.PayloadsDiffer` | shopifySync.js:356-371 | variants that differ that way also differ in the option values sent |
| `Shaping.DefaultAgreesWithNone` | shopifySync.js:323-368 | for values that are not markers, `\|\| "Default"` tells apart exactly what `\|\| 'NONE'` does |
| `Shaping.FilterMetafields` | shopifySync.js:402-407 | a field is kept iff it is in the input and passes the filter, and nothing is added |
| `Shaping.FilterMetafieldsAppend` | shopifySync.js:402-407 | the filter keeps order: filtering two runs of fields gives the kept fields of the first run, then those of the second |
| `Shaping.FilterMetafieldsIdempotent` | shopifySync.js:402-407 | filtering twice is filtering once |
| `Shaping.SentMetafieldsNotBlank` | shopifySync.js:402-407 | every JSON field sent is neither `{}` nor `[]`, and every text field sent is not blank |
| `Retry.RetryRequest` | shopifySync.js:121-136 | the loop produces the result, the waits and the number of calls that `RetryFrom` describes |
| `Retry.RetryCallsAndWaits` | shopifySync.js:122-134 | at most `retries` calls, all but the last failed, and each retried failure waited 15000·2^i after a 429 and 1000·2^i otherwise |
| `Retry.RetryResultCause` | shopifySync.js:124-135 | a value comes from the last call; an error is passed on only from a last attempt that was not a 429; `undefined` only when every attempt failed and the last was a 429, or there were no attempts |
| `Retry.FirstSuccessWins` | shopifySync.js:124 | the first attempt that returns decides the result, after exactly that many calls |
| `Retry.LastRateLimitGivesUndefined` | shopifySync.js:126-132 | when every attempt fails, the result is `undefined` exactly when the last failure was a 429 |
| `Retry.AllFailedCallsEveryAttempt` | shopifySync.js:122-135 | when every attempt fails, every attempt is made, and the result is `undefined` or the last error |
| `PartFetch.FitmentsAfterRetry` | shopifySync.js:171-177 | an error of the fitments request becomes an empty list, a value is kept, and `undefined` stays missing |
| `PartFetch.FailedFitmentsGiveNone` | shopifySync.js:171-177 | however the fitments request fails, `fitments?.fitments \|\| []`, which the product's fitments metafield collects at `shopifySync.js:377`, is the empty list |
| `PartFetch.SupplierOrDefault` | shopifySync.js:198-235 | a page that could not be read counts as one without variants |
| `PartFetch.FetchPartData` | shopifySync.js:138-196 | the fetch succeeds iff the details came back and none of media, price or availability passed an error on; the record then holds what came back, with `undefined` kept as missing |
| `Catalog.BuildVariant` | shopifySync.js:528-537 | a variant can be built iff the price and availability are present. It then carries the part's own number, size, colour, details, media and fitments, with a missing price, cost or stock as 0 |
| `Catalog.FormatFitmentsForMetafield` | upload-to-shopify.js:67-81 | nothing for a missing or empty list; otherwise one record per fitment, in order, with the same identifiers and with a missing position or information written as "" |
| `Catalog.FormatFitmentsIdempotent` | syncPartToShopify.js:82-97 | formatting records read back from the metafield gives them again |
| `Dedup.KeepFirstPerKey` | shopifySync.js:319-330 | the `Set`-guarded loop keeps what `DistinctBy` describes |
| `Dedup.DistinctByFirstOccurrences` | shopifySync.js:319-330 | one element per key of the input, no key twice, each the first element with its key, in the order of those first occurrences |
| `Dedup.DistinctProperties` | upload-to-shopify.js:171-178 | `[...new Set(s)]` holds each element of `s` once, nothing else, in first-occurrence order |
| `Dedup.GroupsCoverAll` | organize-products.js:57-89 | grouping by key loses and duplicates nothing: the groups together hold every element |
| `Dedup.ConcatMapMembers` | upload-to-shopify.js:184 | an element of a `flatMap` comes from one of the pieces, and every element of every piece is there |
| `Dedup.ConcatMapAppend` | upload-to-shopify.js:184 | `flatMap` distributes over concatenation |
| `SyncEngine.CurrentCheckpoint` | shopifySync.js:29-38 | a missing row reads as index 0 with no part number; otherwise it is the stored row |
| `SyncEngine.PartStep` | shopifySync.js:515-628 | once the part is fetched, the call:<br>• stops on the quota iff there is a draft, the part does not join it, and the upload hit the quota;<br>• otherwise saves (index+1, part number);<br>• skips when the variant cannot be built;<br>• appends when the part joins;<br>• otherwise starts a one-variant draft;<br>• hands the draft over iff there was one and the part does not join it |
| `SyncEngine.SyncStore.GetProgress` | shopifySync.js:29-38 | returns the current checkpoint and leaves the row holding it (created at 0 when missing); the draft is untouched |
| `SyncEngine.SyncStore.SaveProgress` | shopifySync.js:40-50 | the single row becomes (index, part number); the draft is untouched |
| `SyncEngine.SyncStore.SaveDraft` | shopifySync.js:594 | the draft file becomes the given draft; the row is untouched |
| `SyncEngine.SyncStore.SyncToShopify` | shopifySync.js:475-647 | the new row and draft, the result and the draft handed over are those of `SyncStep` on the old state |
| `SyncEngine.SyncStore.StorePart` | shopifySync.js:515-628 | the new state, the result and the draft handed over are those of `PartStep` on the old draft |
| `SyncEngine.CompleteWhenExhausted` | shopifySync.js:479-489 | the call completes iff the list is empty or the checkpoint is past its end. It then reports the last part number and changes nothing: it creates a missing row, and neither uploads nor removes the draft |
| `SyncEngine.CompleteIsStable` | shopifySync.js:479-489 | once complete, every further call is complete and changes nothing |
| `SyncEngine.CheckpointAdvancesByOne` | shopifySync.js:541-636 | on every added or skipped part the row becomes (index+1, that part's number), and the result reports index+1 of the total. In every other case the row and the draft stay as they were |
| `SyncEngine.QuotaStopsWithoutProgress` | shopifySync.js:553-571 | the call stops on the quota iff the part was fetched with a name, a draft is pending, the part does not join it, and the upload hit the daily limit. Then the result reports the unmoved index, and the row and the draft are untouched |
| `SyncEngine.GroupingRule` | shopifySync.js:515-592 | a named part whose variant can be built is appended iff it joins the draft, and nothing is uploaded. Otherwise the draft is handed over, and then replaced by a one-variant draft of the part unless the quota stopped the call, whatever else the upload did |
| `SyncEngine.MissingNameSkips` | shopifySync.js:510-646 | a fetched part without a name is skipped: the row moves past it, the pending draft is kept, and nothing is uploaded |
| `SyncEngine.FirstPartStartsDraft` | shopifySync.js:599-621 | without a draft, a named part starts one, or is skipped when its variant cannot be built; nothing is uploaded |
| `SyncEngine.StepKeepsDraftCoherent` | shopifySync.js:511-621 | every call keeps the draft coherent, and the draft it hands over is the pending one. Coherent means: it has variants; its name, brand and details are its first part's; each variant's size and colour are what its own name gives; each variant is the same product as the draft; and later variants have a size or a colour |
| `SyncEngine.PartStepKeepsDraftCoherent` | shopifySync.js:523-592 | the same for the step after the fetch |
| `SyncEngine.AppendCoherent` | shopifySync.js:523-538 | appending a variant that fits the draft and has a size or a colour keeps it coherent |
| `SyncEngine.GroupedVariantFits` | shopifySync.js:516-525 | a part that `shouldGroupAsVariant` accepts gives such a variant |
| `SyncEngine.NewDraftCoherent` | shopifySync.js:576-616 | a one-variant draft of a fetched part is coherent |
| `SyncEngine.CoherentDraftShapes` | shopifySync.js:319-374 | a coherent draft has a variant to upload, and after the dedup its variants carry pairwise different option values |
| `SyncEngine.Run` | shopifySync.js:475-647 | a run of calls gives one result per call |
| `SyncEngine.RunConservesParts` | shopifySync.js:527-597 | over a run without a skip after an upload, the drafts handed over plus the pending draft hold exactly the initially pending parts followed by the parts added, in order |
| `SyncEngine.StepConservesParts` | shopifySync.js:527-597 | the same for one call |
| `SyncEngine.RunMovesCheckpoint` | shopifySync.js:541-636 | over a run the checkpoint moves on by the number of parts added or skipped, never back |
| `SyncEngine.SkipAfterUploadKeepsDraft` | shopifySync.js:545-646 | a skip after an upload hands the pending draft over and leaves it pending. It happens only when the upload was not stopped by the quota and the part's price or availability is missing |
| `Organize.KeyHasNoWhitespace` | organize-products.js:64 | a product key never holds whitespace |
| `Organize.OrganizeBy` | organize-products.js:52-92 | the loop over the parts and `Object.values` give `Organized`, for any key, product and variant rules |
| `Organize.OrganizeProducts` | organize-products.js:52-92 | the script's loop gives `Organized` under its own rules |
| `Organize.EveryPartBecomesOneVariant` | organize-products.js:57-89 | when the script writes its file, the products hold as many variants as there were parts |
| `Organize.ProductsFollowFirstParts` | organize-products.js:66-92 | one product per key of the parts, no key twice, in the order in which the keys first occur |
| `Organize.ProductContents` | organize-products.js:66-88 | each product is the one opened by the first part with its key, and holds the variants of all the parts with that key, in order |
| `Organize.GroupOfStep` | organize-products.js:78-88 | a further part changes only the product with its key, whose variants gain that part's variant at the end |
| `Organize.VariantsOfEach` | organize-products.js:78-88 | each part contributes exactly its own variant, in order |
| `Organize.FailsExactlyOnIncompletePart` | organize-products.js:57-84 | the script writes nothing exactly when some part lacks a name, a price or an availability record |
| `Organize.ScriptProductFields` | organize-products.js:64-76 | a product's key is the key of its own name and brand. Its name, brand, vendor part number, details and supplier record are those of the first part with that key. Its type is that part's product code, or "Parts" when that is missing or empty |
| `Resume.Start` | upload-to-shopify.js:109-111 | without a progress file the run starts at 0 with nothing recorded; otherwise from the file |
| `Resume.RunShape` | upload-to-shopify.js:113-247 | a run moves the index over the items that succeeded, one entry each, in order, keeping earlier entries. It stops at the first failure |
| `Resume.NothingLeftNothingDone` | upload-to-shopify.js:113 | a run from beyond the last item changes nothing |
| `Resume.FreshStartCounts` | syncPartToShopify.js:182-259 | from a fresh start the index counts the entries |
| `Resume.FinishedRunIsStable` | upload-to-shopify.js:113 | once every item is done, running again changes nothing |
| `Resume.ResumeIsSeamless` | upload-to-shopify.js:109-237 | a run that stopped, followed by a run from its saved progress, ends where a single run would |
| `Resume.SameStepsFrom` | upload-to-shopify.js:113 | a run only looks at the items from its starting index on |
| `BulkUpload.TagsOfProduct` | upload-to-shopify.js:121-125 | the tags are the name, the brand when there is one, and the type, joined by ", " |
| `BulkUpload.CollectImages` | upload-to-shopify.js:127-140 | the loop collects the distinct image uris of the variants |
| `BulkUpload.AddImages` | upload-to-shopify.js:133-138 | the inner loop adds one variant's new uris |
| `BulkUpload.ImagesUniqueByUri` | upload-to-shopify.js:127-140 | the images hold no uri twice, every image of every variant and nothing else, in first-occurrence order |
| `BulkUpload.AllFitmentsOfVariants` | upload-to-shopify.js:184 | the fitments metafield holds exactly the variants' fitments, variant by variant, repeats included |
| `BulkUpload.SizesMembers` | upload-to-shopify.js:169-172 | the Size values are exactly the sizes the variants have |
| `BulkUpload.ColorsMembers` | upload-to-shopify.js:175-179 | the Color values are exactly the colours the variants have |
| `BulkUpload.OptionsFollowVariants` | upload-to-shopify.js:163-193 | a Size option exists iff some variant has a size and a Color option iff some has a colour, Size first, none sent when neither. Each option's values are the variants' values, without repeats |
| `BulkUpload.VariantValuesAreOptionValues` | upload-to-shopify.js:143-180 | each value a variant sends is among the values of the option with its name |
| `BulkUpload.ColourOnlyVariantUsesMissingOption` | upload-to-shopify.js:150-180 | a colour-only product defines one option, Color, yet its variant sends its colour as `option2` |
| `BulkUpload.PlacedValuesHaveOptions` | upload-to-shopify.js:143-180 | with values placed by option position, every value sent belongs to a defined option, and every size or colour is sent |
| `BulkUpload.UploadToShopify` | upload-to-shopify.js:106-248 | the progress and the file after the loop are those of a resumable run: one entry per product created; the file is rewritten only when a product was created |
| `BulkUpload.UploadRun` | upload-to-shopify.js:113-247 | a run records, for each product created from the saved index on, its id, name and variant count, in order, and stops at the first failure |
| `PartSync.FitmentsResponse` | syncPartToShopify.js:70-80 | a failed fitments fetch is answered with an empty list |
| `PartSync.FailedFitmentsGiveEmptyMetafield` | syncPartToShopify.js:76-244 | a part whose fitments could not be fetched is still created, with an empty fitments metafield |
| `PartSync.ProductFollowsPart` | syncPartToShopify.js:212-250 | the title is the part name, the vendor the brand, the single SKU the part number. There is one image per media image, in order, and one fitment record per fitment fetched |
| `PartSync.MissingValuesDefault` | syncPartToShopify.js:200-229 | a missing stock, price or cost is 0, and present ones are kept. The type is "Parts" exactly when the product code is missing, empty or "Parts" itself. A missing vendor part number is "" |
| `PartSync.PartTags` | syncPartToShopify.js:206-210 | the tags are the part name, then the brand and the product code when present, separated by ", " |
| `PartSync.SyncPartsBy` | syncPartToShopify.js:179-272 | the progress is that of a resumable run. The products posted are those of the parts from the saved index up to and including the stopping part. The file is rewritten only when a part was recorded |
| `PartSync.SyncParts` | syncPartToShopify.js:179-272 | the same with this script's products |
| `PartSync.PostedBetween` | syncPartToShopify.js:252 | never more products than parts in the range |
| `PartSync.PostedAll` | syncPartToShopify.js:212-252 | over parts that were all posted, one product per part is posted, in order, each with the part number as SKU |
| `PartSync.SyncRun` | syncPartToShopify.js:188-270 | a run appends the part numbers it created, in order, after those recorded before. It stops at the first part that was not created and records nothing for it |
| `PartSync.PostedInRun` | syncPartToShopify.js:252-260 | a run posts one product per part it records, plus one for a stopping part that was posted but not created; that part is posted again on the next run |
| `PartSync.FreshStartCompleted` | syncPartToShopify.js:182-259 | from a fresh start the completed list is exactly the parts before the saved index, so its length is that index |
| `AddProducts.CategoryIds` | shopify/addProducts.js:24-25 | no ids for a missing, non-string or empty field; otherwise ids without '/' that join back with '/' into the field |
| `AddProducts.CategoryNamesMembers` | shopify/addProducts.js:27-29 | a name is listed iff it is non-empty and some id of the path is known with that name |
| `AddProducts.CategoryNamesAppend` | shopify/addProducts.js:27-29 | the names follow the path in order, an unknown or unnamed id dropped |
| `AddProducts.MainCategoryIsFirstNamed` | shopify/addProducts.js:31 | the product type is the name of the first known, named id, or "" when there is none |
| `AddProducts.TagsOfItem` | shopify/addProducts.js:33-36 | the tags are the gender, when present, followed by every category name, separated by ',' |
| `AddProducts.PricesDropFirstEuro` | shopify/addProducts.js:47-48 | only the first '€' of the price and of the cost is removed, and a value without one is sent as it is |
| `AddProducts.StartIndex` | shopify/addProducts.js:8-11 | a missing progress record starts the run at 0; otherwise at the stored index |
| `AddProducts.UploadProductsBy` | shopify/addProducts.js:7-92 | the bodies created are those of a resumable run from the stored index. A stop at a failing item stores that item's index; reaching the end stores the number of items |
| `AddProducts.UploadProducts` | shopify/addProducts.js:7-92 | the same with this file's bodies |
| `AddProducts.AddRun` | shopify/addProducts.js:21-91 | items are created from the stored index on, in order, one body each. A stop is at an item that was not created, which the next run retries. A stored index beyond the end creates nothing |
| `PartsList.PartNumberOf` | buildPartsListFromVehicleFitments.js:18-19 | the part number is `part_number`, else `partNumber`, else `number`, the first that is present and non-empty; none exactly when all three are missing or empty |
| `PartsList.NumbersMembers` | buildPartsListFromVehicleFitments.js:17-19 | a part number is collected iff some record has it |
| `PartsList.BuildPartsList` | buildPartsListFromVehicleFitments.js:8-28 | the list holds one entry per distinct part number, in first-occurrence order |
| `PartsList.PartsListProperties` | buildPartsListFromVehicleFitments.js:15-28 | no part number twice; a part number is listed iff some record has it; the order is that of first occurrence |

## Left out

- Network traffic is not modelled; its results are inputs. This covers:
  - the supplier's REST calls and the token exchange (`auth.js`, which is not part of this model);
  - Shopify's product, inventory and cost calls;
  - the timeouts of the requests.
- Delays are not modelled: `delay`, the ETA and percentage logging (`shopifySync.js:502-507`, floating point) and all console output.
- `scrapeSupplierPage` uses the HTML parser cheerio. It is modelled only by its result: whether the page offers variants, or no page.
- `buildDescription` is left out. It is HTML templating with no effect on the modelled properties.
- Reading and writing the JSON files and the database rows is not modelled. The model keeps their contents as fields and inputs. The `SyncProgress` row is one optional checkpoint.
- These files are not part of this model:
  - the fetch scripts (`fetch*.js`, `partAvailability.js`, `getIndex.js`);
  - `app.js` and its interval scheduler;
  - the webhooks, controllers, routes and services;
  - the Mongoose models;
  - the GraphQL setup scripts.
- Case mapping covers ASCII letters only. `toUpperCase` and `toLowerCase` are modelled on ASCII, which is also what the regular expressions' `i` flag matches without the `u` flag.
- Property lookups on plain objects are modelled as maps (`brandsLookup[code]`, `productGroups[key]`, `categories[id]`). Keys such as `constructor` or `__proto__`, which read inherited values, are not modelled.
- Source numbers are JavaScript doubles; the model uses `real` and `int`. `NaN` is not modelled, and neither is how `|| 0` treats it.
- `Number(item.stock)` in `shopify/addProducts.js` is taken as the integer it gives.
- Some fields are modelled as optional strings: brand, name and category fields that may be other JSON values. Only missing, empty and non-empty are told apart. A non-string `categories` field is modelled as missing, and so is a non-string part name, on which `match` throws as it does on a missing one.
- `part.part_number || part` (`shopifySync.js:499`) is not modelled: the parts list is the list of part numbers.
- `SKIP_SUPPLIER_SCRAPING` and `SKIP_FITMENTS` are constant `false`. Only their `false` branches are modelled.
- Some metafields hold values copied straight from the details (warehouse, harmonised codes, licence, units of measure, dimensions, alerts, link, logistics). They are not modelled in `syncPartToShopify.js` or `upload-to-shopify.js`. In `shopifySync.js` their filter is modelled for any list of fields.
- The `imageMap` of `upload-to-shopify.js` is never read and is not modelled. That script's `formatFitmentsForMetafield` is defined but not called; its product stores the raw fitments, which is what `BulkUpload.AllFitmentsOfVariants` states.
- The constant fields of the posted bodies (`inventory_management`, `taxable`) are not modelled, and neither is the description string.
- `Shaping.GetProductType`: its contract states only that the type is never empty. Its relation to the tags is stated by `Shaping.ProductTypeIsTag`.
- `Classifier.ParseNameAndVariant`: its own contract does not fix the base name; `Classifier.ParseWithoutTokens`, `Classifier.ParseCutsAtSize` and `Classifier.ParseCutsAtColor` do, case by case.
- `SyncEngine.RunConservesParts`: the conservation assumes no call skips its part right after an upload. Such a call leaves the uploaded draft pending, as `SyncEngine.SkipAfterUploadKeepsDraft` states, so its variants are uploaded again when a later part does not join it.
- `SyncEngine.StepKeepsDraftCoherent`: it assumes the pending draft at the start is coherent. A draft file edited by hand is not covered.
- `PartSync.PostedBetween`: its contract bounds only the number of products. Their contents are stated by `PartSync.PostedAll` and `PartSync.PostedInRun`.

## Findings

| source | as written | input that shows it | evidently intended | confidence | as-written member | corrected member |
|---|---|---|---|---|---|---|
| upload-to-shopify.js:150-180 | a variant's colour always goes into `option2`, even when the product has no Size option and Color is its only (first) option | one product whose variants have colours but no sizes, e.g. a single variant with colour "RED" and no size: options are `[Color]`, the variant sends `option2 = "RED"` and no `option1` | values placed by the position of their option, as `shopifySync.js:362-369` does: the colour goes in `option1` when there is no Size option | not executed | `BulkUpload.ColourOnlyVariantUsesMissingOption` | `BulkUpload.PlacedValuesHaveOptions` |
