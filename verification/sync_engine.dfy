/** `syncToShopify` (shopifySync.js): one call processes one part of the parts
    list. It reads the durable checkpoint (the `SyncProgress` row: the index
    of the next part and the last part number handled) and the draft product
    on disk, fetches the part, and then starts a draft, adds the part to the
    draft as a variant, or uploads the draft and starts a new one with the
    part. A part that cannot be fetched, or whose name is missing (matching
    it throws), is skipped. Every one of these paths
    moves the checkpoint on by exactly one part; only the storefront's daily
    variant quota stops a call without moving it.

    The supplier's API, the token exchange and the storefront are oracles:
    a `StepInput` says what each did. `SyncStep` is the whole call as a
    function of the durable state; `SyncStore.SyncToShopify` performs it
    step by step on the row and the draft file. */
module SyncEngine {
  import opened Wrappers
  import opened Text
  import opened Classifier
  import opened Catalog
  import opened PartFetch
  import opened Shaping

  /** The `SyncProgress` row. */
  datatype Checkpoint = Checkpoint(lastIndex: nat, lastPartNumber: string)

  /** The durable state: the row, once it exists, and the draft file, when
      there is one. */
  datatype SyncState = SyncState(row: Option<Checkpoint>, draft: Option<Draft>)

  /** What the storefront did with the draft: an error response carries the
      serialised `product` errors when it has them. */
  datatype UploadOutcome = UploadOk | UploadFailed(productErrors: Option<string>)

  const QuotaMessage: string := "Daily variant creation limit"

  /** The upload failed because the daily variant quota is used up. */
  predicate IsQuota(u: UploadOutcome) {
    u.UploadFailed? && u.productErrors.Some? && Contains(u.productErrors.value, QuotaMessage)
  }

  /** What the outside world does during one call: whether the token exchange
      succeeds, what fetching the part gives, and how an upload would end. */
  datatype StepInput = StepInput(tokenOk: bool, fetch: FetchOutcome, upload: UploadOutcome)

  /** What `syncToShopify` resolves to; `TokenFailed` stands for the call
      rejecting because no access token could be obtained. */
  datatype SyncResult =
    | Complete(lastPartNumber: string)
    | DailyLimitReached(progress: nat, total: nat)
    | Advanced(progress: nat, total: nat, lastPartNumber: string)
    | Skipped(progress: nat, total: nat)
    | TokenFailed

  /** The state after the call, its result, and the draft handed to the
      storefront during the call, if one was. */
  datatype StepOutcome = StepOutcome(state: SyncState, result: SyncResult, uploaded: Option<Draft>)

  /** `getProgressFromDB`: the row, or a fresh one at the start. */
  function CurrentCheckpoint(row: Option<Checkpoint>): (cp: Checkpoint)
    ensures row.None? ==> cp == Checkpoint(0, "")
    ensures row.Some? ==> cp == row.value
  {
    if row.Some? then row.value else Checkpoint(0, "")
  }

  /** The variant record of a fetched part, with the size and colour the
      classifier found. */
  function NewVariant(partNumber: string, parsed: Parsed, pd: PartData): Option<Variant> {
    BuildVariant(partNumber, parsed.size, parsed.color, pd)
  }

  /** A draft holding one part. */
  function NewDraft(parsed: Parsed, pd: PartData, v: Variant): Draft {
    Draft(parsed.baseName, pd.details.brandCode, pd.details, pd.supplier, [v])
  }

  /** `shouldGroupAsVariant`: the part is the same product as the draft, the
      part or the draft's first part offers variants, and the part has a size
      or a colour. */
  predicate ShouldGroup(parsed: Parsed, pd: PartData, d: Draft) {
    && IsSameProduct(parsed.baseName, pd.details.brandCode, d.baseName, d.brandCode)
    && (pd.supplier.hasVariants || d.baseSupplier.hasVariants)
    && (Truthy(parsed.size) || Truthy(parsed.color))
  }

  /** The three judgements the call makes about a fetched part: how its name
      is split, whether it joins the pending draft, and whether the upload
      failed on the daily quota. */
  datatype Rules = Rules(classify: string -> Parsed, joins: (Parsed, PartData, Draft) -> bool,
                         quota: UploadOutcome -> bool)

  /** The rules `syncToShopify` applies. */
  const SyncRules: Rules := Rules(ParseNameAndVariant, ShouldGroup, IsQuota)

  /** The whole call, as a function of the durable state, the parts list and
      the outside world. */
  function SyncStep(st: SyncState, parts: seq<string>, input: StepInput): StepOutcome {
    StepBy(SyncRules, st, parts, input)
  }

  /** The call under any rules. What it does to the checkpoint and to the
      parts of the drafts does not depend on the rules, and is proved here
      for all of them. */
  function StepBy(rules: Rules, st: SyncState, parts: seq<string>, input: StepInput): StepOutcome {
    var cp := CurrentCheckpoint(st.row);
    if |parts| == 0 || cp.lastIndex >= |parts| then
      StepOutcome(SyncState(Some(cp), st.draft), Complete(cp.lastPartNumber), None)
    else if !input.tokenOk then StepOutcome(SyncState(Some(cp), st.draft), TokenFailed, None)
    else match input.fetch
      case FetchFailed =>
        StepOutcome(SyncState(Some(Checkpoint(cp.lastIndex + 1, parts[cp.lastIndex])), st.draft),
                    Skipped(cp.lastIndex + 1, |parts|), None)
      case Fetched(pd) =>
        if pd.details.partName.None? then
          StepOutcome(SyncState(Some(Checkpoint(cp.lastIndex + 1, parts[cp.lastIndex])), st.draft),
                      Skipped(cp.lastIndex + 1, |parts|), None)
        else
          var parsed := rules.classify(pd.details.partName.value);
          PartStep(cp, parts[cp.lastIndex], |parts|, st.draft, pd, parsed,
                   st.draft.Some? && rules.joins(parsed, pd, st.draft.value), rules.quota(input.upload))
  }

  /** The rest of the call once part `cp.lastIndex`, numbered `partNumber`,
      has been fetched and its name classified; `groups` says whether it
      joins the pending draft and `quota` whether an upload would hit the
      daily variant limit. */
  function PartStep(cp: Checkpoint, partNumber: string, total: nat, draft: Option<Draft>,
                    pd: PartData, parsed: Parsed, groups: bool, quota: bool): (r: StepOutcome)
    requires groups ==> draft.Some?
    ensures var v := NewVariant(partNumber, parsed, pd);
            var stops := draft.Some? && !groups && quota;
            && (r.result.DailyLimitReached? <==> stops)
            && (stops ==> r == StepOutcome(SyncState(Some(cp), draft), DailyLimitReached(cp.lastIndex, total), draft))
            && (!stops ==> r.state.row == Some(Checkpoint(cp.lastIndex + 1, partNumber)))
            && (!stops && v.None? ==> r.result == Skipped(cp.lastIndex + 1, total) && r.state.draft == draft)
            && (!stops && v.Some? ==> r.result == Advanced(cp.lastIndex + 1, total, partNumber))
            && (!stops && v.Some? && groups ==> r.state.draft == Some(draft.value.(variants := draft.value.variants + [v.value])))
            && (!stops && v.Some? && !groups ==> r.state.draft == Some(NewDraft(parsed, pd, v.value)))
            && (r.uploaded.Some? <==> draft.Some? && !groups)
            && (r.uploaded.Some? ==> r.uploaded == draft)
  {
    var index := cp.lastIndex;
    var next := Some(Checkpoint(index + 1, partNumber));
    var advanced := Advanced(index + 1, total, partNumber);
    var skipped := Skipped(index + 1, total);
    var v := NewVariant(partNumber, parsed, pd);
    if draft.None? then
      if v.None? then StepOutcome(SyncState(next, draft), skipped, None)
      else StepOutcome(SyncState(next, Some(NewDraft(parsed, pd, v.value))), advanced, None)
    else
      var d := draft.value;
      if groups then
        if v.None? then StepOutcome(SyncState(next, draft), skipped, None)
        else StepOutcome(SyncState(next, Some(d.(variants := d.variants + [v.value]))), advanced, None)
      else if quota then
        StepOutcome(SyncState(Some(cp), draft), DailyLimitReached(index, total), Some(d))
      else if v.None? then StepOutcome(SyncState(next, draft), skipped, Some(d))
      else StepOutcome(SyncState(next, Some(NewDraft(parsed, pd, v.value))), advanced, Some(d))
  }

  // ---------------------------------------------------------------------------
  // The row and the draft file, changed in place
  // ---------------------------------------------------------------------------

  class SyncStore {
    var row: Option<Checkpoint>
    var draft: Option<Draft>

    constructor(row0: Option<Checkpoint>, draft0: Option<Draft>)
      ensures row == row0 && draft == draft0
    {
      row := row0;
      draft := draft0;
    }

    function State(): SyncState
      reads this
    {
      SyncState(row, draft)
    }

    /** `getProgressFromDB`: creates the row at the start when there is none. */
    method GetProgress() returns (cp: Checkpoint)
      modifies this
      ensures cp == CurrentCheckpoint(old(row))
      ensures row == Some(cp) && draft == old(draft)
    {
      if row.None? {
        row := Some(Checkpoint(0, ""));
      }
      cp := row.value;
    }

    /** `saveProgressToDB`: an upsert of the single row. */
    method SaveProgress(index: nat, partNumber: string)
      modifies this
      ensures row == Some(Checkpoint(index, partNumber)) && draft == old(draft)
    {
      row := Some(Checkpoint(index, partNumber));
    }

    /** `saveJSON(CURRENT_PRODUCT_FILE, ...)`. */
    method SaveDraft(d: Draft)
      modifies this
      ensures draft == Some(d) && row == old(row)
    {
      draft := Some(d);
    }

    /** `syncToShopify`. */
    method SyncToShopify(parts: seq<string>, input: StepInput) returns (result: SyncResult, uploaded: Option<Draft>)
      modifies this
      ensures StepOutcome(State(), result, uploaded) == SyncStep(old(State()), parts, input)
    {
      var progress := GetProgress();
      uploaded := None;
      if |parts| == 0 {
        return Complete(progress.lastPartNumber), uploaded;
      }
      var index := progress.lastIndex;
      if index >= |parts| {
        return Complete(progress.lastPartNumber), uploaded;
      }
      var current := draft;
      if !input.tokenOk {
        return TokenFailed, uploaded;
      }
      var partNumber := parts[index];
      if input.fetch.FetchFailed? {
        SaveProgress(index + 1, partNumber);
        return Skipped(index + 1, |parts|), uploaded;
      }
      var pd := input.fetch.data;
      if pd.details.partName.None? {
        SaveProgress(index + 1, partNumber);
        return Skipped(index + 1, |parts|), uploaded;
      }
      var parsed := ParseNameAndVariant(pd.details.partName.value);
      var groups := current.Some? && ShouldGroup(parsed, pd, current.value);
      result, uploaded := StorePart(progress, partNumber, |parts|, pd, parsed, groups, IsQuota(input.upload));
    }

    /** The part of `syncToShopify` after the fetch: group the part into the
        pending draft, or pass the draft on for upload and start a new one
        (unless the upload hit the daily limit), and save the checkpoint. */
    method StorePart(cp: Checkpoint, partNumber: string, total: nat, pd: PartData, parsed: Parsed,
                     groups: bool, quota: bool) returns (result: SyncResult, uploaded: Option<Draft>)
      requires row == Some(cp)
      requires groups ==> draft.Some?
      modifies this
      ensures StepOutcome(State(), result, uploaded) == PartStep(cp, partNumber, total, old(draft), pd, parsed, groups, quota)
    {
      var index := cp.lastIndex;
      var v := NewVariant(partNumber, parsed, pd);
      uploaded := None;
      if groups {
        if v.None? {
          SaveProgress(index + 1, partNumber);
          return Skipped(index + 1, total), uploaded;
        }
        var d := draft.value;
        d := d.(variants := d.variants + [v.value]);
        SaveDraft(d);
      } else {
        if draft.Some? {
          uploaded := draft;
          if quota {
            return DailyLimitReached(index, total), uploaded;
          }
        }
        if v.None? {
          SaveProgress(index + 1, partNumber);
          return Skipped(index + 1, total), uploaded;
        }
        SaveDraft(NewDraft(parsed, pd, v.value));
      }
      SaveProgress(index + 1, partNumber);
      result := Advanced(index + 1, total, partNumber);
    }
  }

  // ---------------------------------------------------------------------------
  // What one call does
  // ---------------------------------------------------------------------------

  /** The call completes exactly when the parts list is empty or the
      checkpoint is past its end; it then reports the last part number and
      changes nothing but creating a missing row: in particular the pending
      draft is neither uploaded nor removed. */
  lemma CompleteWhenExhausted(rules: Rules, st: SyncState, parts: seq<string>, input: StepInput)
    ensures var o := StepBy(rules, st, parts, input);
            var cp := CurrentCheckpoint(st.row);
            && (o.result.Complete? <==> |parts| == 0 || cp.lastIndex >= |parts|)
            && (o.result.Complete? ==>
                  o.state == SyncState(Some(cp), st.draft) && o.uploaded.None? &&
                  o.result.lastPartNumber == cp.lastPartNumber)
  {
  }

  /** Once complete, always complete: repeating the call changes nothing. */
  lemma CompleteIsStable(rules: Rules, st: SyncState, parts: seq<string>, input: StepInput, input': StepInput)
    requires StepBy(rules, st, parts, input).result.Complete?
    ensures var o := StepBy(rules, st, parts, input);
            StepBy(rules, o.state, parts, input') == StepOutcome(o.state, o.result, None)
  {
  }

  /** The checkpoint moves by exactly one part, to the part just handled,
      whenever the call neither completes, nor stops at the quota, nor fails
      for want of a token; in those three cases the row and the draft are
      left as they were (a missing row is created). */
  lemma CheckpointAdvancesByOne(rules: Rules, st: SyncState, parts: seq<string>, input: StepInput)
    ensures var o := StepBy(rules, st, parts, input);
            var cp := CurrentCheckpoint(st.row);
            && (o.result.Advanced? || o.result.Skipped? ==>
                  && cp.lastIndex < |parts|
                  && o.state.row == Some(Checkpoint(cp.lastIndex + 1, parts[cp.lastIndex]))
                  && o.result.progress == cp.lastIndex + 1 && o.result.total == |parts|)
            && (o.result.Advanced? ==> o.result.lastPartNumber == parts[cp.lastIndex])
            && (!(o.result.Advanced? || o.result.Skipped?) ==> o.state == SyncState(Some(cp), st.draft))
  {
  }

  /** The quota stops the call exactly when the part was fetched, it does not
      join the pending draft, and uploading that draft failed on the daily
      variant limit; the result then reports the unmoved index. */
  lemma QuotaStopsWithoutProgress(rules: Rules, st: SyncState, parts: seq<string>, input: StepInput)
    ensures var o := StepBy(rules, st, parts, input);
            var cp := CurrentCheckpoint(st.row);
            && (o.result.DailyLimitReached? <==>
                  && |parts| > 0 && cp.lastIndex < |parts| && input.tokenOk
                  && input.fetch.Fetched? && input.fetch.data.details.partName.Some? && st.draft.Some?
                  && !rules.joins(rules.classify(input.fetch.data.details.partName.value), input.fetch.data, st.draft.value)
                  && rules.quota(input.upload))
            && (o.result.DailyLimitReached? ==>
                  o.result.progress == cp.lastIndex && o.result.total == |parts| &&
                  o.state == SyncState(Some(cp), st.draft) && o.uploaded == st.draft)
  {
  }

  /** The grouping rule: a fetched part whose variant record can be built is
      appended to the pending draft exactly when the rules say it joins it
      (for the sync, when `ShouldGroup` holds); otherwise the draft is handed
      to the storefront and, unless the quota stopped the call, replaced by a
      one-variant draft of the part, whatever else the upload did. */
  lemma GroupingRule(rules: Rules, st: SyncState, parts: seq<string>, input: StepInput)
    requires |parts| > 0 && CurrentCheckpoint(st.row).lastIndex < |parts| && input.tokenOk
    requires input.fetch.Fetched? && input.fetch.data.details.partName.Some? && st.draft.Some?
    requires var pd := input.fetch.data;
             NewVariant(parts[CurrentCheckpoint(st.row).lastIndex], rules.classify(pd.details.partName.value), pd).Some?
    ensures var o := StepBy(rules, st, parts, input);
            var pd := input.fetch.data;
            var parsed := rules.classify(pd.details.partName.value);
            var v := NewVariant(parts[CurrentCheckpoint(st.row).lastIndex], parsed, pd).value;
            var d := st.draft.value;
            && (rules.joins(parsed, pd, d) ==>
                  o.state.draft == Some(d.(variants := d.variants + [v])) && o.uploaded.None? && o.result.Advanced?)
            && (!rules.joins(parsed, pd, d) ==> o.uploaded == Some(d))
            && (!rules.joins(parsed, pd, d) && !rules.quota(input.upload) ==>
                  o.state.draft == Some(NewDraft(parsed, pd, v)) && o.result.Advanced?)
  {
  }

  /** A fetched part without a name is skipped before anything is handed
      over: the pending draft stays as it was, and the checkpoint moves past
      the part. */
  lemma MissingNameSkips(rules: Rules, st: SyncState, parts: seq<string>, input: StepInput)
    requires |parts| > 0 && CurrentCheckpoint(st.row).lastIndex < |parts| && input.tokenOk
    requires input.fetch.Fetched? && input.fetch.data.details.partName.None?
    ensures var o := StepBy(rules, st, parts, input);
            var i := CurrentCheckpoint(st.row).lastIndex;
            && o.result == Skipped(i + 1, |parts|) && o.uploaded.None?
            && o.state == SyncState(Some(Checkpoint(i + 1, parts[i])), st.draft)
  {
  }

  /** With no pending draft a named part starts one; nothing is uploaded. */
  lemma FirstPartStartsDraft(rules: Rules, st: SyncState, parts: seq<string>, input: StepInput)
    requires |parts| > 0 && CurrentCheckpoint(st.row).lastIndex < |parts| && input.tokenOk
    requires input.fetch.Fetched? && input.fetch.data.details.partName.Some? && st.draft.None?
    ensures var o := StepBy(rules, st, parts, input);
            var pd := input.fetch.data;
            var parsed := rules.classify(pd.details.partName.value);
            var v := NewVariant(parts[CurrentCheckpoint(st.row).lastIndex], parsed, pd);
            && o.uploaded.None?
            && (v.Some? ==> o.state.draft == Some(NewDraft(parsed, pd, v.value)) && o.result.Advanced?)
            && (v.None? ==> o.state.draft.None? && o.result.Skipped?)
  {
  }

  // ---------------------------------------------------------------------------
  // The draft stays coherent
  // ---------------------------------------------------------------------------

  /** What every draft the sync writes satisfies: it has variants; its name,
      brand and details are those of its first part; every variant's size and
      colour are what the classifier found in its own name; every variant is
      the same product as the draft; and every variant after the first has a
      size or a colour. */
  ghost predicate Coherent(d: Draft) {
    CoherentHead(d) && AllFit(d) && LaterHaveOptions(d)
  }

  ghost predicate CoherentHead(d: Draft) {
    && d.variants != []
    && d.variants[0].details == d.baseDetails
    && d.baseDetails.partName.Some?
    && d.baseName == ParseNameAndVariant(d.baseDetails.partName.value).baseName
    && d.brandCode == d.baseDetails.brandCode
  }

  ghost predicate AllFit(d: Draft) {
    AllFitIn(d.variants, d.baseName, d.brandCode)
  }

  /** Every variant of `vs` fits a draft named `baseName` of brand `brandCode`. */
  ghost predicate AllFitIn(vs: seq<Variant>, baseName: string, brandCode: Option<string>)
    decreases |vs|
  {
    vs != [] ==> AllFitIn(vs[..|vs| - 1], baseName, brandCode) && VariantFits(vs[|vs| - 1], baseName, brandCode)
  }

  lemma {:induction false} AllFitMember(vs: seq<Variant>, baseName: string, brandCode: Option<string>, i: nat)
    requires AllFitIn(vs, baseName, brandCode) && i < |vs|
    ensures VariantFits(vs[i], baseName, brandCode)
    decreases |vs|
  {
    if i < |vs| - 1 {
      AllFitMember(vs[..|vs| - 1], baseName, brandCode, i);
    }
  }

  predicate LaterHaveOptions(d: Draft) {
    forall i :: 1 <= i < |d.variants| ==> Truthy(d.variants[i].size) || Truthy(d.variants[i].color)
  }

  /** A variant fits a draft named `baseName` of brand `brandCode`. */
  ghost predicate VariantFits(v: Variant, baseName: string, brandCode: Option<string>) {
    && v.details.partName.Some?
    && var parsed := ParseNameAndVariant(v.details.partName.value);
    && v.size == parsed.size && v.color == parsed.color
    && IsSameProduct(parsed.baseName, v.details.brandCode, baseName, brandCode)
  }

  lemma ParsedClean(name: string)
    ensures CleanValue(ParseNameAndVariant(name).size) && CleanValue(ParseNameAndVariant(name).color)
  {
    ParsedValuesNotMarkers(name);
  }

  /** A one-variant draft built from a fetched part is coherent. */
  lemma NewDraftCoherent(parsed: Parsed, pd: PartData, v: Variant, partNumber: string)
    requires pd.details.partName.Some? && parsed == ParseNameAndVariant(pd.details.partName.value)
    requires NewVariant(partNumber, parsed, pd) == Some(v)
    ensures Coherent(NewDraft(parsed, pd, v))
  {
    NewDraftHead(parsed, pd, v, partNumber);
    NewDraftFits(parsed, pd, v, partNumber);
  }

  lemma NewDraftHead(parsed: Parsed, pd: PartData, v: Variant, partNumber: string)
    requires pd.details.partName.Some? && parsed == ParseNameAndVariant(pd.details.partName.value)
    requires NewVariant(partNumber, parsed, pd) == Some(v)
    ensures CoherentHead(NewDraft(parsed, pd, v)) && LaterHaveOptions(NewDraft(parsed, pd, v))
  {
  }

  lemma NewDraftFits(parsed: Parsed, pd: PartData, v: Variant, partNumber: string)
    requires pd.details.partName.Some? && parsed == ParseNameAndVariant(pd.details.partName.value)
    requires NewVariant(partNumber, parsed, pd) == Some(v)
    ensures AllFit(NewDraft(parsed, pd, v))
  {
    SameProductReflexive(parsed.baseName, pd.details.brandCode);
  }

  /** Appending a variant that fits the draft and has a size or a colour
      keeps the draft coherent; `GroupedVariantFits` shows that a part
      `ShouldGroup` accepts gives such a variant. */
  lemma AppendCoherent(d: Draft, v: Variant)
    requires Coherent(d)
    requires VariantFits(v, d.baseName, d.brandCode) && (Truthy(v.size) || Truthy(v.color))
    ensures Coherent(d.(variants := d.variants + [v]))
  {
    AppendHead(d, v);
    AppendFits(d, v);
    AppendOptions(d, v);
  }

  lemma GroupedVariantFits(d: Draft, parsed: Parsed, pd: PartData, v: Variant, partNumber: string)
    requires pd.details.partName.Some? && parsed == ParseNameAndVariant(pd.details.partName.value)
    requires NewVariant(partNumber, parsed, pd) == Some(v)
    requires ShouldGroup(parsed, pd, d)
    ensures VariantFits(v, d.baseName, d.brandCode) && (Truthy(v.size) || Truthy(v.color))
  {
  }

  lemma AppendHead(d: Draft, v: Variant)
    requires CoherentHead(d)
    ensures CoherentHead(d.(variants := d.variants + [v]))
  {
    assert (d.variants + [v])[0] == d.variants[0];
  }

  lemma AppendFits(d: Draft, v: Variant)
    requires AllFit(d) && VariantFits(v, d.baseName, d.brandCode)
    ensures AllFit(d.(variants := d.variants + [v]))
  {
    assert (d.variants + [v])[..|d.variants|] == d.variants;
  }

  lemma AppendOptions(d: Draft, v: Variant)
    requires LaterHaveOptions(d) && (Truthy(v.size) || Truthy(v.color))
    ensures LaterHaveOptions(d.(variants := d.variants + [v]))
  {
    var d' := d.(variants := d.variants + [v]);
    forall i | 1 <= i < |d'.variants| ensures Truthy(d'.variants[i].size) || Truthy(d'.variants[i].color) {
      if i < |d.variants| {
        assert d'.variants[i] == d.variants[i];
      }
    }
  }

  /** Every call keeps the draft coherent, and every draft it hands to the
      storefront is the pending one, coherent too: it has a variant, and after
      the duplicates are removed its variants carry pairwise different option
      values (`CoherentDraftShapes`). */
  lemma StepKeepsDraftCoherent(st: SyncState, parts: seq<string>, input: StepInput)
    requires st.draft.Some? ==> Coherent(st.draft.value)
    ensures var o := SyncStep(st, parts, input);
            && (o.state.draft.Some? ==> Coherent(o.state.draft.value))
            && (o.uploaded.Some? ==> o.uploaded == st.draft && Coherent(o.uploaded.value))
  {
    var cp := CurrentCheckpoint(st.row);
    if |parts| > 0 && cp.lastIndex < |parts| && input.tokenOk && input.fetch.Fetched? {
      var pd := input.fetch.data;
      if pd.details.partName.Some? {
        var parsed := ParseNameAndVariant(pd.details.partName.value);
        PartStepKeepsDraftCoherent(cp, parts[cp.lastIndex], |parts|, st.draft, pd, parsed,
                                   st.draft.Some? && ShouldGroup(parsed, pd, st.draft.value), IsQuota(input.upload));
      }
    }
  }

  lemma PartStepKeepsDraftCoherent(cp: Checkpoint, partNumber: string, total: nat, draft: Option<Draft>,
                                   pd: PartData, parsed: Parsed, groups: bool, quota: bool)
    requires pd.details.partName.Some? && parsed == ParseNameAndVariant(pd.details.partName.value)
    requires groups ==> draft.Some? && ShouldGroup(parsed, pd, draft.value)
    requires draft.Some? ==> Coherent(draft.value)
    ensures var o := PartStep(cp, partNumber, total, draft, pd, parsed, groups, quota);
            && (o.state.draft.Some? ==> Coherent(o.state.draft.value))
            && (o.uploaded.Some? ==> o.uploaded == draft)
  {
    var o := PartStep(cp, partNumber, total, draft, pd, parsed, groups, quota);
    var v := NewVariant(partNumber, parsed, pd);
    if o.state.draft != draft {
      assert v.Some?;
      if groups {
        var d := draft.value;
        assert o.state.draft == Some(d.(variants := d.variants + [v.value]));
        GroupedVariantFits(d, parsed, pd, v.value, partNumber);
        AppendCoherent(d, v.value);
      } else {
        assert o.state.draft == Some(NewDraft(parsed, pd, v.value));
        NewDraftCoherent(parsed, pd, v.value, partNumber);
      }
    }
  }

  /** A coherent draft can be shaped for upload, and its shaped variants
      never repeat a combination of option values. */
  lemma CoherentDraftShapes(d: Draft)
    requires Coherent(d)
    ensures d.variants != []
    ensures var p := ShapeProduct(d.variants);
            |p.variants| > 1 ==>
              p.options.Some? &&
              forall i, j :: 0 <= i < j < |p.variants| ==>
                (p.variants[i].option1, p.variants[i].option2) != (p.variants[j].option1, p.variants[j].option2)
  {
    forall i | 0 <= i < |d.variants|
      ensures CleanValue(d.variants[i].size) && CleanValue(d.variants[i].color)
    {
      AllFitMember(d.variants, d.baseName, d.brandCode, i);
      ParsedClean(d.variants[i].details.partName.value);
    }
    OptionCombinationsDistinct(d.variants);
  }

  // ---------------------------------------------------------------------------
  // Many calls
  // ---------------------------------------------------------------------------

  /** The part numbers held by a draft that may be missing. */
  function DraftParts(d: Option<Draft>): seq<string> {
    if d.Some? then PartNumbers(d.value.variants) else []
  }

  /** A sequence of calls, each with its own input: the final state, the
      results in order, and the drafts that left the sync (handed to the
      storefront on a call that then replaced them). */
  datatype RunOutcome = RunOutcome(state: SyncState, results: seq<SyncResult>, released: seq<Draft>)

  function Run(rules: Rules, st: SyncState, parts: seq<string>, inputs: seq<StepInput>): (r: RunOutcome)
    ensures |r.results| == |inputs|
    decreases |inputs|
  {
    if inputs == [] then RunOutcome(st, [], [])
    else
      var o := StepBy(rules, st, parts, inputs[0]);
      var rest := Run(rules, o.state, parts, inputs[1..]);
      var out := if o.uploaded.Some? && o.result.Advanced? then [o.uploaded.value] else [];
      RunOutcome(rest.state, [o.result] + rest.results, out + rest.released)
  }

  /** The part numbers of the calls that advanced, in order. */
  function AdvancedParts(results: seq<SyncResult>): seq<string>
    decreases |results|
  {
    if results == [] then []
    else (if results[0].Advanced? then [results[0].lastPartNumber] else []) + AdvancedParts(results[1..])
  }

  /** The number of calls that moved the checkpoint. */
  function Moves(results: seq<SyncResult>): nat
    decreases |results|
  {
    if results == [] then 0
    else (if results[0].Advanced? || results[0].Skipped? then 1 else 0) + Moves(results[1..])
  }

  function Flatten(ds: seq<Draft>): seq<string>
    decreases |ds|
  {
    if ds == [] then [] else PartNumbers(ds[0].variants) + Flatten(ds[1..])
  }

  lemma {:induction false} FlattenAppend(a: seq<Draft>, b: seq<Draft>)
    ensures Flatten(a + b) == Flatten(a) + Flatten(b)
    decreases |a|
  {
    if a != [] {
      assert (a + b)[1..] == a[1..] + b;
      FlattenAppend(a[1..], b);
    } else {
      assert a + b == b;
    }
  }

  /** No call of the run skips its part after handing the pending draft over. */
  predicate NoSkipAfterUpload(rules: Rules, st: SyncState, parts: seq<string>, inputs: seq<StepInput>)
    decreases |inputs|
  {
    inputs != [] ==>
      && !SkipsAfterUpload(rules, st, parts, inputs[0])
      && NoSkipAfterUpload(rules, StepBy(rules, st, parts, inputs[0]).state, parts, inputs[1..])
  }

  /** No part is lost or duplicated by the grouping: over any run without a
      skipped call after an upload, the drafts that left plus the draft still
      pending hold exactly the parts of the draft pending at the start
      followed by the parts that were added, in order. A draft that left was
      handed to the storefront, not necessarily created there: one whose
      upload failed other than on the quota is dropped, and its parts are
      never sent again. */
  lemma {:induction false} RunConservesParts(rules: Rules, st: SyncState, parts: seq<string>, inputs: seq<StepInput>)
    requires NoSkipAfterUpload(rules, st, parts, inputs)
    ensures var r := Run(rules, st, parts, inputs);
            Flatten(r.released) + DraftParts(r.state.draft) == DraftParts(st.draft) + AdvancedParts(r.results)
    decreases |inputs|
  {
    if inputs != [] {
      var o := StepBy(rules, st, parts, inputs[0]);
      RunConservesParts(rules, o.state, parts, inputs[1..]);
      StepConservesParts(rules, st, parts, inputs[0]);
      var rest := Run(rules, o.state, parts, inputs[1..]);
      var out := if o.uploaded.Some? && o.result.Advanced? then [o.uploaded.value] else [];
      FlattenAppend(out, rest.released);
      var r := Run(rules, st, parts, inputs);
      var added := if o.result.Advanced? then [o.result.lastPartNumber] else [];
      assert r.results == [o.result] + rest.results && r.released == out + rest.released;
      assert r.results[1..] == rest.results;
      assert AdvancedParts(r.results) == added + AdvancedParts(rest.results);
      calc {
        Flatten(r.released) + DraftParts(r.state.draft);
        (Flatten(out) + Flatten(rest.released)) + DraftParts(rest.state.draft);
        { Associative(Flatten(out), Flatten(rest.released), DraftParts(rest.state.draft)); }
        Flatten(out) + (Flatten(rest.released) + DraftParts(rest.state.draft));
        Flatten(out) + (DraftParts(o.state.draft) + AdvancedParts(rest.results));
        { Associative(Flatten(out), DraftParts(o.state.draft), AdvancedParts(rest.results)); }
        (Flatten(out) + DraftParts(o.state.draft)) + AdvancedParts(rest.results);
        (DraftParts(st.draft) + added) + AdvancedParts(rest.results);
        { Associative(DraftParts(st.draft), added, AdvancedParts(rest.results)); }
        DraftParts(st.draft) + AdvancedParts(r.results);
      }
    }
  }

  /** Over any run the checkpoint moves on by one per part added or skipped,
      and never back. */
  lemma {:induction false} RunMovesCheckpoint(rules: Rules, st: SyncState, parts: seq<string>, inputs: seq<StepInput>)
    ensures var r := Run(rules, st, parts, inputs);
            CurrentCheckpoint(r.state.row).lastIndex == CurrentCheckpoint(st.row).lastIndex + Moves(r.results)
    decreases |inputs|
  {
    if inputs != [] {
      var o := StepBy(rules, st, parts, inputs[0]);
      RunMovesCheckpoint(rules, o.state, parts, inputs[1..]);
      CheckpointAdvancesByOne(rules, st, parts, inputs[0]);
      var rest := Run(rules, o.state, parts, inputs[1..]);
      var r := Run(rules, st, parts, inputs);
      assert r.results == [o.result] + rest.results;
      assert r.results[1..] == rest.results;
    }
  }

  /** The one call that hands a draft to the storefront and still keeps it
      pending: the upload was not stopped by the quota, but the part's price
      or availability came back `undefined`, so the new draft could not be
      built and the part was skipped. The draft stays pending, so its
      variants are uploaded again when a later part does not join it. */
  predicate SkipsAfterUpload(rules: Rules, st: SyncState, parts: seq<string>, input: StepInput) {
    var o := StepBy(rules, st, parts, input);
    o.result.Skipped? && o.uploaded.Some?
  }

  /** One call: the released draft and the new pending draft hold the old
      pending parts and the part added, if any. */
  lemma StepConservesParts(rules: Rules, st: SyncState, parts: seq<string>, input: StepInput)
    requires !SkipsAfterUpload(rules, st, parts, input)
    ensures var o := StepBy(rules, st, parts, input);
            var out := if o.uploaded.Some? && o.result.Advanced? then [o.uploaded.value] else [];
            Flatten(out) + DraftParts(o.state.draft) ==
              DraftParts(st.draft) + (if o.result.Advanced? then [o.result.lastPartNumber] else [])
  {
    var cp := CurrentCheckpoint(st.row);
    if |parts| > 0 && cp.lastIndex < |parts| && input.tokenOk && input.fetch.Fetched? &&
       input.fetch.data.details.partName.Some? {
      var pd := input.fetch.data;
      var parsed := rules.classify(pd.details.partName.value);
      PartStepConservesParts(cp, parts[cp.lastIndex], |parts|, st.draft, pd, parsed,
                             st.draft.Some? && rules.joins(parsed, pd, st.draft.value), rules.quota(input.upload));
    }
  }

  lemma PartStepConservesParts(cp: Checkpoint, partNumber: string, total: nat, draft: Option<Draft>,
                               pd: PartData, parsed: Parsed, groups: bool, quota: bool)
    requires groups ==> draft.Some?
    requires var o := PartStep(cp, partNumber, total, draft, pd, parsed, groups, quota);
             !(o.result.Skipped? && o.uploaded.Some?)
    ensures var o := PartStep(cp, partNumber, total, draft, pd, parsed, groups, quota);
            var out := if o.uploaded.Some? && o.result.Advanced? then [o.uploaded.value] else [];
            Flatten(out) + DraftParts(o.state.draft) ==
              DraftParts(draft) + (if o.result.Advanced? then [o.result.lastPartNumber] else [])
  {
    var o := PartStep(cp, partNumber, total, draft, pd, parsed, groups, quota);
    var v := NewVariant(partNumber, parsed, pd);
    if o.result.Advanced? {
      assert v.Some? && o.result.lastPartNumber == partNumber && v.value.partNumber == partNumber;
      if groups {
        var d := draft.value;
        assert o.uploaded.None? && o.state.draft == Some(d.(variants := d.variants + [v.value]));
        PartNumbersAppend(d.variants, [v.value]);
        PartNumbersOne(v.value);
        var none: seq<Draft> := [];
        assert Flatten(none) == [];
        assert Flatten(none) + DraftParts(o.state.draft) == DraftParts(draft) + [partNumber];
      } else {
        var next := NewDraft(parsed, pd, v.value);
        assert o.state.draft == Some(next) && o.uploaded == draft;
        assert next.variants == [v.value];
        PartNumbersOne(v.value);
        ReleaseAndStart(draft, next);
      }
    } else {
      assert o.state.draft == draft;
      var none: seq<Draft> := [];
      assert Flatten(none) == [];
      assert Flatten(none) + DraftParts(draft) == DraftParts(draft) + [];
    }
  }

  /** Handing `draft` over and starting `next` with one part. */
  lemma ReleaseAndStart(draft: Option<Draft>, next: Draft)
    requires |next.variants| == 1
    ensures var out := if draft.Some? then [draft.value] else [];
            Flatten(out) + DraftParts(Some(next)) == DraftParts(draft) + [next.variants[0].partNumber]
  {
    if draft.Some? {
      assert Flatten([draft.value]) == PartNumbers(draft.value.variants) by {
        assert [draft.value][1..] == [];
      }
    }
  }

  /** A skip after an upload is possible: the pending draft is handed over,
      and the call ends with the same draft still pending. */
  lemma SkipAfterUploadKeepsDraft(rules: Rules, st: SyncState, parts: seq<string>, input: StepInput)
    requires SkipsAfterUpload(rules, st, parts, input)
    ensures var o := StepBy(rules, st, parts, input);
            o.uploaded == st.draft && o.state.draft == st.draft && !rules.quota(input.upload) &&
            input.fetch.Fetched? && (input.fetch.data.price.None? || input.fetch.data.availability.None?)
  {
  }
}
