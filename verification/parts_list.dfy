/** `buildPartsListFromVehicleFitments.js`: the parts list the part sync runs
    over, built from a file of vehicle fitments — each part number once, in
    the order it first occurs. */
module PartsList {
  import opened Wrappers
  import opened Text
  import opened Dedup

  /** One fitment record: the part number may sit under any of three names. */
  datatype FitmentRecord = FitmentRecord(
    part_number: Option<string>,
    partNumber: Option<string>,
    number: Option<string>)

  /** One entry of the parts list, `{part_number}`. */
  datatype PartEntry = PartEntry(part_number: string)

  /** `f.part_number || f.partNumber || f.number`, with a falsy result
      meaning the record has no part number: the first of the three fields
      that is present and non-empty. */
  function PartNumberOf(f: FitmentRecord): (r: Option<string>)
    ensures r.None? <==> !Truthy(f.part_number) && !Truthy(f.partNumber) && !Truthy(f.number)
    ensures r.Some? ==> r.value != "" && (r == f.part_number || r == f.partNumber || r == f.number)
    ensures Truthy(f.part_number) ==> r == f.part_number
    ensures !Truthy(f.part_number) && Truthy(f.partNumber) ==> r == f.partNumber
  {
    if Truthy(f.part_number) then f.part_number
    else if Truthy(f.partNumber) then f.partNumber
    else if Truthy(f.number) then f.number
    else None
  }

  /** The part numbers of the records that have one, in order. */
  function Numbers(fs: seq<FitmentRecord>): seq<string>
    decreases |fs|
  {
    if fs == [] then []
    else
      var last := fs[|fs| - 1];
      Numbers(fs[..|fs| - 1]) + (if PartNumberOf(last).Some? then [PartNumberOf(last).value] else [])
  }

  /** A part number is among the numbers exactly when some record has it. */
  lemma {:induction false} NumbersMembers(fs: seq<FitmentRecord>, pn: string)
    ensures pn in Numbers(fs) <==> exists i :: 0 <= i < |fs| && PartNumberOf(fs[i]) == Some(pn)
    decreases |fs|
  {
    if fs != [] {
      var p := fs[..|fs| - 1];
      NumbersMembers(p, pn);
      if exists i :: 0 <= i < |p| && PartNumberOf(p[i]) == Some(pn) {
        var i :| 0 <= i < |p| && PartNumberOf(p[i]) == Some(pn);
        assert fs[i] == p[i];
      }
      if exists i :: 0 <= i < |fs| && PartNumberOf(fs[i]) == Some(pn) {
        var i :| 0 <= i < |fs| && PartNumberOf(fs[i]) == Some(pn);
        if i < |p| {
          assert p[i] == fs[i];
        }
      }
    }
  }

  /** One record more: its part number is appended when it is new. */
  lemma PartsStep(fitments: seq<FitmentRecord>, i: nat)
    requires i < |fitments|
    ensures var d := Distinct(Numbers(fitments[..i]));
            var pn := PartNumberOf(fitments[i]);
            Distinct(Numbers(fitments[..i + 1])) == if pn.Some? && pn.value !in d then d + [pn.value] else d
  {
    assert fitments[..i + 1][..i] == fitments[..i] && fitments[..i + 1][i] == fitments[i];
    var pn := PartNumberOf(fitments[i]);
    assert Numbers(fitments[..i + 1]) == Numbers(fitments[..i]) + (if pn.Some? then [pn.value] else []);
    if pn.Some? {
      DistinctAppend(Numbers(fitments[..i]), pn.value);
    } else {
      assert Numbers(fitments[..i]) + [] == Numbers(fitments[..i]);
    }
  }

  /** `buildPartsList`: a map from part number to entry, filled in input
      order where the number is new, then its entries in insertion order. */
  method BuildPartsList(fitments: seq<FitmentRecord>) returns (parts: seq<PartEntry>)
    ensures var d := Distinct(Numbers(fitments));
            |parts| == |d| && forall j :: 0 <= j < |d| ==> parts[j] == PartEntry(d[j])
  {
    var uniqueParts: map<string, PartEntry> := map[];
    var order: seq<string> := [];
    var i := 0;
    while i < |fitments|
      invariant 0 <= i <= |fitments|
      invariant order == Distinct(Numbers(fitments[..i]))
      invariant forall pn :: pn in uniqueParts <==> pn in order
      invariant forall pn :: pn in uniqueParts ==> uniqueParts[pn] == PartEntry(pn)
    {
      var partNumber := PartNumberOf(fitments[i]);
      PartsStep(fitments, i);
      if partNumber.Some? {
        if partNumber.value !in uniqueParts {
          uniqueParts := uniqueParts[partNumber.value := PartEntry(partNumber.value)];
          order := order + [partNumber.value];
        }
      }
      i := i + 1;
    }
    assert fitments[..|fitments|] == fitments;
    parts := seq(|order|, j requires 0 <= j < |order| => uniqueParts[order[j]]);
  }

  /** The parts list holds no part number twice; it holds exactly the part
      numbers of the records; and they come in the order in which they first
      occur, each the part number of the first record that has it. */
  lemma PartsListProperties(fitments: seq<FitmentRecord>)
    ensures var d := Distinct(Numbers(fitments));
            && (forall i, j :: 0 <= i < j < |d| ==> d[i] != d[j])
            && (forall pn :: pn in d <==> exists i :: 0 <= i < |fitments| && PartNumberOf(fitments[i]) == Some(pn))
            && FirstOccurrences(d, Numbers(fitments), Identity)
  {
    var ns := Numbers(fitments);
    DistinctProperties(ns);
    forall pn ensures pn in ns <==> exists i :: 0 <= i < |fitments| && PartNumberOf(fitments[i]) == Some(pn) {
      NumbersMembers(fitments, pn);
    }
  }
}
