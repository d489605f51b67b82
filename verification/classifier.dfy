/** The grouping rules of the incremental sync (shopifySync.js): splitting a
    part name into a base name, a size and a colour, and deciding whether two
    parts are the same product. */
module Classifier {
  import opened Wrappers
  import opened Text
  import opened Regex

  /** The size alternatives, in the order the pattern lists them. */
  const SizeTokens: seq<string> :=
    ["XS", "SM", "S", "MD", "M", "LG", "L", "XL", "XXL", "2XL", "3XL", "4XL", "2X", "3X", "4X", "5X"]

  /** The two colours written out in full in the colour pattern. */
  const BlackGrayMatteYellow: string := "BLACK/GRAY/MATTE/YELLOW"
  const BlackGrayMatteWhite: string := "BLACK/GRAY/MATTE/WHITE"

  /** A colour starting at `p` and ending at `e`: a slash-joined pair of two
      or three letter codes, or one of the two full colour names, ignoring
      case, with a word boundary on both sides. */
  ghost predicate ColorAt(s: string, p: nat, e: nat) {
    && Boundary(s, p) && Boundary(s, e)
    && ((exists a, b :: 2 <= a <= 3 && 2 <= b <= 3 && CodeShape(s, p, a, b) && e == p + a + 1 + b)
        || (LiteralAt(s, p, BlackGrayMatteYellow) && e == p + |BlackGrayMatteYellow|)
        || (LiteralAt(s, p, BlackGrayMatteWhite) && e == p + |BlackGrayMatteWhite|))
  }

  /** The colour pattern at `p`: the code form with its greedy quantifiers,
      then the two full names, each followed by `\b`. */
  function ColorEnd(s: string, p: nat): (r: Option<nat>)
    ensures r.Some? ==> p < r.value <= |s| && ColorAt(s, p, r.value)
    ensures r.None? ==> forall e: nat :: !ColorAt(s, p, e)
  {
    if !Boundary(s, p) then None
    else
      var code := CodeThen(s, p, BoundaryEnd);
      if code.Some? then code
      else if LiteralAt(s, p, BlackGrayMatteYellow) && Boundary(s, p + |BlackGrayMatteYellow|) then
        Some(p + |BlackGrayMatteYellow|)
      else if LiteralAt(s, p, BlackGrayMatteWhite) && Boundary(s, p + |BlackGrayMatteWhite|) then
        Some(p + |BlackGrayMatteWhite|)
      else None
  }

  /** `name.match(sizePattern)`: the leftmost whole-word size token. */
  function SizeMatch(name: string): Option<Match> { FirstWord(name, SizeTokens) }

  /** `name.match(colorPattern)`: the leftmost colour. */
  function ColorMatch(name: string): (r: Option<Match>)
    ensures r.Some? ==> r.value.start < r.value.end <= |name| && ColorAt(name, r.value.start, r.value.end)
    ensures r.Some? ==> forall q: nat, e: nat :: q < r.value.start ==> !ColorAt(name, q, e)
    ensures r.None? <==> forall q: nat, e: nat :: q <= |name| ==> !ColorAt(name, q, e)
  {
    var r := FirstMatch(name, ColorEnd, 0);
    FirstColorLeftmost(name, r);
    r
  }

  lemma FirstColorLeftmost(name: string, r: Option<Match>)
    requires r == FirstMatch(name, ColorEnd, 0)
    ensures r.Some? ==> ColorEnd(name, r.value.start) == Some(r.value.end)
    ensures r.Some? ==> forall q: nat, e: nat :: q < r.value.start ==> !ColorAt(name, q, e)
    ensures r.None? ==> forall q: nat, e: nat :: q <= |name| ==> !ColorAt(name, q, e)
  {
    if r.Some? {
      forall q: nat, e: nat | q < r.value.start ensures !ColorAt(name, q, e) {
        assert ColorEnd(name, q).None?;
      }
    } else {
      forall q: nat, e: nat | q <= |name| ensures !ColorAt(name, q, e) {
        assert ColorEnd(name, q).None?;
      }
    }
  }

  /** The result of `parseProductNameAndVariant`. */
  datatype Parsed = Parsed(baseName: string, size: Option<string>, color: Option<string>, originalName: string)

  /** Where the colour text first occurs in the name (`indexOf`, which can be
      before the match itself when the same text occurs earlier inside a word). */
  function ColorIndex(name: string, m: Match): (i: nat)
    requires m.start <= m.end <= |name|
    ensures i <= m.start && OccursAt(name, name[m.start..m.end], i)
  {
    assert OccursAt(name, name[m.start..m.end], m.start);
    IndexOf(name, name[m.start..m.end]).value
  }

  /** Splits a part name: the size is the leftmost whole-word size token, in
      upper case; the colour is the leftmost colour, as written; the base name
      is the trimmed text before the colour when the colour's first occurrence
      comes before the size (or, without a size, anywhere), else the trimmed
      text before the size, else the whole name; an empty base name falls back
      to the whole name. */
  function ParseNameAndVariant(name: string): (r: Parsed)
    ensures r.originalName == name
    ensures r.size.Some? <==> SizeMatch(name).Some?
    ensures r.size.Some? ==>
              r.size.value in SizeTokens &&
              r.size.value == Upper(name[SizeMatch(name).value.start..SizeMatch(name).value.end])
    ensures r.color.Some? <==> ColorMatch(name).Some?
    ensures r.color.Some? ==> r.color.value == name[ColorMatch(name).value.start..ColorMatch(name).value.end]
    ensures name != "" ==> r.baseName != ""
    ensures r.baseName == name || exists k :: 0 <= k <= |name| && r.baseName == Trim(name[..k])
  {
    var sm := SizeMatch(name);
    var size := if sm.Some? then Some(Upper(name[sm.value.start..sm.value.end])) else None;
    var base1 := if sm.Some? then Trim(name[..sm.value.start]) else name;
    var cm := ColorMatch(name);
    var color := if cm.Some? then Some(name[cm.value.start..cm.value.end]) else None;
    var limit := if sm.Some? then sm.value.start else |name|;
    var base := if cm.Some? && ColorIndex(name, cm.value) < limit then Trim(name[..ColorIndex(name, cm.value)]) else base1;
    Parsed(if base == "" then name else base, size, color, name)
  }

  /** A name without any size token or colour is its own base name. */
  lemma ParseWithoutTokens(name: string)
    requires forall q: nat :: q <= |name| ==> !VocabWordAt(name, q, SizeTokens)
    requires forall q: nat, e: nat :: q <= |name| ==> !ColorAt(name, q, e)
    ensures ParseNameAndVariant(name) == Parsed(name, None, None, name)
  {
  }

  /** The base name is cut before the size when no colour occurs before it. */
  lemma ParseCutsAtSize(name: string)
    requires SizeMatch(name).Some?
    requires ColorMatch(name).None? || ColorIndex(name, ColorMatch(name).value) >= SizeMatch(name).value.start
    ensures var base := Trim(name[..SizeMatch(name).value.start]);
            ParseNameAndVariant(name).baseName == if base == "" then name else base
  {
  }

  /** The base name is cut before the colour when the colour's first
      occurrence is before the size, or when there is no size. */
  lemma ParseCutsAtColor(name: string)
    requires ColorMatch(name).Some?
    requires ColorIndex(name, ColorMatch(name).value) <
             if SizeMatch(name).Some? then SizeMatch(name).value.start else |name|
    ensures var base := Trim(name[..ColorIndex(name, ColorMatch(name).value)]);
            ParseNameAndVariant(name).baseName == if base == "" then name else base
  {
  }

  /** Neither a detected size (a size token) nor a detected colour (which
      holds a slash) can be mistaken for the "NONE" and "Default" markers
      that the upload writes for a missing value. */
  lemma ParsedValuesNotMarkers(name: string)
    ensures var r := ParseNameAndVariant(name);
            && (r.size.Some? ==> r.size.value != "NONE" && r.size.value != "Default")
            && (r.color.Some? ==> r.color.value != "NONE" && r.color.value != "Default")
  {
    SizeTokensNotMarkers();
    var r := ParseNameAndVariant(name);
    if r.color.Some? {
      var m := ColorMatch(name).value;
      ColorNotMarker(name, m.start, m.end);
    }
  }

  lemma SizeTokensNotMarkers()
    ensures "NONE" !in SizeTokens && "Default" !in SizeTokens
  {
  }

  lemma ColorNotMarker(s: string, p: nat, e: nat)
    requires p <= e <= |s| && ColorAt(s, p, e)
    ensures s[p..e] != "NONE" && s[p..e] != "Default"
  {
    if exists a, b :: 2 <= a <= 3 && 2 <= b <= 3 && CodeShape(s, p, a, b) && e == p + a + 1 + b {
      var a, b :| 2 <= a <= 3 && 2 <= b <= 3 && CodeShape(s, p, a, b) && e == p + a + 1 + b;
      assert s[p..e][a] == '/';
      assert "Default"[2] == 'f' && "Default"[3] == 'a';
    } else {
      var t := if LiteralAt(s, p, BlackGrayMatteYellow) && e == p + |BlackGrayMatteYellow|
               then BlackGrayMatteYellow else BlackGrayMatteWhite;
      assert LiteralAt(s, p, t) && e == p + |t|;
    }
  }

  // ---------------------------------------------------------------------------
  // isSameProduct
  // ---------------------------------------------------------------------------

  /** `s.toLowerCase().trim().replace(/\s+/g, ' ')`. */
  function NormalName(s: string): string { ReplaceSpaceRuns(Trim(Lower(s)), ' ') }

  /** `(b || '').toLowerCase().trim()`. */
  function NormalBrand(b: Option<string>): string { Trim(Lower(OrEmpty(b))) }

  /** Two parts are the same product when their base names agree up to case
      and whitespace and their brands agree up to case and surrounding
      whitespace. */
  predicate IsSameProduct(name1: string, brand1: Option<string>, name2: string, brand2: Option<string>) {
    NormalName(name1) == NormalName(name2) && NormalBrand(brand1) == NormalBrand(brand2)
  }

  /** `isSameProduct` is an equivalence: reflexive, symmetric and transitive. */
  lemma SameProductReflexive(n: string, b: Option<string>)
    ensures IsSameProduct(n, b, n, b)
  {
  }

  lemma SameProductSymmetric(n1: string, b1: Option<string>, n2: string, b2: Option<string>)
    ensures IsSameProduct(n1, b1, n2, b2) ==> IsSameProduct(n2, b2, n1, b1)
  {
  }

  lemma SameProductTransitive(n1: string, b1: Option<string>, n2: string, b2: Option<string>,
                              n3: string, b3: Option<string>)
    ensures IsSameProduct(n1, b1, n2, b2) && IsSameProduct(n2, b2, n3, b3) ==> IsSameProduct(n1, b1, n3, b3)
  {
  }

  /** A missing brand and an empty one are the same brand. */
  lemma MissingBrandIsEmpty(n1: string, n2: string, b2: Option<string>)
    ensures IsSameProduct(n1, None, n2, b2) <==> IsSameProduct(n1, Some(""), n2, b2)
  {
    assert OrEmpty(None) == OrEmpty(Some(""));
    assert NormalBrand(None) == NormalBrand(Some(""));
  }

  /** Neither names nor brands are compared by case. */
  lemma SameProductIgnoresCase(n1: string, b1: string, n2: string, b2: Option<string>)
    ensures IsSameProduct(Upper(n1), Some(Upper(b1)), n2, b2) <==> IsSameProduct(n1, Some(b1), n2, b2)
  {
    LowerIgnoresCase(n1);
    LowerIgnoresCase(b1);
    assert NormalName(Upper(n1)) == NormalName(n1);
    assert NormalBrand(Some(Upper(b1))) == NormalBrand(Some(b1)) by {
      assert |Upper(b1)| == |b1|;
      if b1 != "" { assert OrEmpty(Some(Upper(b1))) == Upper(b1); }
    }
  }

  /** Whitespace around a name or a brand is not compared. */
  lemma SameProductIgnoresSurroundingSpace(w1: string, n1: string, w2: string, w3: string, b1: string, w4: string,
                                           n2: string, b2: Option<string>)
    requires AllSpaces(w1) && AllSpaces(w2) && AllSpaces(w3) && AllSpaces(w4)
    ensures IsSameProduct(w1 + n1 + w2, Some(w3 + b1 + w4), n2, b2) <==> IsSameProduct(n1, Some(b1), n2, b2)
  {
    NormalNameAround(w1, n1, w2);
    NormalBrandAround(w3, b1, w4);
  }

  lemma NormalNameAround(w1: string, n: string, w2: string)
    requires AllSpaces(w1) && AllSpaces(w2)
    ensures NormalName(w1 + n + w2) == NormalName(n)
  {
    LowerAround(w1, n, w2);
    TrimIgnoresSurroundingSpace(w1, Lower(n), w2);
  }

  lemma NormalBrandAround(w1: string, b: string, w2: string)
    requires AllSpaces(w1) && AllSpaces(w2)
    ensures NormalBrand(Some(w1 + b + w2)) == NormalBrand(Some(b))
  {
    assert OrEmpty(Some(w1 + b + w2)) == w1 + b + w2;
    assert OrEmpty(Some(b)) == b;
    LowerAround(w1, b, w2);
    TrimIgnoresSurroundingSpace(w1, Lower(b), w2);
  }

  lemma LowerAround(w1: string, s: string, w2: string)
    requires AllSpaces(w1) && AllSpaces(w2)
    ensures Lower(w1 + s + w2) == w1 + Lower(s) + w2
  {
    LowerAppend(w1 + s, w2);
    LowerAppend(w1, s);
    LowerKeepsSpaces(w1);
    LowerKeepsSpaces(w2);
  }

  /** Inside a name, a run of whitespace of any length and of any whitespace
      characters compares equal to one space. */
  lemma SameProductIgnoresRunWidth(x: string, w: string, y: string, b1: Option<string>, n2: string, b2: Option<string>)
    requires |w| > 0 && AllSpaces(w)
    ensures IsSameProduct(x + w + y, b1, n2, b2) <==> IsSameProduct(x + " " + y, b1, n2, b2)
  {
    NormalNameRunWidth(x, w, y);
  }

  lemma NormalNameRunWidth(x: string, w: string, y: string)
    requires |w| > 0 && AllSpaces(w)
    ensures NormalName(x + w + y) == NormalName(x + " " + y)
  {
    var a, b := Lower(x), Lower(y);
    LowerRun(x, w, y);
    LowerRun(x, " ", y);
    if AllSpaces(a) {
      TrimRunLeading(a, w, b);
      TrimRunLeading(a, " ", b);
    } else if AllSpaces(b) {
      TrimRunTrailing(a, w, b);
      TrimRunTrailing(a, " ", b);
    } else {
      TrimRunInside(a, w, b);
      TrimRunInside(a, " ", b);
      ReplaceSpaceRunsIgnoresRunWidth(TrimStart(a), w, TrimEnd(b), ' ');
    }
  }

  lemma LowerRun(x: string, w: string, y: string)
    requires AllSpaces(w)
    ensures Lower(x + w + y) == Lower(x) + w + Lower(y)
  {
    LowerAppend(x + w, y);
    LowerAppend(x, w);
    LowerKeepsSpaces(w);
  }

  /** Trimming a string with a whitespace run in it: the run survives exactly
      when there is something other than whitespace on both sides of it. */
  lemma TrimRunLeading(a: string, w: string, b: string)
    requires AllSpaces(a) && AllSpaces(w)
    ensures Trim(a + w + b) == Trim(b)
  {
    AllSpacesConcat(a, w);
    TrimStartAppend(a + w, b);
  }

  lemma TrimRunTrailing(a: string, w: string, b: string)
    requires !AllSpaces(a) && AllSpaces(w) && AllSpaces(b)
    ensures Trim(a + w + b) == Trim(a)
  {
    Associative(a, w, b);
    TrimStartAppend(a, w + b);
    AllSpacesConcat(w, b);
    TrimEndAppend(TrimStart(a), w + b);
  }

  lemma TrimRunInside(a: string, w: string, b: string)
    requires !AllSpaces(a) && AllSpaces(w) && !AllSpaces(b)
    ensures Trim(a + w + b) == TrimStart(a) + w + TrimEnd(b)
  {
    Associative(a, w, b);
    TrimStartAppend(a, w + b);
    Associative(TrimStart(a), w, b);
    TrimEndAppend(TrimStart(a) + w, b);
  }

}
