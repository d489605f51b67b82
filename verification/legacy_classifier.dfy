/** The older name parser of the offline grouping script
    (organize-products.js): a smaller size vocabulary, and a colour that is
    only recognised when whitespace and a size token follow it. */
module LegacyClassifier {
  import opened Wrappers
  import opened Text
  import opened Regex

  /** The size alternatives: only the multi-letter ones. */
  const LegacySizeTokens: seq<string> := ["XS", "SM", "MD", "LG", "XL", "XXL", "2XL", "3XL", "4XL"]

  /** One of the size tokens starts at `r`, ignoring case (no `\b` after it). */
  predicate SizePrefixAt(s: string, r: nat) {
    exists j :: 0 <= j < |LegacySizeTokens| && LiteralAt(s, r, LegacySizeTokens[j])
  }

  /** Where the run of whitespace that starts at `q` ends. */
  function SpaceRunEnd(s: string, q: nat): (r: nat)
    requires q <= |s|
    ensures q <= r <= |s| && (r == |s| || !IsSpace(s[r]))
    ensures forall k :: q <= k < r ==> IsSpace(s[k])
    decreases |s| - q
  {
    if q < |s| && IsSpace(s[q]) then SpaceRunEnd(s, q + 1) else q
  }

  /** `\s+(XS|SM|...)` at `q`, as the pattern allows it: some non-empty run of
      whitespace and then a size token. */
  ghost predicate SpacesThenSize(s: string, q: nat) {
    exists k :: q < k <= |s| && (forall i :: q <= i < k ==> IsSpace(s[i])) && SizePrefixAt(s, k)
  }

  /** The same, computed the way the greedy `\s+` finds it: the whole run,
      then a token. Answers `q` (the end of the colour) when it matches. */
  function SpacesThenSizeEnd(s: string, q: nat): (r: Option<nat>)
    ensures r.Some? <==> SpacesThenSize(s, q)
    ensures r.Some? ==> r.value == q
  {
    if q >= |s| then None
    else
      var k := SpaceRunEnd(s, q);
      GreedyRunSuffices(s, q, k);
      if k > q && SizePrefixAt(s, k) then Some(q) else None
  }

  /** Only the whole whitespace run can be followed by a size token, since no
      token starts with whitespace: a shorter run leaves whitespace where the
      token would have to start. */
  lemma GreedyRunSuffices(s: string, q: nat, k: nat)
    requires q < |s| && k == SpaceRunEnd(s, q)
    ensures SpacesThenSize(s, q) <==> k > q && SizePrefixAt(s, k)
  {
    if SpacesThenSize(s, q) {
      var k' :| q < k' <= |s| && (forall i :: q <= i < k' ==> IsSpace(s[i])) && SizePrefixAt(s, k');
      SizePrefixNotSpace(s, k');
      RunEndAt(s, q, k');
    }
    if k > q && SizePrefixAt(s, k) {
      assert q < k <= |s| && (forall i :: q <= i < k ==> IsSpace(s[i])) && SizePrefixAt(s, k);
    }
  }

  /** No size token starts with whitespace. */
  lemma SizePrefixNotSpace(s: string, r: nat)
    requires SizePrefixAt(s, r)
    ensures r < |s| && !IsSpace(s[r])
  {
    var j :| 0 <= j < |LegacySizeTokens| && LiteralAt(s, r, LegacySizeTokens[j]);
    assert WordToken(LegacySizeTokens[j]);
    WordCharAtMatch(s, r, LegacySizeTokens[j], 0);
  }

  /** A whitespace run from `q` that stops before a non-space ends where
      `SpaceRunEnd` says. */
  lemma {:induction false} RunEndAt(s: string, q: nat, k: nat)
    requires q <= k <= |s| && (forall i :: q <= i < k ==> IsSpace(s[i])) && (k == |s| || !IsSpace(s[k]))
    ensures SpaceRunEnd(s, q) == k
    decreases k - q
  {
    if q < k {
      RunEndAt(s, q + 1, k);
    }
  }

  /** A colour whose text is `s[p..g]`: a slash-joined pair of two or three
      letter codes, or a single two or three letter code, starting at a word
      boundary and followed by whitespace and a size token. */
  ghost predicate LegacyColorAt(s: string, p: nat, g: nat) {
    && Boundary(s, p)
    && ((exists a, b :: 2 <= a <= 3 && 2 <= b <= 3 && CodeShape(s, p, a, b) && g == p + a + 1 + b)
        || (exists a :: 2 <= a <= 3 && LettersAt(s, p, a) && g == p + a))
    && SpacesThenSize(s, g)
  }

  /** The colour pattern at `p`; answers where its first group ends. */
  function LegacyColorEnd(s: string, p: nat): (r: Option<nat>)
    ensures r.Some? ==> p < r.value <= |s| && LegacyColorAt(s, p, r.value)
  {
    if !Boundary(s, p) then None
    else
      var code := CodeThen(s, p, SpacesThenSizeEnd);
      if code.Some? then code
      else if LettersAt(s, p, 3) && SpacesThenSizeEnd(s, p + 3).Some? then Some(p + 3)
      else if LettersAt(s, p, 2) && SpacesThenSizeEnd(s, p + 2).Some? then Some(p + 2)
      else None
  }

  /** When the pattern does not match at `p`, no colour starts there. */
  lemma LegacyColorEndNone(s: string, p: nat)
    ensures LegacyColorEnd(s, p).None? ==> forall g: nat :: !LegacyColorAt(s, p, g)
  {
    if LegacyColorEnd(s, p).None? {
      forall g: nat ensures !LegacyColorAt(s, p, g) {
        NoLegacyColorAt(s, p, g);
      }
    }
  }

  lemma NoLegacyColorAt(s: string, p: nat, g: nat)
    requires LegacyColorEnd(s, p).None?
    ensures !LegacyColorAt(s, p, g)
  {
    if Boundary(s, p) && SpacesThenSize(s, g) {
      assert SpacesThenSizeEnd(s, g).Some?;
      NoCodeColor(s, p, g);
      NoLettersColor(s, p, g);
    }
  }

  lemma NoCodeColor(s: string, p: nat, g: nat)
    requires CodeThen(s, p, SpacesThenSizeEnd).None? && SpacesThenSizeEnd(s, g).Some?
    ensures forall a, b :: 2 <= a <= 3 && 2 <= b <= 3 && CodeShape(s, p, a, b) ==> g != p + a + 1 + b
  {
  }

  lemma NoLettersColor(s: string, p: nat, g: nat)
    requires !(LettersAt(s, p, 3) && SpacesThenSizeEnd(s, p + 3).Some?)
    requires !(LettersAt(s, p, 2) && SpacesThenSizeEnd(s, p + 2).Some?)
    requires SpacesThenSizeEnd(s, g).Some?
    ensures forall a :: 2 <= a <= 3 && LettersAt(s, p, a) ==> g != p + a
  {
  }

  /** `name.match(colorPattern)`: the leftmost colour followed by a size;
      `end` is where the colour (the first group) ends. */
  function LegacyColorMatch(name: string): (r: Option<Match>)
    ensures r.Some? ==> r.value.start < r.value.end <= |name| && LegacyColorAt(name, r.value.start, r.value.end)
    ensures r.Some? ==> forall q: nat, g: nat :: q < r.value.start ==> !LegacyColorAt(name, q, g)
    ensures r.None? <==> forall q: nat, g: nat :: q <= |name| ==> !LegacyColorAt(name, q, g)
  {
    var r := FirstMatch(name, LegacyColorEnd, 0);
    FirstLegacyColorLeftmost(name, r);
    r
  }

  lemma FirstLegacyColorLeftmost(name: string, r: Option<Match>)
    requires r == FirstMatch(name, LegacyColorEnd, 0)
    ensures r.Some? ==> LegacyColorEnd(name, r.value.start) == Some(r.value.end)
    ensures r.Some? ==> forall q: nat, g: nat :: q < r.value.start ==> !LegacyColorAt(name, q, g)
    ensures r.None? ==> forall q: nat, g: nat :: q <= |name| ==> !LegacyColorAt(name, q, g)
  {
    if r.Some? {
      forall q: nat, g: nat | q < r.value.start ensures !LegacyColorAt(name, q, g) {
        assert LegacyColorEnd(name, q).None?;
        LegacyColorEndNone(name, q);
      }
    } else {
      forall q: nat, g: nat | q <= |name| ensures !LegacyColorAt(name, q, g) {
        assert LegacyColorEnd(name, q).None?;
        LegacyColorEndNone(name, q);
      }
    }
  }

  /** The result of the older `parseProductNameAndVariant`. */
  datatype LegacyParsed = LegacyParsed(baseName: string, size: Option<string>, color: Option<string>)

  /** Splits a part name: the size is the leftmost whole-word token of the
      smaller vocabulary, in upper case; the colour is the leftmost code
      followed by whitespace and a size token, as written; the base name is
      the trimmed text before the colour when there is one, else before the
      size, else the whole name, and an empty one falls back to the name. */
  function LegacyParse(name: string): (r: LegacyParsed)
    ensures r.size.Some? <==> FirstWord(name, LegacySizeTokens).Some?
    ensures r.size.Some? ==> r.size.value in LegacySizeTokens
    ensures r.size.Some? ==> var m := FirstWord(name, LegacySizeTokens).value;
                             r.size.value == Upper(name[m.start..m.end])
    ensures r.color.Some? <==> LegacyColorMatch(name).Some?
    ensures r.size.None? && r.color.None? ==> r.baseName == name
    ensures r.color.Some? ==> var m := LegacyColorMatch(name).value;
                              r.color.value == name[m.start..m.end] && r.baseName == (
                                var b := Trim(name[..m.start]); if b == "" then name else b)
    ensures name != "" ==> r.baseName != ""
  {
    var sm := FirstWord(name, LegacySizeTokens);
    var size := if sm.Some? then Some(Upper(name[sm.value.start..sm.value.end])) else None;
    var base1 := if sm.Some? then Trim(name[..sm.value.start]) else name;
    var cm := LegacyColorMatch(name);
    var color := if cm.Some? then Some(name[cm.value.start..cm.value.end]) else None;
    var base := if cm.Some? then Trim(name[..cm.value.start]) else base1;
    LegacyParsed(if base == "" then name else base, size, color)
  }

  /** Without a colour, the base name is cut before the size, if any. */
  lemma LegacyCutsAtSize(name: string)
    requires LegacyColorMatch(name).None? && FirstWord(name, LegacySizeTokens).Some?
    ensures var b := Trim(name[..FirstWord(name, LegacySizeTokens).value.start]);
            LegacyParse(name).baseName == if b == "" then name else b
  {
  }

  // ---------------------------------------------------------------------------
  // The doc-comment example, position by position
  // ---------------------------------------------------------------------------

  const HelmetName: string := "HELMET SOLARIS 2.0 SLATER BK/YL XL"

  /** What the proofs below use of the size tokens: two or three word
      characters, a letter in second place, and a first character among
      X, S, M, L, 2, 3 and 4. */
  lemma LegacyTokenShapes()
    ensures forall j :: 0 <= j < |LegacySizeTokens| ==>
      2 <= |LegacySizeTokens[j]| <= 3 && WordToken(LegacySizeTokens[j]) && IsAsciiLetter(LegacySizeTokens[j][1]) &&
      LegacySizeTokens[j][0] in "XSML234"
  {
  }

  /** A size token can only start where a word starts. */
  lemma SizeWordStart(s: string, q: nat)
    requires VocabWordAt(s, q, LegacySizeTokens)
    ensures Boundary(s, q) && IsWordAt(s, q)
  {
    var j :| 0 <= j < |LegacySizeTokens| && WholeWordAt(s, q, LegacySizeTokens[j]);
    LegacyTokenShapes();
    WordCharAtMatch(s, q, LegacySizeTokens[j], 0);
  }

  /** A word of four letters or more holds no size token. */
  lemma NoSizeInLongWord(s: string, q: nat)
    requires !Boundary(s, q + 2) && !Boundary(s, q + 3)
    ensures !VocabWordAt(s, q, LegacySizeTokens)
  {
    LegacyTokenShapes();
  }

  /** Every size token has a letter in second place. */
  lemma NoSizeBeforeNonLetter(s: string, q: nat)
    requires q + 1 < |s| && !IsAsciiLetter(s[q + 1])
    ensures !VocabWordAt(s, q, LegacySizeTokens)
  {
    LegacyTokenShapes();
  }

  /** Every size token starts with one of X, S, M, L, 2, 3, 4. */
  lemma NoSizeStartingWith(s: string, q: nat)
    requires q < |s| && UpperChar(s[q]) !in "XSML234"
    ensures !VocabWordAt(s, q, LegacySizeTokens)
  {
    LegacyTokenShapes();
  }

  /** The words of the example start at 0, 7, 15, 17, 19, 26 and 29. */
  lemma HelmetWordStarts(q: nat)
    requires q < 32 && q != 0 && q != 7 && q != 15 && q != 17 && q != 19 && q != 26 && q != 29
    ensures !(Boundary(HelmetName, q) && IsWordAt(HelmetName, q))
  {
  }

  lemma HelmetNoSizeWord(q: nat)
    requires q < 32
    ensures !VocabWordAt(HelmetName, q, LegacySizeTokens)
  {
    if q == 0 || q == 7 || q == 19 {
      NoSizeInLongWord(HelmetName, q);
    } else if q == 15 || q == 17 {
      NoSizeBeforeNonLetter(HelmetName, q);
    } else if q == 26 || q == 29 {
      NoSizeStartingWith(HelmetName, q);
    } else {
      HelmetWordStarts(q);
      if VocabWordAt(HelmetName, q, LegacySizeTokens) {
        SizeWordStart(HelmetName, q);
      }
    }
  }

  /** A colour can only start where a word starts, with a letter. */
  lemma ColorStart(s: string, q: nat, g: nat)
    requires LegacyColorAt(s, q, g)
    ensures Boundary(s, q) && q < |s| && IsAsciiLetter(s[q])
  {
  }

  /** No colour starts inside a word of four letters or more. */
  lemma NoColorInLongWord(s: string, q: nat, g: nat)
    requires q + 3 < |s| && IsAsciiLetter(s[q + 2]) && IsAsciiLetter(s[q + 3])
    ensures !LegacyColorAt(s, q, g)
  {
  }

  lemma HelmetNoColor(q: nat, g: nat)
    requires q < 26
    ensures !LegacyColorAt(HelmetName, q, g)
  {
    if q == 0 || q == 7 || q == 19 {
      NoColorInLongWord(HelmetName, q, g);
    } else if q == 15 || q == 17 {
      if LegacyColorAt(HelmetName, q, g) { ColorStart(HelmetName, q, g); }
    } else {
      HelmetWordStarts(q);
      if LegacyColorAt(HelmetName, q, g) { ColorStart(HelmetName, q, g); }
    }
  }

  lemma HelmetColor(g: nat)
    ensures LegacyColorAt(HelmetName, 26, g) <==> g == 31
  {
    HelmetColorAt31();
    if LegacyColorAt(HelmetName, 26, g) {
      HelmetColorOnlyAt31(g);
    }
  }

  lemma HelmetColorAt31()
    ensures LegacyColorAt(HelmetName, 26, 31)
  {
    assert HelmetName[32..34] == "XL";
    assert LiteralAt(HelmetName, 32, LegacySizeTokens[4]);
    assert SizePrefixAt(HelmetName, 32);
    assert HelmetName[31] == ' ';
    assert forall i :: 31 <= i < 32 ==> IsSpace(HelmetName[i]);
    assert SpacesThenSize(HelmetName, 31);
    assert CodeShape(HelmetName, 26, 2, 2);
  }

  lemma HelmetColorOnlyAt31(g: nat)
    requires LegacyColorAt(HelmetName, 26, g)
    ensures g == 31
  {
    assert !IsSpace(HelmetName[28]) && !IsSpace(HelmetName[29]);
  }

  lemma LegacySizeTokensAreWords()
    ensures forall j :: 0 <= j < |LegacySizeTokens| ==> LegacySizeTokens[j] != "" && WordToken(LegacySizeTokens[j])
  {
    LegacyTokenShapes();
  }

  lemma HelmetXL(name: string)
    requires name == HelmetName
    ensures WholeWordAt(name, 32, "XL") && "XL" != "" && WordToken("XL") && Upper(name[32..34]) == "XL"
  {
    assert name[32..34] == "XL";
  }

  lemma HelmetSizeStart(name: string)
    requires name == HelmetName
    ensures FirstWord(name, LegacySizeTokens).Some? && FirstWord(name, LegacySizeTokens).value.start == 32
  {
    HelmetXL(name);
    assert VocabWordAt(name, 32, LegacySizeTokens) by { assert LegacySizeTokens[4] == "XL"; }
    var sm := FirstWord(name, LegacySizeTokens);
    if sm.value.start < 32 {
      HelmetNoSizeWord(sm.value.start);
    }
  }

  /** The size of the example is the whole word XL at 32. */
  lemma HelmetSize(name: string)
    requires name == HelmetName
    ensures FirstWord(name, LegacySizeTokens) == Some(Match(32, 34))
  {
    HelmetSizeStart(name);
    LegacySizeTokensAreWords();
    HelmetXL(name);
    FirstWordEnd(name, LegacySizeTokens, "XL");
  }

  lemma HelmetColorStart(name: string)
    requires name == HelmetName
    ensures LegacyColorMatch(name).Some? && LegacyColorMatch(name).value.start == 26
  {
    HelmetColor(31);
    var cm := LegacyColorMatch(name);
    if cm.value.start < 26 {
      HelmetNoColor(cm.value.start, cm.value.end);
    }
  }

  /** The colour of the example is BK/YL, at 26, followed by " XL". */
  lemma HelmetColorMatch(name: string)
    requires name == HelmetName
    ensures LegacyColorMatch(name) == Some(Match(26, 31))
  {
    HelmetColorStart(name);
    HelmetColor(LegacyColorMatch(name).value.end);
  }

  lemma HelmetParse(name: string)
    requires |name| == 34
    requires FirstWord(name, LegacySizeTokens) == Some(Match(32, 34)) && Upper(name[32..34]) == "XL"
    requires LegacyColorMatch(name) == Some(Match(26, 31)) && name[26..31] == "BK/YL"
    requires Trim(name[..26]) == "HELMET SOLARIS 2.0 SLATER"
    ensures LegacyParse(name) == LegacyParsed("HELMET SOLARIS 2.0 SLATER", Some("XL"), Some("BK/YL"))
  {
    ParseWithBoth(name, 32, 34, 26, 31);
  }

  lemma ParseWithBoth(name: string, a: nat, b: nat, c: nat, d: nat)
    requires a <= b <= |name| && c <= d <= |name|
    requires FirstWord(name, LegacySizeTokens) == Some(Match(a, b))
    requires LegacyColorMatch(name) == Some(Match(c, d))
    requires Trim(name[..c]) != ""
    ensures LegacyParse(name) == LegacyParsed(Trim(name[..c]), Some(Upper(name[a..b])), Some(name[c..d]))
  {
  }

  lemma HelmetBase(name: string)
    requires name == HelmetName
    ensures Trim(name[..26]) == "HELMET SOLARIS 2.0 SLATER"
  {
    var prefix := "HELMET SOLARIS 2.0 SLATER";
    assert name[..26] == prefix + " ";
    assert prefix[0] == 'H' && prefix[|prefix| - 1] == 'R';
    TrimTrailingSpaces(prefix, " ");
  }

  /** The example of the parser's own doc comment: base name, colour and size
      come out as the comment says. */
  lemma DocCommentExample()
    ensures LegacyParse(HelmetName) == LegacyParsed("HELMET SOLARIS 2.0 SLATER", Some("XL"), Some("BK/YL"))
  {
    HelmetSize(HelmetName);
    HelmetXL(HelmetName);
    HelmetColorMatch(HelmetName);
    HelmetBase(HelmetName);
    HelmetSlices(HelmetName);
    HelmetParse(HelmetName);
  }

  lemma HelmetSlices(name: string)
    requires name == HelmetName
    ensures |name| == 34 && name[26..31] == "BK/YL"
  {
  }
}
