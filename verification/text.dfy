/** The pieces of JavaScript string handling the core relies on: the ASCII
    character classes of a regular expression without the `u` flag, the
    whitespace set shared by `\s` and `String.prototype.trim`, ASCII case
    mapping, `trim`, `replace(/\s+/g, c)`, `indexOf`, `includes`, `split` on a
    one-character separator, `join`, and `replace` of a one-character string. */
module Text {
  import opened Wrappers

  predicate IsAsciiUpper(c: char) { 'A' <= c <= 'Z' }
  predicate IsAsciiLower(c: char) { 'a' <= c <= 'z' }
  predicate IsAsciiLetter(c: char) { IsAsciiUpper(c) || IsAsciiLower(c) }
  predicate IsDigit(c: char) { '0' <= c <= '9' }

  /** `\w` of a regular expression without the `u` flag (also with `i`). */
  predicate IsWordChar(c: char) { IsAsciiLetter(c) || IsDigit(c) || c == '_' }

  /** `\s`, and what `trim` removes: WhiteSpace and LineTerminator of ECMAScript. */
  predicate IsSpace(c: char) {
    c == '\t' || c == '\n' || c == '\U{000B}' || c == '\U{000C}' || c == '\r' ||
    c == ' ' || c == '\U{00A0}' || c == '\U{1680}' || ('\U{2000}' <= c <= '\U{200A}') ||
    c == '\U{2028}' || c == '\U{2029}' || c == '\U{202F}' || c == '\U{205F}' ||
    c == '\U{3000}' || c == '\U{FEFF}'
  }

  ghost predicate AllSpaces(s: string) { forall i :: 0 <= i < |s| ==> IsSpace(s[i]) }

  function UpperChar(c: char): char { if IsAsciiLower(c) then (c as int - 32) as char else c }
  function LowerChar(c: char): char { if IsAsciiUpper(c) then (c as int + 32) as char else c }

  /** `toUpperCase` / `toLowerCase`, on the ASCII letters only. */
  function Upper(s: string): string { seq(|s|, i requires 0 <= i < |s| => UpperChar(s[i])) }
  function Lower(s: string): string { seq(|s|, i requires 0 <= i < |s| => LowerChar(s[i])) }

  /** Removing the leading whitespace leaves the longest suffix that does not
      start with whitespace, and what was removed is all whitespace. */
  function TrimStart(s: string): (r: string)
    ensures |r| <= |s| && r == s[|s| - |r|..]
    ensures r == [] || !IsSpace(r[0])
    ensures AllSpaces(s[..|s| - |r|])
  {
    if |s| > 0 && IsSpace(s[0]) then
      var r := TrimStart(s[1..]);
      assert s[..|s| - |r|] == [s[0]] + s[1..][..|s| - 1 - |r|];
      r
    else s
  }

  /** Removing the trailing whitespace leaves the longest prefix that does not
      end with whitespace, and what was removed is all whitespace. */
  function TrimEnd(s: string): (r: string)
    ensures |r| <= |s| && r == s[..|r|]
    ensures r == [] || !IsSpace(r[|r| - 1])
    ensures AllSpaces(s[|r|..])
  {
    if |s| > 0 && IsSpace(s[|s| - 1]) then
      var r := TrimEnd(s[..|s| - 1]);
      assert s[|r|..] == s[..|s| - 1][|r|..] + [s[|s| - 1]];
      r
    else s
  }

  /** `String.prototype.trim`. */
  function Trim(s: string): string { TrimEnd(TrimStart(s)) }

  /** `s.replace(/\s+/g, [c])`: every maximal run of whitespace becomes one `c`. */
  function ReplaceSpaceRuns(s: string, c: char): string
    decreases |s|
  {
    if s == [] then []
    else if IsSpace(s[0]) then [c] + ReplaceSpaceRuns(TrimStart(s), c)
    else [s[0]] + ReplaceSpaceRuns(s[1..], c)
  }

  predicate OccursAt(s: string, t: string, i: nat) { i + |t| <= |s| && s[i..i + |t|] == t }

  /** `s.indexOf(t, from)`, with `None` for -1: the first occurrence at or after `from`. */
  function IndexOfFrom(s: string, t: string, from: nat): (r: Option<nat>)
    decreases |s| - from
    ensures r.Some? ==> from <= r.value && OccursAt(s, t, r.value)
    ensures r.Some? ==> forall j :: from <= j < r.value ==> !OccursAt(s, t, j)
    ensures r.None? ==> forall j :: from <= j ==> !OccursAt(s, t, j)
  {
    if from + |t| > |s| then None
    else if OccursAt(s, t, from) then Some(from)
    else IndexOfFrom(s, t, from + 1)
  }

  function IndexOf(s: string, t: string): Option<nat> { IndexOfFrom(s, t, 0) }

  /** `s.includes(t)`. */
  predicate Contains(s: string, t: string) { IndexOf(s, t).Some? }

  /** `s.split(sep)` for a one-character separator: never empty, and
      `"".split(sep)` is `[""]`. */
  function Split(s: string, sep: char): (r: seq<string>)
    ensures |r| >= 1
    decreases |s|
  {
    if s == [] then [""]
    else
      var rest := Split(s[1..], sep);
      if s[0] == sep then [""] + rest else [[s[0]] + rest[0]] + rest[1..]
  }

  /** `parts.join(sep)`. */
  function Join(parts: seq<string>, sep: string): string
    decreases |parts|
  {
    if |parts| == 0 then ""
    else if |parts| == 1 then parts[0]
    else parts[0] + sep + Join(parts[1..], sep)
  }

  /** JavaScript truthiness of a string that may be missing. */
  predicate Truthy(s: Option<string>) { s.Some? && s.value != "" }

  /** `x || ""` for a string that may be missing. */
  function OrEmpty(s: Option<string>): string { if Truthy(s) then s.value else "" }

  /** `.filter(Boolean)` over strings. */
  function NonEmpty(ss: seq<string>): (r: seq<string>)
    ensures forall t :: t in r <==> t in ss && t != ""
    decreases |ss|
  {
    if ss == [] then []
    else if ss[0] == "" then NonEmpty(ss[1..])
    else [ss[0]] + NonEmpty(ss[1..])
  }

  /** `s.replace(c, "")` with a one-character string pattern: only the first
      occurrence is removed. */
  function RemoveFirst(s: string, c: char): string
    decreases |s|
  {
    if s == [] then []
    else if s[0] == c then s[1..]
    else [s[0]] + RemoveFirst(s[1..], c)
  }

  // ---------------------------------------------------------------------------
  // Lemmas
  // ---------------------------------------------------------------------------

  /** Splitting and joining again with the same separator gives the input back,
      and no piece holds the separator. */
  lemma {:induction false} SplitJoin(s: string, sep: char)
    ensures Join(Split(s, sep), [sep]) == s
    ensures forall p :: p in Split(s, sep) ==> sep !in p
    decreases |s|
  {
    if s != [] {
      var rest := Split(s[1..], sep);
      SplitJoin(s[1..], sep);
      if s[0] == sep {
        assert Split(s, sep) == [""] + rest;
      } else {
        var r := Split(s, sep);
        assert r == [[s[0]] + rest[0]] + rest[1..];
        JoinHead([s[0]], rest, [sep]);
        assert r[0] == [s[0]] + rest[0];
        forall p | p in r ensures sep !in p {
          if p == r[0] {
            assert rest[0] in rest;
          } else {
            assert p in rest[1..];
          }
        }
      }
    }
  }

  lemma Associative<T>(a: seq<T>, b: seq<T>, c: seq<T>)
    ensures (a + b) + c == a + (b + c)
  {
  }

  lemma JoinHead(a: string, parts: seq<string>, sep: string)
    requires |parts| >= 1
    ensures Join([a + parts[0]] + parts[1..], sep) == a + Join(parts, sep)
  {
    var q := [a + parts[0]] + parts[1..];
    assert q[1..] == parts[1..];
  }

  /** Without an occurrence of `c`, removing the first `c` keeps `s`. */
  lemma {:induction false} RemoveFirstAbsent(s: string, c: char)
    requires c !in s
    ensures RemoveFirst(s, c) == s
    decreases |s|
  {
    if s != [] {
      assert c !in s[1..] by {
        forall i | 0 <= i < |s[1..]| ensures s[1..][i] != c { assert s[1..][i] == s[i + 1]; }
      }
      RemoveFirstAbsent(s[1..], c);
    }
  }

  /** Removing the first `c` deletes exactly the occurrence at the first
      position `k` that holds `c`, and keeps everything else. */
  lemma {:induction false} RemoveFirstAt(s: string, c: char, k: nat)
    requires k < |s| && s[k] == c && c !in s[..k]
    ensures RemoveFirst(s, c) == s[..k] + s[k + 1..]
    decreases k
  {
    if k == 0 {
      assert s[..0] == [];
    } else {
      assert s[0] != c by { assert s[..k][0] == s[0]; }
      assert s[1..][..k - 1] == s[..k][1..];
      RemoveFirstAt(s[1..], c, k - 1);
      assert s[..k] == [s[0]] + s[1..][..k - 1];
      assert s[k + 1..] == s[1..][k..];
      Associative([s[0]], s[1..][..k - 1], s[1..][k..]);
    }
  }

  lemma {:induction false} TrimStartAppend(s: string, t: string)
    ensures TrimStart(s + t) == if AllSpaces(s) then TrimStart(t) else TrimStart(s) + t
    decreases |s|
  {
    if s != [] {
      assert (s + t)[0] == s[0];
      if IsSpace(s[0]) {
        assert (s + t)[1..] == s[1..] + t;
        TrimStartAppend(s[1..], t);
        AllSpacesTail(s);
      }
    } else {
      assert s + t == t;
    }
  }

  lemma AllSpacesTail(s: string)
    requires s != [] && IsSpace(s[0])
    ensures AllSpaces(s) <==> AllSpaces(s[1..])
  {
    if AllSpaces(s[1..]) {
      forall i | 0 <= i < |s| ensures IsSpace(s[i]) { if i > 0 { assert s[i] == s[1..][i - 1]; } }
    }
  }

  lemma {:induction false} TrimEndAppend(s: string, t: string)
    ensures TrimEnd(s + t) == if AllSpaces(t) then TrimEnd(s) else s + TrimEnd(t)
    decreases |t|
  {
    if t != [] {
      assert (s + t)[|s + t| - 1] == t[|t| - 1];
      if IsSpace(t[|t| - 1]) {
        var t' := t[..|t| - 1];
        assert (s + t)[..|s + t| - 1] == s + t';
        TrimEndAppend(s, t');
        assert AllSpaces(t) <==> AllSpaces(t') by {
          if AllSpaces(t') {
            forall i | 0 <= i < |t| ensures IsSpace(t[i]) { if i < |t| - 1 { assert t[i] == t'[i]; } }
          }
        }
      }
    } else {
      assert s + t == s;
    }
  }

  lemma AllSpacesTrim(s: string)
    requires AllSpaces(s)
    ensures TrimStart(s) == [] && Trim(s) == []
  {
  }

  /** Whitespace around a string does not change what `trim` returns. */
  lemma TrimIgnoresSurroundingSpace(w1: string, s: string, w2: string)
    requires AllSpaces(w1) && AllSpaces(w2)
    ensures Trim(w1 + s + w2) == Trim(s)
  {
    assert w1 + s + w2 == w1 + (s + w2);
    TrimStartAppend(w1, s + w2);
    TrimStartAppend(s, w2);
    if AllSpaces(s) {
      AllSpacesTrim(w2);
      AllSpacesTrim(s);
    } else {
      TrimEndAppend(TrimStart(s), w2);
    }
  }

  /** Collapsing whitespace runs does not depend on how long a run is or of
      which whitespace characters it is made. */
  lemma {:induction false} ReplaceSpaceRunsIgnoresRunWidth(x: string, w: string, y: string, c: char)
    requires |w| > 0 && AllSpaces(w)
    ensures ReplaceSpaceRuns(x + w + y, c) == ReplaceSpaceRuns(x + [' '] + y, c)
    decreases |x|
  {
    if AllSpaces(x) {
      SpacePrefixCase(x, w, y, c);
    } else if !IsSpace(x[0]) {
      ReplaceSpaceRunsIgnoresRunWidth(x[1..], w, y, c);
      NonSpaceCase(x, w, y, c);
    } else {
      TrimStartShorter(x);
      ReplaceSpaceRunsIgnoresRunWidth(TrimStart(x), w, y, c);
      SpaceLedCase(x, w, y, c);
    }
  }

  /** Replacing the runs by a character that is not whitespace leaves no
      whitespace at all. */
  lemma {:induction false} ReplaceSpaceRunsNoSpace(s: string, c: char)
    requires !IsSpace(c)
    ensures forall i :: 0 <= i < |ReplaceSpaceRuns(s, c)| ==> !IsSpace(ReplaceSpaceRuns(s, c)[i])
    decreases |s|
  {
    if s != [] {
      if IsSpace(s[0]) {
        TrimStartShorter(s);
        var t := TrimStart(s);
        ReplaceSpaceRunsNoSpace(t, c);
        assert ReplaceSpaceRuns(s, c) == [c] + ReplaceSpaceRuns(t, c);
      } else {
        ReplaceSpaceRunsNoSpace(s[1..], c);
        assert ReplaceSpaceRuns(s, c) == [s[0]] + ReplaceSpaceRuns(s[1..], c);
      }
    }
  }

  lemma SpacePrefixCase(x: string, w: string, y: string, c: char)
    requires AllSpaces(x) && |w| > 0 && AllSpaces(w)
    ensures ReplaceSpaceRuns(x + w + y, c) == ReplaceSpaceRuns(x + [' '] + y, c)
  {
    AllSpacesConcat(x, w);
    AllSpacesConcat(x, [' ']);
    RunAtFront(x + w, y, c);
    RunAtFront(x + [' '], y, c);
  }

  lemma AllSpacesConcat(a: string, b: string)
    requires AllSpaces(a) && AllSpaces(b)
    ensures AllSpaces(a + b)
  {
    forall i | 0 <= i < |a + b| ensures IsSpace((a + b)[i]) {
      if i >= |a| { assert (a + b)[i] == b[i - |a|]; }
    }
  }

  /** A string that starts and ends with a non-space, followed by spaces, is
      trimmed back to itself. */
  lemma TrimTrailingSpaces(s: string, w: string)
    requires s != [] && !IsSpace(s[0]) && !IsSpace(s[|s| - 1]) && AllSpaces(w)
    ensures Trim(s + w) == s
  {
    TrimStartAppend(s, w);
    assert TrimStart(s) == s;
    TrimEndAppend(s, w);
  }

  lemma TrimStartShorter(x: string)
    requires |x| > 0 && IsSpace(x[0])
    ensures |TrimStart(x)| < |x|
  {
  }

  lemma NonSpaceCase(x: string, w: string, y: string, c: char)
    requires |x| > 0 && !IsSpace(x[0])
    requires ReplaceSpaceRuns(x[1..] + w + y, c) == ReplaceSpaceRuns(x[1..] + [' '] + y, c)
    ensures ReplaceSpaceRuns(x + w + y, c) == ReplaceSpaceRuns(x + [' '] + y, c)
  {
    NonSpaceStep(x, w + y, c);
    NonSpaceStep(x, [' '] + y, c);
    Associative(x[1..], w, y);
    Associative(x[1..], [' '], y);
    Associative(x, w, y);
    Associative(x, [' '], y);
  }

  lemma SpaceLedCase(x: string, w: string, y: string, c: char)
    requires |x| > 0 && IsSpace(x[0]) && !AllSpaces(x)
    requires ReplaceSpaceRuns(TrimStart(x) + w + y, c) == ReplaceSpaceRuns(TrimStart(x) + [' '] + y, c)
    ensures ReplaceSpaceRuns(x + w + y, c) == ReplaceSpaceRuns(x + [' '] + y, c)
  {
    SpaceLedStep3(x, w, y, c);
    SpaceLedStep3(x, [' '], y, c);
  }

  lemma SpaceLedStep3(x: string, m: string, y: string, c: char)
    requires |x| > 0 && IsSpace(x[0]) && !AllSpaces(x)
    ensures ReplaceSpaceRuns(x + m + y, c) == [c] + ReplaceSpaceRuns(TrimStart(x) + m + y, c)
  {
    SpaceLedStep(x, m + y, c);
    Associative(x, m, y);
    Associative(TrimStart(x), m, y);
  }

  lemma NonSpaceStep(x: string, t: string, c: char)
    requires |x| > 0 && !IsSpace(x[0])
    ensures ReplaceSpaceRuns(x + t, c) == [x[0]] + ReplaceSpaceRuns(x[1..] + t, c)
  {
    assert (x + t)[0] == x[0];
    assert (x + t)[1..] == x[1..] + t;
  }

  /** A leading run of whitespace becomes one `c`, whatever its width. */
  lemma RunAtFront(w: string, y: string, c: char)
    requires |w| > 0 && AllSpaces(w)
    ensures ReplaceSpaceRuns(w + y, c) == [c] + ReplaceSpaceRuns(TrimStart(y), c)
  {
    assert (w + y)[0] == w[0];
    TrimStartAppend(w, y);
  }

  /** Past a leading run that does not cover all of `x`, the rest of `x` stays. */
  lemma SpaceLedStep(x: string, t: string, c: char)
    requires |x| > 0 && IsSpace(x[0]) && !AllSpaces(x)
    ensures ReplaceSpaceRuns(x + t, c) == [c] + ReplaceSpaceRuns(TrimStart(x) + t, c)
  {
    assert (x + t)[0] == x[0];
    TrimStartAppend(x, t);
  }

  lemma LowerAppend(a: string, b: string)
    ensures Lower(a + b) == Lower(a) + Lower(b)
  {
  }

  lemma LowerKeepsSpaces(w: string)
    requires AllSpaces(w)
    ensures Lower(w) == w
  {
  }

  lemma LowerIgnoresCase(s: string)
    ensures Lower(Upper(s)) == Lower(s) && Lower(Lower(s)) == Lower(s)
  {
  }

  /** `[...].filter(Boolean).join(", ")`: the non-empty fields, in order,
      separated by ", ". */
  function TagLine(fields: seq<string>): string {
    Join(NonEmpty(fields), ", ")
  }

  /** The tag line of three fields whose first is non-empty: the first, then
      each of the other two that is non-empty, after ", ". */
  lemma TagLineOfThree(a: string, b: string, c: string)
    requires a != ""
    ensures TagLine([a, b, c]) == a + (if b != "" then ", " + b else "") + (if c != "" then ", " + c else "")
  {
    NonEmptyThree(a, b, c);
    if b != "" && c != "" {
      assert NonEmpty([a, b, c]) == [a, b, c];
      JoinThree(a, b, c, ", ");
    } else if b != "" {
      assert NonEmpty([a, b, c]) == [a, b];
      JoinTwo(a, b, ", ");
    } else if c != "" {
      assert NonEmpty([a, b, c]) == [a, c];
      JoinTwo(a, c, ", ");
    } else {
      assert NonEmpty([a, b, c]) == [a];
    }
  }

  lemma NonEmptyThree(a: string, b: string, c: string)
    requires a != ""
    ensures NonEmpty([a, b, c]) == [a] + (if b != "" then [b] else []) + (if c != "" then [c] else [])
  {
    var ss := [a, b, c];
    assert ss[1..] == [b, c] && [b, c][1..] == [c] && [c][1..] == [];
    assert NonEmpty([c]) == (if c != "" then [c] else []);
    assert NonEmpty([b, c]) == (if b != "" then [b] else []) + NonEmpty([c]);
    assert NonEmpty(ss) == [a] + NonEmpty([b, c]);
    Associative([a], if b != "" then [b] else [], if c != "" then [c] else []);
  }

  lemma JoinTwo(x: string, y: string, sep: string)
    ensures Join([x, y], sep) == x + sep + y
  {
    assert [x, y][1..] == [y];
  }

  lemma JoinThree(x: string, y: string, z: string, sep: string)
    ensures Join([x, y, z], sep) == x + sep + y + sep + z
  {
    assert [x, y, z][1..] == [y, z];
    JoinTwo(y, z, sep);
  }

  /** Filtering distributes over concatenation. */
  lemma {:induction false} NonEmptyAppend(a: seq<string>, b: seq<string>)
    ensures NonEmpty(a + b) == NonEmpty(a) + NonEmpty(b)
    decreases |a|
  {
    if a != [] {
      assert (a + b)[0] == a[0] && (a + b)[1..] == a[1..] + b;
      NonEmptyAppend(a[1..], b);
      if a[0] != "" {
        Associative([a[0]], NonEmpty(a[1..]), NonEmpty(b));
      }
    } else {
      assert a + b == b;
    }
  }

  /** Strings that are all non-empty pass the filter unchanged. */
  lemma {:induction false} NonEmptyKeeps(ss: seq<string>)
    requires forall s :: s in ss ==> s != ""
    ensures NonEmpty(ss) == ss
    decreases |ss|
  {
    if ss != [] {
      assert ss[0] in ss;
      assert forall s :: s in ss[1..] ==> s in ss;
      NonEmptyKeeps(ss[1..]);
      assert [ss[0]] + ss[1..] == ss;
    }
  }

  /** Nothing passes the filter when every string is empty. */
  lemma NonEmptyOfBlanks(ss: seq<string>)
    requires forall k :: 0 <= k < |ss| ==> ss[k] == ""
    ensures NonEmpty(ss) == []
  {
  }

  /** The first string to pass the filter is the first non-empty one. */
  lemma {:induction false} NonEmptyFirst(ss: seq<string>, k: nat)
    requires k < |ss| && ss[k] != ""
    requires forall j :: 0 <= j < k ==> ss[j] == ""
    ensures NonEmpty(ss) != [] && NonEmpty(ss)[0] == ss[k]
    decreases k
  {
    if k > 0 {
      NonEmptyFirst(ss[1..], k - 1);
    }
  }
}
