/** What `String.prototype.match` does with the few regular expressions of the
    core (all with the `i` flag and without `u`): the search tries start
    positions from left to right and, at each position, the alternatives of
    the pattern in the order they are written; `\b` and `[A-Z]` are ASCII only,
    and case is folded on ASCII letters only. A matcher is a function that,
    given the subject and a start position, says where a match starting there
    ends, if one does. */
module Regex {
  import opened Wrappers
  import opened Text

  /** A match of a pattern: the subject's text `s[start..end]`. */
  datatype Match = Match(start: nat, end: nat)

  predicate IsWordAt(s: string, i: int) { 0 <= i < |s| && IsWordChar(s[i]) }

  /** `\b` at position `i`: exactly one of the characters on either side is a
      word character. */
  predicate Boundary(s: string, i: int) { IsWordAt(s, i - 1) != IsWordAt(s, i) }

  /** The literal `t` (written in upper case) occurs at `p`, ignoring ASCII case. */
  predicate LiteralAt(s: string, p: nat, t: string) {
    p + |t| <= |s| && Upper(s[p..p + |t|]) == t
  }

  /** `\bt\b`: the literal `t` occurs at `p` as a whole word. */
  predicate WholeWordAt(s: string, p: nat, t: string) {
    Boundary(s, p) && LiteralAt(s, p, t) && Boundary(s, p + |t|)
  }

  /** The leftmost match of `at` that starts at `from` or later. */
  function FirstMatch(s: string, at: (string, nat) -> Option<nat>, from: nat): (r: Option<Match>)
    ensures r.Some? ==> from <= r.value.start <= |s| && at(s, r.value.start) == Some(r.value.end)
    ensures r.Some? ==> forall q :: from <= q < r.value.start ==> at(s, q).None?
    ensures r.None? ==> forall q :: from <= q <= |s| ==> at(s, q).None?
    decreases |s| + 1 - from
  {
    if from > |s| then None
    else match at(s, from)
      case Some(e) => Some(Match(from, e))
      case None => FirstMatch(s, at, from + 1)
  }

  /** `\b(t0|t1|...)\b` at `p`: the index of the first token of `vocab` that
      occurs at `p` as a whole word. */
  function TokenAt(s: string, p: nat, vocab: seq<string>): (r: Option<nat>)
    ensures r.Some? ==> r.value < |vocab| && WholeWordAt(s, p, vocab[r.value])
    ensures r.Some? ==> forall j :: 0 <= j < r.value ==> !WholeWordAt(s, p, vocab[j])
    ensures r.None? <==> forall j :: 0 <= j < |vocab| ==> !WholeWordAt(s, p, vocab[j])
    decreases |vocab|
  {
    if vocab == [] then None
    else if WholeWordAt(s, p, vocab[0]) then Some(0)
    else match TokenAt(s, p, vocab[1..])
      case Some(i) => Some(i + 1)
      case None => None
  }

  /** Some token of `vocab` occurs at `p` as a whole word. */
  ghost predicate VocabWordAt(s: string, p: nat, vocab: seq<string>) {
    exists j :: 0 <= j < |vocab| && WholeWordAt(s, p, vocab[j])
  }

  /** `\b(t0|t1|...)\b` at `p`: where the first token of `vocab` that occurs
      there as a whole word ends. */
  function WordEnd(s: string, p: nat, vocab: seq<string>): (r: Option<nat>)
    ensures r.Some? <==> VocabWordAt(s, p, vocab)
    ensures r.Some? ==> exists j :: 0 <= j < |vocab| && WholeWordAt(s, p, vocab[j]) &&
                                    r.value == p + |vocab[j]|
  {
    match TokenAt(s, p, vocab)
    case Some(i) => Some(p + |vocab[i]|)
    case None => None
  }

  /** `s.match(/\b(t0|t1|...)\b/i)`: the leftmost token of `vocab` that occurs
      as a whole word. */
  function FirstWord(s: string, vocab: seq<string>): (r: Option<Match>)
    ensures r.Some? ==> exists j :: 0 <= j < |vocab| && WholeWordAt(s, r.value.start, vocab[j]) &&
                                    r.value.end == r.value.start + |vocab[j]|
    ensures r.Some? ==> r.value.start <= r.value.end <= |s| && Upper(s[r.value.start..r.value.end]) in vocab
    ensures r.Some? ==> forall q: nat :: q < r.value.start ==> !VocabWordAt(s, q, vocab)
    ensures r.None? <==> forall q: nat :: q <= |s| ==> !VocabWordAt(s, q, vocab)
  {
    var r := FirstMatch(s, (t, p) => WordEnd(t, p, vocab), 0);
    FirstWordLeftmost(s, vocab, r);
    r
  }

  lemma FirstWordLeftmost(s: string, vocab: seq<string>, r: Option<Match>)
    requires r == FirstMatch(s, (t, p) => WordEnd(t, p, vocab), 0)
    ensures r.Some? ==> WordEnd(s, r.value.start, vocab) == Some(r.value.end)
    ensures r.Some? ==> forall q: nat :: q < r.value.start ==> !VocabWordAt(s, q, vocab)
    ensures r.None? ==> forall q: nat :: q <= |s| ==> !VocabWordAt(s, q, vocab)
  {
    var at := (t, p) => WordEnd(t, p, vocab);
    if r.Some? {
      forall q: nat | q < r.value.start ensures !VocabWordAt(s, q, vocab) {
        assert at(s, q).None?;
      }
    } else {
      forall q: nat | q <= |s| ensures !VocabWordAt(s, q, vocab) {
        assert at(s, q).None?;
      }
    }
  }

  /** Every character of a token is a word character. */
  predicate WordToken(t: string) { forall k :: 0 <= k < |t| ==> IsWordChar(t[k]) }

  /** Tokens made of word characters can only match a whole word one way: at
      a given position at most one of them occurs as a whole word, so the
      order of the alternatives does not change what is found. */
  lemma WholeWordUnique(s: string, p: nat, t1: string, t2: string)
    requires t1 != "" && t2 != "" && WordToken(t1) && WordToken(t2)
    requires WholeWordAt(s, p, t1) && WholeWordAt(s, p, t2)
    ensures t1 == t2
  {
    if |t1| < |t2| {
      WordCharAtMatch(s, p, t2, |t1|);
      WordCharAtMatch(s, p, t1, |t1| - 1);
    } else if |t2| < |t1| {
      WordCharAtMatch(s, p, t1, |t2|);
      WordCharAtMatch(s, p, t2, |t2| - 1);
    } else {
      assert Upper(s[p..p + |t1|]) == t1 && Upper(s[p..p + |t2|]) == t2;
    }
  }

  /** With a vocabulary of words, the match found ends where any token that
      occurs as a whole word at its start ends. */
  lemma FirstWordEnd(s: string, vocab: seq<string>, t: string)
    requires forall j :: 0 <= j < |vocab| ==> vocab[j] != "" && WordToken(vocab[j])
    requires t != "" && WordToken(t)
    requires FirstWord(s, vocab).Some? && WholeWordAt(s, FirstWord(s, vocab).value.start, t)
    ensures FirstWord(s, vocab).value.end == FirstWord(s, vocab).value.start + |t|
  {
    var m := FirstWord(s, vocab).value;
    var j :| 0 <= j < |vocab| && WholeWordAt(s, m.start, vocab[j]) && m.end == m.start + |vocab[j]|;
    WholeWordUnique(s, m.start, vocab[j], t);
  }

  /** A character matched, ignoring case, by a word character is itself one. */
  lemma WordCharAtMatch(s: string, p: nat, t: string, k: nat)
    requires LiteralAt(s, p, t) && WordToken(t) && k < |t|
    ensures IsWordAt(s, p + k)
  {
    assert Upper(s[p..p + |t|])[k] == UpperChar(s[p + k]);
  }

  /** `[A-Z]{n}` with the `i` flag: `n` ASCII letters at `p`. */
  predicate LettersAt(s: string, p: nat, n: nat) {
    p + n <= |s| && forall k :: p <= k < p + n ==> IsAsciiLetter(s[k])
  }

  /** `[A-Z]{2,3}\/[A-Z]{2,3}` at `p`, followed by `tail`, which tells
      where the rest of the pattern ends when it matches at the position given;
      the greedy quantifiers try three letters before two, the first one
      before the second. */
  function CodeThen(s: string, p: nat, tail: (string, nat) -> Option<nat>): (r: Option<nat>)
    ensures r.Some? ==> exists a, b :: 2 <= a <= 3 && 2 <= b <= 3 && CodeShape(s, p, a, b) &&
                                      tail(s, p + a + 1 + b) == r
  {
    if CodeShape(s, p, 3, 3) && tail(s, p + 7).Some? then tail(s, p + 7)
    else if CodeShape(s, p, 3, 2) && tail(s, p + 6).Some? then tail(s, p + 6)
    else if CodeShape(s, p, 2, 3) && tail(s, p + 6).Some? then tail(s, p + 6)
    else if CodeShape(s, p, 2, 2) && tail(s, p + 5).Some? then tail(s, p + 5)
    else None
  }

  /** `a` letters, a slash and `b` letters at `p`. */
  predicate CodeShape(s: string, p: nat, a: nat, b: nat) {
    LettersAt(s, p, a) && p + a < |s| && s[p + a] == '/' && LettersAt(s, p + a + 1, b)
  }

  /** The empty rest of a pattern ending in `\b`. */
  function BoundaryEnd(s: string, q: nat): (r: Option<nat>)
    ensures r.Some? <==> Boundary(s, q)
    ensures r.Some? ==> r.value == q
  {
    if Boundary(s, q) then Some(q) else None
  }
}
