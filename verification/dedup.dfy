/** Keeping the first element per key, in order: what the source does with a
    `Set` of seen keys (variants by size and colour), a `Map` keyed by part
    number, a `find` over the images collected so far, and `[...new Set(xs)]`. */
module Dedup {

  /** The keys of the elements of `s`. */
  function Keys<T, K(==)>(s: seq<T>, key: T -> K): set<K>
    decreases |s|
  {
    if s == [] then {} else Keys(s[..|s| - 1], key) + {key(s[|s| - 1])}
  }

  /** The elements of `s` whose key has not occurred before them, in order. */
  function DistinctBy<T, K(==)>(s: seq<T>, key: T -> K): seq<T>
    decreases |s|
  {
    if s == [] then []
    else
      var d := DistinctBy(s[..|s| - 1], key);
      if key(s[|s| - 1]) in Keys(d, key) then d else d + [s[|s| - 1]]
  }

  /** The loop the source writes: a set of the keys seen so far, and the
      elements whose key was not in it. */
  method KeepFirstPerKey<T, K(==)>(s: seq<T>, key: T -> K) returns (r: seq<T>)
    ensures r == DistinctBy(s, key)
  {
    r := [];
    var seen: set<K> := {};
    var i := 0;
    while i < |s|
      invariant 0 <= i <= |s|
      invariant r == DistinctBy(s[..i], key)
      invariant seen == Keys(r, key)
    {
      assert s[..i + 1] == s[..i] + [s[i]];
      DistinctByAppend(s[..i], s[i], key);
      if key(s[i]) !in seen {
        KeysAppend(r, s[i], key);
        seen := seen + {key(s[i])};
        r := r + [s[i]];
      }
      i := i + 1;
    }
    assert s[..|s|] == s;
  }

  function Identity<T>(x: T): T { x }

  /** `[...new Set(s)]`. */
  function Distinct<T(==)>(s: seq<T>): seq<T> { DistinctBy(s, Identity) }

  /** Where the key `k` first occurs in `s`. */
  function FirstIndex<T, K(==)>(s: seq<T>, key: T -> K, k: K): (i: nat)
    requires k in Keys(s, key)
    ensures i < |s| && key(s[i]) == k
    ensures forall j :: 0 <= j < i ==> key(s[j]) != k
    decreases |s|
  {
    var p := s[..|s| - 1];
    if k in Keys(p, key) then
      var i := FirstIndex(p, key, k);
      assert s[i] == p[i];
      assert forall j :: 0 <= j < i ==> s[j] == p[j];
      i
    else
      KeysMember(p, key, k);
      assert forall j :: 0 <= j < |p| ==> s[j] == p[j];
      |s| - 1
  }

  lemma {:induction false} KeysMember<T, K>(s: seq<T>, key: T -> K, k: K)
    ensures k in Keys(s, key) <==> exists i :: 0 <= i < |s| && key(s[i]) == k
    decreases |s|
  {
    if s != [] {
      var p := s[..|s| - 1];
      KeysMember(p, key, k);
      if k in Keys(p, key) {
        var i :| 0 <= i < |p| && key(p[i]) == k;
        assert s[i] == p[i];
      }
      if i :| 0 <= i < |s| && key(s[i]) == k {
        if i < |p| { assert p[i] == s[i]; }
      }
    }
  }

  lemma KeysAppend<T, K>(s: seq<T>, x: T, key: T -> K)
    ensures Keys(s + [x], key) == Keys(s, key) + {key(x)}
  {
    assert (s + [x])[..|s|] == s;
  }

  lemma DistinctByAppend<T, K>(s: seq<T>, x: T, key: T -> K)
    ensures DistinctBy(s + [x], key) ==
            var d := DistinctBy(s, key); if key(x) in Keys(d, key) then d else d + [x]
  {
    assert (s + [x])[..|s|] == s;
  }

  /** The first element is always kept, so the result is empty only for an
      empty input. */
  lemma {:induction false} DistinctByHead<T, K>(s: seq<T>, key: T -> K)
    requires s != []
    ensures DistinctBy(s, key) != [] && DistinctBy(s, key)[0] == s[0]
    decreases |s|
  {
    var p := s[..|s| - 1];
    if p != [] {
      DistinctByHead(p, key);
      assert p[0] == s[0];
    }
  }

  lemma {:induction false} DistinctByLength<T, K>(s: seq<T>, key: T -> K)
    ensures |DistinctBy(s, key)| <= |s|
    decreases |s|
  {
    if s != [] {
      DistinctByLength(s[..|s| - 1], key);
    }
  }

  lemma {:induction false} DistinctByElements<T, K>(s: seq<T>, key: T -> K)
    ensures forall x :: x in DistinctBy(s, key) ==> x in s
    decreases |s|
  {
    if s != [] {
      DistinctByElements(s[..|s| - 1], key);
    }
  }

  /** No two elements of `r` share a key. */
  ghost predicate KeysUnique<T, K>(r: seq<T>, key: T -> K) {
    forall i, j :: 0 <= i < j < |r| ==> key(r[i]) != key(r[j])
  }

  /** Every element of `r` is the first element of `s` with its key, and they
      come in the order of those first occurrences in `s`. */
  ghost predicate FirstOccurrences<T, K>(r: seq<T>, s: seq<T>, key: T -> K) {
    && (forall j :: 0 <= j < |r| ==> key(r[j]) in Keys(s, key) && r[j] == s[FirstIndex(s, key, key(r[j]))])
    && (forall i, j :: 0 <= i < j < |r| ==>
          key(r[i]) in Keys(s, key) && key(r[j]) in Keys(s, key) &&
          FirstIndex(s, key, key(r[i])) < FirstIndex(s, key, key(r[j])))
  }

  /** The result holds one element per key of the input, no key twice, each
      element is the first one of the input with its key, and they come in the
      order of those first occurrences. */
  lemma DistinctByFirstOccurrences<T, K>(s: seq<T>, key: T -> K)
    ensures Keys(DistinctBy(s, key), key) == Keys(s, key)
    ensures KeysUnique(DistinctBy(s, key), key)
    ensures FirstOccurrences(DistinctBy(s, key), s, key)
  {
    DistinctByKeys(s, key);
    DistinctByUnique(s, key);
    DistinctByFirst(s, key);
  }

  lemma {:induction false} DistinctByKeys<T, K>(s: seq<T>, key: T -> K)
    ensures Keys(DistinctBy(s, key), key) == Keys(s, key)
    decreases |s|
  {
    if s != [] {
      var p, x := s[..|s| - 1], s[|s| - 1];
      assert s == p + [x];
      DistinctByKeys(p, key);
      KeysAppend(p, x, key);
      KeysAppend(DistinctBy(p, key), x, key);
    }
  }

  lemma {:induction false} DistinctByUnique<T, K>(s: seq<T>, key: T -> K)
    ensures KeysUnique(DistinctBy(s, key), key)
    decreases |s|
  {
    if s != [] {
      var p, x := s[..|s| - 1], s[|s| - 1];
      DistinctByUnique(p, key);
      var d := DistinctBy(p, key);
      if key(x) !in Keys(d, key) {
        var r := d + [x];
        assert DistinctBy(s, key) == r;
        forall i, j | 0 <= i < j < |r| ensures key(r[i]) != key(r[j]) {
          if j == |d| {
            assert r[i] == d[i] && r[j] == x;
            KeysMember(d, key, key(d[i]));
          } else {
            assert r[i] == d[i] && r[j] == d[j];
          }
        }
      }
    }
  }

  lemma {:induction false} DistinctByFirst<T, K>(s: seq<T>, key: T -> K)
    ensures FirstOccurrences(DistinctBy(s, key), s, key)
    decreases |s|
  {
    if s != [] {
      var p, x := s[..|s| - 1], s[|s| - 1];
      assert s == p + [x];
      DistinctByFirst(p, key);
      var d := DistinctBy(p, key);
      KeysAppend(p, x, key);
      forall k | k in Keys(p, key) ensures FirstIndex(s, key, k) == FirstIndex(p, key, k) { }
      forall j | 0 <= j < |p| ensures s[j] == p[j] { }
      DistinctByKeys(p, key);
      if key(x) !in Keys(d, key) {
        var r := d + [x];
        assert DistinctBy(s, key) == r;
        assert FirstIndex(s, key, key(x)) == |s| - 1;
        forall j | 0 <= j < |r|
          ensures key(r[j]) in Keys(s, key) && r[j] == s[FirstIndex(s, key, key(r[j]))]
        {
          if j < |d| { assert r[j] == d[j]; }
        }
        forall i, j | 0 <= i < j < |r|
          ensures key(r[i]) in Keys(s, key) && key(r[j]) in Keys(s, key) &&
                  FirstIndex(s, key, key(r[i])) < FirstIndex(s, key, key(r[j]))
        {
          assert r[i] == d[i];
          if j < |d| { assert r[j] == d[j]; }
        }
      }
    }
  }

  // ---------------------------------------------------------------------------
  // Grouping by key
  // ---------------------------------------------------------------------------

  /** The keys of the elements of `s`, in order. */
  function KeySeq<T, K>(s: seq<T>, key: T -> K): (r: seq<K>)
    ensures |r| == |s| && forall i :: 0 <= i < |s| ==> r[i] == key(s[i])
  {
    seq(|s|, i requires 0 <= i < |s| => key(s[i]))
  }

  /** The elements of `s` with key `k`, in order. */
  function WithKey<T, K(==)>(s: seq<T>, key: T -> K, k: K): seq<T>
    decreases |s|
  {
    if s == [] then [] else WithKey(s[..|s| - 1], key, k) + (if key(s[|s| - 1]) == k then [s[|s| - 1]] else [])
  }

  lemma WithKeyAppend<T, K>(s: seq<T>, x: T, key: T -> K, k: K)
    ensures WithKey(s + [x], key, k) == WithKey(s, key, k) + (if key(x) == k then [x] else [])
  {
    assert (s + [x])[..|s|] == s;
  }

  lemma {:induction false} WithKeyAbsent<T, K>(s: seq<T>, key: T -> K, k: K)
    requires k !in Keys(s, key)
    ensures WithKey(s, key, k) == []
    decreases |s|
  {
    if s != [] {
      WithKeyAbsent(s[..|s| - 1], key, k);
    }
  }

  /** `WithKey` keeps exactly the elements with key `k`: what it returns are
      elements of `s` with that key, and every such element is returned. */
  lemma {:induction false} WithKeyMembers<T, K>(s: seq<T>, key: T -> K, k: K)
    ensures forall x :: x in WithKey(s, key, k) <==> x in s && key(x) == k
    decreases |s|
  {
    if s != [] {
      var p := s[..|s| - 1];
      WithKeyMembers(p, key, k);
      assert s == p + [s[|s| - 1]];
    }
  }

  /** How many elements of `s` have one of the keys `ks`, counted key by key. */
  function CountWithKeys<T, K(==)>(s: seq<T>, key: T -> K, ks: seq<K>): nat
    decreases |ks|
  {
    if ks == [] then 0 else |WithKey(s, key, ks[0])| + CountWithKeys(s, key, ks[1..])
  }

  lemma {:induction false} CountAppendKey<T, K>(s: seq<T>, key: T -> K, ks: seq<K>, k: K)
    ensures CountWithKeys(s, key, ks + [k]) == CountWithKeys(s, key, ks) + |WithKey(s, key, k)|
    decreases |ks|
  {
    if ks != [] {
      assert (ks + [k])[1..] == ks[1..] + [k];
      CountAppendKey(s, key, ks[1..], k);
    } else {
      assert ([] + [k])[1..] == [];
    }
  }

  /** Adding an element whose key is not among `ks` changes no count. */
  lemma {:induction false} CountOtherKey<T, K>(s: seq<T>, x: T, key: T -> K, ks: seq<K>)
    requires key(x) !in ks
    ensures CountWithKeys(s + [x], key, ks) == CountWithKeys(s, key, ks)
    decreases |ks|
  {
    if ks != [] {
      WithKeyAppend(s, x, key, ks[0]);
      CountOtherKey(s, x, key, ks[1..]);
    }
  }

  /** Adding an element whose key occurs once in `ks` adds one to the count. */
  lemma {:induction false} CountOwnKey<T, K>(s: seq<T>, x: T, key: T -> K, ks: seq<K>)
    requires key(x) in ks
    requires forall i, j :: 0 <= i < j < |ks| ==> ks[i] != ks[j]
    ensures CountWithKeys(s + [x], key, ks) == CountWithKeys(s, key, ks) + 1
    decreases |ks|
  {
    WithKeyAppend(s, x, key, ks[0]);
    if ks[0] == key(x) {
      assert key(x) !in ks[1..] by {
        forall j | 0 <= j < |ks[1..]| ensures ks[1..][j] != key(x) {
          assert ks[1..][j] == ks[j + 1];
        }
      }
      CountOtherKey(s, x, key, ks[1..]);
    } else {
      assert key(x) in ks[1..];
      forall i, j | 0 <= i < j < |ks[1..]| ensures ks[1..][i] != ks[1..][j] {
        assert ks[1..][i] == ks[i + 1] && ks[1..][j] == ks[j + 1];
      }
      CountOwnKey(s, x, key, ks[1..]);
    }
  }

  /** Grouping by key loses and duplicates nothing: over the keys in order of
      first occurrence, the groups hold all the elements of `s` between them. */
  lemma {:induction false} GroupsCoverAll<T, K>(s: seq<T>, key: T -> K)
    ensures CountWithKeys(s, key, KeySeq(DistinctBy(s, key), key)) == |s|
    decreases |s|
  {
    if s != [] {
      var p, x := s[..|s| - 1], s[|s| - 1];
      assert s == p + [x];
      GroupsCoverAll(p, key);
      var d := DistinctBy(p, key);
      var ks := KeySeq(d, key);
      DistinctByKeys(p, key);
      KeysMember(d, key, key(x));
      if key(x) in Keys(d, key) {
        assert DistinctBy(s, key) == d;
        DistinctByUnique(p, key);
        assert key(x) in ks;
        CountOwnKey(p, x, key, ks);
      } else {
        var d' := d + [x];
        assert DistinctBy(s, key) == d';
        assert KeySeq(d', key) == ks + [key(x)];
        assert key(x) !in ks;
        CountAppendKey(s, key, ks, key(x));
        CountOtherKey(p, x, key, ks);
        WithKeyAppend(p, x, key, key(x));
        WithKeyAbsent(p, key, key(x));
      }
    }
  }

  /** For `Distinct`: no element twice, the same elements as the input, in the
      order of their first occurrence in the input. */
  lemma DistinctProperties<T>(s: seq<T>)
    ensures KeysUnique(Distinct(s), Identity)
    ensures forall x :: x in Distinct(s) <==> x in s
    ensures FirstOccurrences(Distinct(s), s, Identity)
  {
    var r := Distinct(s);
    DistinctByFirstOccurrences(s, Identity);
    forall x ensures x in r <==> x in s {
      KeysMember(r, Identity, x);
      KeysMember(s, Identity, x);
    }
  }

  /** The step of `[...new Set(s)]` built one element at a time: an element
      already seen is skipped, a new one is appended. */
  lemma DistinctAppend<T>(s: seq<T>, x: T)
    ensures Distinct(s + [x]) == if x in Distinct(s) then Distinct(s) else Distinct(s) + [x]
  {
    DistinctByAppend(s, x, Identity);
    KeysMember(Distinct(s), Identity, x);
  }

  /** `s.flatMap(f)`. */
  function ConcatMap<T, U>(s: seq<T>, f: T -> seq<U>): seq<U>
    decreases |s|
  {
    if s == [] then [] else ConcatMap(s[..|s| - 1], f) + f(s[|s| - 1])
  }

  lemma ConcatMapStep<T, U>(s: seq<T>, f: T -> seq<U>, i: nat)
    requires i < |s|
    ensures ConcatMap(s[..i + 1], f) == ConcatMap(s[..i], f) + f(s[i])
  {
    assert s[..i + 1][..i] == s[..i];
  }

  /** An element of the flattened sequence comes from one of the pieces, and
      every element of every piece is in it. */
  lemma {:induction false} ConcatMapMembers<T, U>(s: seq<T>, f: T -> seq<U>, u: U)
    ensures u in ConcatMap(s, f) <==> exists i :: 0 <= i < |s| && u in f(s[i])
    decreases |s|
  {
    if s != [] {
      var p := s[..|s| - 1];
      ConcatMapMembers(p, f, u);
      if u in ConcatMap(s, f) && u !in f(s[|s| - 1]) {
        var i :| 0 <= i < |p| && u in f(p[i]);
        assert s[i] == p[i];
      }
      if exists i :: 0 <= i < |s| && u in f(s[i]) {
        var i :| 0 <= i < |s| && u in f(s[i]);
        if i < |p| {
          assert p[i] == s[i];
        }
      }
    }
  }

  /** `flatMap` distributes over concatenation. */
  lemma {:induction false} ConcatMapAppend<T, U>(s: seq<T>, t: seq<T>, f: T -> seq<U>)
    ensures ConcatMap(s + t, f) == ConcatMap(s, f) + ConcatMap(t, f)
    decreases |t|
  {
    if t == [] {
      assert s + t == s;
    } else {
      var q := t[..|t| - 1];
      ConcatMapAppend(s, q, f);
      assert (s + t)[..|s + t| - 1] == s + q;
    }
  }
}
