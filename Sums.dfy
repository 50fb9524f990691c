/** Folds over sequences used by the order routes: filtered sums
    (`filter(...).reduce((a, r) => a + r.qty, 0)`), grouping by a string key in
    order of first occurrence (what a JavaScript `Map` keyed by that string
    keeps), and the facts that tie group sums to the overall sum. */
module Sums {
  import opened Wrappers

  /** The sum of `val(x)` over the elements `x` of `s` that satisfy `P`. */
  function SumWhere<T>(s: seq<T>, P: T -> bool, val: T -> int): int
  {
    if s == [] then 0
    else SumWhere(s[..|s| - 1], P, val) + (if P(s[|s| - 1]) then val(s[|s| - 1]) else 0)
  }

  /** The sum of `val(x)` over all elements. */
  function SumAll<T>(s: seq<T>, val: T -> int): int
  {
    if s == [] then 0 else SumAll(s[..|s| - 1], val) + val(s[|s| - 1])
  }

  lemma {:induction false} SumWhereAppend<T>(a: seq<T>, b: seq<T>, P: T -> bool, val: T -> int)
    ensures SumWhere(a + b, P, val) == SumWhere(a, P, val) + SumWhere(b, P, val)
    decreases |b|
  {
    if b == [] {
      assert a + b == a;
    } else {
      assert (a + b)[..|a + b| - 1] == a + b[..|b| - 1];
      SumWhereAppend(a, b[..|b| - 1], P, val);
    }
  }

  /** Two filters that agree on every element give the same sum. */
  lemma {:induction false} SumWhereSame<T>(s: seq<T>, P: T -> bool, Q: T -> bool, val: T -> int)
    requires forall i :: 0 <= i < |s| ==> P(s[i]) == Q(s[i])
    ensures SumWhere(s, P, val) == SumWhere(s, Q, val)
  {
    if s != [] {
      SumWhereSame(s[..|s| - 1], P, Q, val);
    }
  }

  /** A filter no element satisfies sums to zero. */
  lemma {:induction false} SumWhereNone<T>(s: seq<T>, P: T -> bool, val: T -> int)
    requires forall i :: 0 <= i < |s| ==> !P(s[i])
    ensures SumWhere(s, P, val) == 0
  {
    if s != [] {
      SumWhereNone(s[..|s| - 1], P, val);
    }
  }

  /** The sum of `val(x)` over the elements whose key is `k`. */
  function SumKey<T>(s: seq<T>, key: T -> string, k: string, val: T -> int): int
  {
    if s == [] then 0
    else SumKey(s[..|s| - 1], key, k, val) + (if key(s[|s| - 1]) == k then val(s[|s| - 1]) else 0)
  }

  /** The elements whose key is `k`, in their order. */
  function FilterKey<T>(s: seq<T>, key: T -> string, k: string): (r: seq<T>)
    ensures |r| <= |s|
    ensures forall i :: 0 <= i < |r| ==> key(r[i]) == k
  {
    if s == [] then []
    else FilterKey(s[..|s| - 1], key, k) + (if key(s[|s| - 1]) == k then [s[|s| - 1]] else [])
  }

  /** The group of `k` holds elements of `s` only. */
  lemma {:induction false} FilterKeyMembers<T>(s: seq<T>, key: T -> string, k: string, x: T)
    ensures x in FilterKey(s, key, k) ==> x in s
  {
    if s != [] {
      FilterKeyMembers(s[..|s| - 1], key, k, x);
      assert s == s[..|s| - 1] + [s[|s| - 1]];
    }
  }

  predicate NoDup(ks: seq<string>) {
    forall i, j :: 0 <= i < j < |ks| ==> ks[i] != ks[j]
  }

  /** The distinct keys of `s` in order of first occurrence. */
  function DistinctKeys<T>(s: seq<T>, key: T -> string): (ks: seq<string>)
  {
    if s == [] then []
    else
      var ps := DistinctKeys(s[..|s| - 1], key);
      if key(s[|s| - 1]) in ps then ps else ps + [key(s[|s| - 1])]
  }

  /** The keys listed are exactly the keys that occur, each once. */
  lemma {:induction false} DistinctKeysSpec<T>(s: seq<T>, key: T -> string)
    ensures NoDup(DistinctKeys(s, key))
    ensures forall k :: k in DistinctKeys(s, key) <==> exists i :: 0 <= i < |s| && key(s[i]) == k
  {
    if s != [] {
      var p := s[..|s| - 1];
      DistinctKeysSpec(p, key);
      assert forall i :: 0 <= i < |p| ==> s[i] == p[i];
    }
  }

  /** Every element with key `k` is in the group of `k`. */
  lemma {:induction false} InFilterKey<T>(s: seq<T>, key: T -> string, i: int)
    requires 0 <= i < |s|
    ensures s[i] in FilterKey(s, key, key(s[i]))
  {
    if i < |s| - 1 {
      InFilterKey(s[..|s| - 1], key, i);
    }
  }

  /** The sum over a group is the sum over the whole sequence of the
      elements that carry its key. */
  lemma {:induction false} SumOfGroup<T>(s: seq<T>, key: T -> string, k: string, val: T -> int)
    ensures SumAll(FilterKey(s, key, k), val) == SumKey(s, key, k, val)
  {
    if s != [] {
      var p := s[..|s| - 1];
      var x := s[|s| - 1];
      SumOfGroup(p, key, k, val);
      var g := FilterKey(p, key, k);
      if key(x) == k {
        assert (g + [x])[..|g + [x]| - 1] == g;
      } else {
        assert g + [] == g;
      }
    }
  }

  /** A key that never occurs has sum zero. */
  lemma {:induction false} SumKeyAbsent<T>(s: seq<T>, key: T -> string, k: string, val: T -> int)
    requires k !in DistinctKeys(s, key)
    ensures SumKey(s, key, k, val) == 0
  {
    if s != [] {
      var p := s[..|s| - 1];
      assert forall i :: 0 <= i < |p| ==> s[i] == p[i];
      SumKeyAbsent(p, key, k, val);
    }
  }

  /** The sum of the per-key sums over the keys `ks`. */
  function SumOverKeys<T>(s: seq<T>, key: T -> string, ks: seq<string>, val: T -> int): int
  {
    if ks == [] then 0
    else SumOverKeys(s, key, ks[..|ks| - 1], val) + SumKey(s, key, ks[|ks| - 1], val)
  }

  /** Appending one element adds its value to exactly the one key it
      carries, if that key is listed. */
  lemma {:induction false} SumOverKeysSnoc<T>(p: seq<T>, x: T, key: T -> string, ks: seq<string>, val: T -> int)
    requires NoDup(ks)
    ensures SumOverKeys(p + [x], key, ks, val)
         == SumOverKeys(p, key, ks, val) + (if key(x) in ks then val(x) else 0)
  {
    if ks != [] {
      var q := ks[..|ks| - 1];
      var k := ks[|ks| - 1];
      assert (p + [x])[..|p + [x]| - 1] == p;
      SumOverKeysSnoc(p, x, key, q, val);
      assert key(x) in ks <==> key(x) in q || key(x) == k;
      assert k !in q;
    }
  }

  /** Grouping loses and duplicates nothing: the per-key sums over the
      distinct keys add up to the sum over all elements. */
  lemma {:induction false} PartitionSum<T>(s: seq<T>, key: T -> string, val: T -> int)
    ensures SumOverKeys(s, key, DistinctKeys(s, key), val) == SumAll(s, val)
  {
    if s != [] {
      var p := s[..|s| - 1];
      var x := s[|s| - 1];
      assert s == p + [x];
      var ds := DistinctKeys(p, key);
      DistinctKeysSpec(p, key);
      PartitionSum(p, key, val);
      SumOverKeysSnoc(p, x, key, ds, val);
      if key(x) !in ds {
        var ks := ds + [key(x)];
        assert ks[..|ks| - 1] == ds;
        SumKeyAbsent(p, key, key(x), val);
      }
    }
  }

  /** The position of the first element at or after `i` satisfying `P`, if
      any. */
  function FirstFrom<T>(s: seq<T>, P: T -> bool, i: nat): (r: Option<nat>)
    requires i <= |s|
    ensures r.Some? ==> i <= r.value < |s| && P(s[r.value])
    decreases |s| - i
  {
    if i == |s| then None
    else if P(s[i]) then Some(i)
    else FirstFrom(s, P, i + 1)
  }

  /** There is none exactly when no element from `i` on satisfies `P`, and
      every element before the one found fails `P`. */
  lemma {:induction false} FirstFromSpec<T>(s: seq<T>, P: T -> bool, i: nat)
    requires i <= |s|
    ensures FirstFrom(s, P, i).None? <==> forall j :: i <= j < |s| ==> !P(s[j])
    ensures FirstFrom(s, P, i).Some? ==> forall j :: i <= j < FirstFrom(s, P, i).value ==> !P(s[j])
    decreases |s| - i
  {
    if i < |s| && !P(s[i]) {
      FirstFromSpec(s, P, i + 1);
    }
  }

  /** Searching a prefix of `s` finds what searching `s` finds, when the
      prefix holds a match; otherwise the search of `s` goes on past it. */
  lemma {:induction false} FirstFromPrefix<T>(s: seq<T>, n: nat, P: T -> bool, i: nat)
    requires i <= n <= |s|
    ensures FirstFrom(s[..n], P, i).Some? ==> FirstFrom(s, P, i) == FirstFrom(s[..n], P, i)
    ensures FirstFrom(s[..n], P, i).None? ==> FirstFrom(s, P, i) == FirstFrom(s, P, n)
    decreases n - i
  {
    if i < n {
      assert s[..n][i] == s[i];
      FirstFromPrefix(s, n, P, i + 1);
    }
  }

  /** The test "has key `k`". */
  function HasKey<T>(key: T -> string, k: string): T -> bool {
    (x: T) => key(x) == k
  }

  /** The distinct keys come in the order of their first occurrence: of two
      listed keys, the earlier one first occurs earlier in `s`. */
  lemma {:induction false} DistinctKeysOrder<T>(s: seq<T>, key: T -> string, i: nat, j: nat)
    requires i < j < |DistinctKeys(s, key)|
    ensures var ks := DistinctKeys(s, key);
      var a := FirstFrom(s, HasKey(key, ks[i]), 0);
      var b := FirstFrom(s, HasKey(key, ks[j]), 0);
      a.Some? && b.Some? && a.value < b.value
  {
    var n := |s|;
    var p := s[..n - 1];
    var ps := DistinctKeys(p, key);
    var ks := DistinctKeys(s, key);
    var Pi := HasKey(key, ks[i]);
    var Pj := HasKey(key, ks[j]);
    assert p == s[..n - 1];
    if j < |ps| {
      DistinctKeysOrder(p, key, i, j);
      FirstFromPrefix(s, n - 1, Pi, 0);
      FirstFromPrefix(s, n - 1, Pj, 0);
    } else {
      assert key(s[n - 1]) !in ps && ks == ps + [key(s[n - 1])];
      NewLastKey(s, key, ps[i]);
    }
  }

  /** When the last element brings a new key, that key first occurs last,
      and every key that occurs earlier first occurs before it. */
  lemma NewLastKey<T>(s: seq<T>, key: T -> string, k: string)
    requires s != [] && k in DistinctKeys(s[..|s| - 1], key)
    requires key(s[|s| - 1]) !in DistinctKeys(s[..|s| - 1], key)
    ensures var a := FirstFrom(s, HasKey(key, k), 0);
      a.Some? && a.value < |s| - 1 && FirstFrom(s, HasKey(key, key(s[|s| - 1])), 0) == Some(|s| - 1)
  {
    var n := |s|;
    var p := s[..n - 1];
    var Pi := HasKey(key, k);
    var Pj := HasKey(key, key(s[n - 1]));
    KeyFound(p, key, k);
    KeyNotFound(p, key, key(s[n - 1]));
    FirstFromPrefix(s, n - 1, Pi, 0);
    FirstFromPrefix(s, n - 1, Pj, 0);
    assert FirstFrom(s, Pj, n - 1) == Some(n - 1);
  }

  /** A listed key is found by the search. */
  lemma KeyFound<T>(s: seq<T>, key: T -> string, k: string)
    requires k in DistinctKeys(s, key)
    ensures FirstFrom(s, HasKey(key, k), 0).Some?
  {
    DistinctKeysSpec(s, key);
    var t :| 0 <= t < |s| && key(s[t]) == k;
    assert HasKey(key, k)(s[t]);
    FirstFromSpec(s, HasKey(key, k), 0);
  }

  /** A key that is not listed is not found by the search. */
  lemma KeyNotFound<T>(s: seq<T>, key: T -> string, k: string)
    requires k !in DistinctKeys(s, key)
    ensures FirstFrom(s, HasKey(key, k), 0).None?
  {
    DistinctKeysSpec(s, key);
    forall u | 0 <= u < |s|
      ensures !HasKey(key, k)(s[u])
    {
      assert key(s[u]) in DistinctKeys(s, key);
    }
    FirstFromSpec(s, HasKey(key, k), 0);
  }

  /** The elements of `s` satisfying `P`, in their order. */
  function Filter<T>(s: seq<T>, P: T -> bool): (r: seq<T>)
    ensures |r| <= |s|
  {
    if s == [] then [] else Filter(s[..|s| - 1], P) + (if P(s[|s| - 1]) then [s[|s| - 1]] else [])
  }

  /** An element is kept by the filter exactly when it occurs and satisfies
      `P`. */
  lemma {:induction false} FilterMembers<T>(s: seq<T>, P: T -> bool, x: T)
    ensures x in Filter(s, P) <==> x in s && P(x)
  {
    if s != [] {
      var p := s[..|s| - 1];
      FilterMembers(p, P, x);
      assert s == p + [s[|s| - 1]];
    }
  }

  /** A filter every element satisfies keeps everything. */
  lemma {:induction false} FilterAll<T>(s: seq<T>, P: T -> bool)
    requires forall i :: 0 <= i < |s| ==> P(s[i])
    ensures Filter(s, P) == s
  {
    if s != [] {
      var p := s[..|s| - 1];
      FilterAll(p, P);
      assert s == p + [s[|s| - 1]];
    }
  }

  // ---- one more element at the end ----

  lemma FilterSnoc<T>(s: seq<T>, x: T, P: T -> bool)
    ensures Filter(s + [x], P) == Filter(s, P) + (if P(x) then [x] else [])
  {
    assert (s + [x])[..|s|] == s;
  }

  lemma DistinctKeysSnoc<T>(s: seq<T>, x: T, key: T -> string)
    ensures DistinctKeys(s + [x], key)
         == if key(x) in DistinctKeys(s, key) then DistinctKeys(s, key) else DistinctKeys(s, key) + [key(x)]
  {
    assert (s + [x])[..|s|] == s;
  }

  lemma FilterKeySnoc<T>(s: seq<T>, x: T, key: T -> string, k: string)
    ensures FilterKey(s + [x], key, k) == FilterKey(s, key, k) + (if key(x) == k then [x] else [])
  {
    assert (s + [x])[..|s|] == s;
  }

  lemma SumKeySnoc<T>(s: seq<T>, x: T, key: T -> string, k: string, val: T -> int)
    ensures SumKey(s + [x], key, k, val) == SumKey(s, key, k, val) + (if key(x) == k then val(x) else 0)
  {
    assert (s + [x])[..|s|] == s;
  }

  lemma SumAllSnoc<T>(s: seq<T>, x: T, val: T -> int)
    ensures SumAll(s + [x], val) == SumAll(s, val) + val(x)
  {
    assert (s + [x])[..|s|] == s;
  }
}
