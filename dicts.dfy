/**
 * Python's `dict` keeps its keys in insertion order, and that order drives
 * every step of the corpus pipeline. A dict is modelled here as a sequence of
 * (key, value) entries whose keys are distinct.
 */
module Dicts {
  import opened Seqs

  /** The keys of `d`, in insertion order (`list(d)` / `d.keys()`). */
  function Keys<K, V>(d: seq<(K, V)>): (ks: seq<K>)
    ensures |ks| == |d|
    ensures forall i :: 0 <= i < |d| ==> ks[i] == d[i].0
  {
    if d == [] then [] else [d[0].0] + Keys(d[1..])
  }

  /** No two entries share a key: the invariant of every dict value. */
  predicate DistinctKeys<K(==), V>(d: seq<(K, V)>) {
    forall i, j :: 0 <= i < j < |d| ==> d[i].0 != d[j].0
  }

  /** Position of key `k` in `d` (the first one, the only one when keys are distinct). */
  function IndexOf<K(==), V>(d: seq<(K, V)>, k: K): (i: nat)
    requires k in Keys(d)
    ensures i < |d| && d[i].0 == k
    ensures forall j :: 0 <= j < i ==> d[j].0 != k
  {
    if d[0].0 == k then 0 else IndexOf(d[1..], k) + 1
  }

  lemma IndexOfUnique<K, V>(d: seq<(K, V)>, i: nat)
    requires DistinctKeys(d) && i < |d|
    ensures d[i].0 in Keys(d) && IndexOf(d, d[i].0) == i
  {
    assert Keys(d)[i] == d[i].0;
  }

  /** `d[k]` for a key that is present. */
  function Get<K(==), V>(d: seq<(K, V)>, k: K): V
    requires k in Keys(d)
  {
    d[IndexOf(d, k)].1
  }

  /**
   * `d[k] = v`: an existing key keeps its place and gets the new value;
   * a new key is appended at the end.
   */
  function Put<K(==), V>(d: seq<(K, V)>, k: K, v: V): (r: seq<(K, V)>)
    ensures k in Keys(d) ==> Keys(r) == Keys(d)
    ensures k !in Keys(d) ==> Keys(r) == Keys(d) + [k]
    ensures DistinctKeys(d) ==> DistinctKeys(r)
    ensures k in Keys(r) && Get(r, k) == v
    ensures forall j :: 0 <= j < |d| && d[j].0 != k ==> r[j] == d[j]
  {
    if k in Keys(d) then d[IndexOf(d, k) := (k, v)] else d + [(k, v)]
  }

  /** `d.pop(k)` without the returned value: the entry for `k` goes, the rest keep their order. */
  function Remove<K(==), V>(d: seq<(K, V)>, k: K): (r: seq<(K, V)>)
    requires k in Keys(d)
    ensures |r| == |d| - 1
    ensures multiset(r) + multiset{d[IndexOf(d, k)]} == multiset(d)
  {
    var i := IndexOf(d, k);
    SplitAt(d, i);
    d[..i] + d[i+1..]
  }

  /**
   * The distinct elements of `s` in order of first occurrence: the key order
   * a dict gets when it is filled by walking `s`.
   */
  function Dedup<T(==)>(s: seq<T>): (r: seq<T>)
    ensures Distinct(r)
    ensures forall i :: 0 <= i < |s| ==> s[i] in r
    ensures forall i :: 0 <= i < |r| ==> r[i] in s
    ensures |r| <= |s|
  {
    if s == [] then []
    else
      var d := Dedup(s[..|s|-1]);
      assert s == s[..|s|-1] + [s[|s|-1]];
      if s[|s|-1] in d then d else d + [s[|s|-1]]
  }

  /** The key of every entry is among the keys. */
  lemma KeyAt<K, V>(d: seq<(K, V)>, i: nat)
    requires i < |d|
    ensures d[i].0 in Keys(d)
  {
    assert Keys(d)[i] == d[i].0;
  }

  /** The entries after the first of a dict: a dict without the first key. */
  lemma TailKeys<K, V>(m: seq<(K, V)>)
    requires m != [] && DistinctKeys(m)
    ensures DistinctKeys(m[1..])
    ensures Keys(m) == [m[0].0] + Keys(m[1..])
    ensures m[0].0 !in Keys(m[1..])
  {
    var rest := m[1..];
    forall i, j | 0 <= i < j < |rest| ensures rest[i].0 != rest[j].0 {
      assert rest[i] == m[i + 1] && rest[j] == m[j + 1];
    }
    forall t | 0 <= t < |rest| ensures Keys(rest)[t] != m[0].0 {
      assert rest[t] == m[t + 1];
    }
  }

  /** One more element is appended to the distinct ones exactly when it is new. */
  lemma DedupSnoc<T>(s: seq<T>, y: T)
    ensures Dedup(s + [y]) == if y in Dedup(s) then Dedup(s) else Dedup(s) + [y]
  {
    assert (s + [y])[..|s|] == s;
  }

  function KeyOf<K, V>(e: (K, V)): seq<K> { [e.0] }

  lemma {:induction false} KeysIsConcatMap<K, V>(d: seq<(K, V)>)
    ensures Keys(d) == ConcatMap(d, KeyOf)
  {
    if d != [] {
      KeysIsConcatMap(d[1..]);
    }
  }

  lemma DistinctKeysAsKeys<K, V>(d: seq<(K, V)>)
    ensures DistinctKeys(d) <==> Distinct(Keys(d))
  {
  }

  /** Reordering the entries of a dict keeps its keys distinct. */
  lemma PermDistinctKeys<K, V>(a: seq<(K, V)>, b: seq<(K, V)>)
    requires multiset(a) == multiset(b)
    requires DistinctKeys(a)
    ensures DistinctKeys(b)
  {
    KeysIsConcatMap(a);
    KeysIsConcatMap(b);
    ConcatMapPerm(a, b, KeyOf);
    DistinctKeysAsKeys(a);
    DistinctKeysAsKeys(b);
    DistinctCounts(Keys(a));
    DistinctCounts(Keys(b));
  }

  /** Two dicts listed one after the other with distinct keys each have distinct keys, and share none. */
  lemma DistinctKeysSplit<K, V>(a: seq<(K, V)>, b: seq<(K, V)>)
    requires DistinctKeys(a + b)
    ensures DistinctKeys(a) && DistinctKeys(b)
    ensures forall i, j :: 0 <= i < |a| && 0 <= j < |b| ==> a[i].0 != b[j].0
  {
    forall i, j | 0 <= i < j < |a| ensures a[i].0 != a[j].0 {
      assert (a + b)[i] == a[i] && (a + b)[j] == a[j];
    }
    forall i, j | 0 <= i < j < |b| ensures b[i].0 != b[j].0 {
      assert (a + b)[|a| + i] == b[i] && (a + b)[|a| + j] == b[j];
    }
    forall i, j | 0 <= i < |a| && 0 <= j < |b| ensures a[i].0 != b[j].0 {
      assert (a + b)[i] == a[i] && (a + b)[|a| + j] == b[j];
    }
  }

  /** No key of the second dict is a key of the first when the two together have distinct keys. */
  lemma KeysApart<K, V>(a: seq<(K, V)>, b: seq<(K, V)>)
    requires DistinctKeys(a + b)
    ensures forall i :: 0 <= i < |b| ==> b[i].0 !in Keys(a)
  {
    forall i | 0 <= i < |b| ensures b[i].0 !in Keys(a) {
      forall j | 0 <= j < |a| ensures Keys(a)[j] != b[i].0 {
        assert (a + b)[j] == a[j] && (a + b)[|a| + i] == b[i];
      }
    }
  }

  lemma KeysAppend<K, V>(a: seq<(K, V)>, b: seq<(K, V)>)
    ensures Keys(a + b) == Keys(a) + Keys(b)
  {
  }

  lemma IndexOfAppend<K, V>(a: seq<(K, V)>, b: seq<(K, V)>, k: K)
    requires k !in Keys(a) && k in Keys(b)
    ensures k in Keys(a + b) && IndexOf(a + b, k) == |a| + IndexOf(b, k)
  {
    KeysAppend(a, b);
    var i, t := IndexOf(a + b, k), IndexOf(b, k);
    forall j | 0 <= j < |a| ensures (a + b)[j].0 != k {
      assert Keys(a)[j] == a[j].0;
    }
    assert (a + b)[|a| + t] == b[t];
    forall j | |a| <= j < |a| + t ensures (a + b)[j].0 != k {
      assert (a + b)[j] == b[j - |a|];
    }
  }

  /** Looking up and then popping the entry `x` that sits between `a` and `b`. */
  lemma GetRemoveAt<K, V>(a: seq<(K, V)>, x: (K, V), b: seq<(K, V)>)
    requires x.0 !in Keys(a)
    ensures x.0 in Keys(a + [x] + b)
    ensures IndexOf(a + [x] + b, x.0) == |a|
    ensures Get(a + [x] + b, x.0) == x.1
    ensures Remove(a + [x] + b, x.0) == a + b
  {
    assert a + [x] + b == a + ([x] + b);
    assert Keys([x] + b)[0] == x.0;
    IndexOfAppend(a, [x] + b, x.0);
    var d := a + [x] + b;
    assert d[..|a|] == a;
    assert d[|a| + 1..] == b;
  }

  /**
   * `{**a, **b}`: the entries of `a`, then those of `b` in order; a key of
   * `b` that `a` already has keeps its place and takes `b`'s value.
   */
  function Merge<K(==), V>(a: seq<(K, V)>, b: seq<(K, V)>): (r: seq<(K, V)>)
    ensures DistinctKeys(a) ==> DistinctKeys(r)
    decreases |b|
  {
    if b == [] then a else Merge(Put(a, b[0].0, b[0].1), b[1..])
  }

  /** Merging dicts with no key in common lists the second after the first. */
  lemma {:induction false} MergeDisjoint<K, V>(a: seq<(K, V)>, b: seq<(K, V)>)
    requires DistinctKeys(b)
    requires forall i :: 0 <= i < |b| ==> b[i].0 !in Keys(a)
    ensures Merge(a, b) == a + b
    decreases |b|
  {
    if b != [] {
      var rest := b[1..];
      MergeStep(a, b);
      MergeDisjoint(a + [b[0]], rest);
      HeadTail(a, b);
    }
  }

  lemma MergeStep<K, V>(a: seq<(K, V)>, b: seq<(K, V)>)
    requires b != [] && DistinctKeys(b)
    requires forall i :: 0 <= i < |b| ==> b[i].0 !in Keys(a)
    ensures Merge(a, b) == Merge(a + [b[0]], b[1..])
    ensures DistinctKeys(b[1..])
    ensures forall i :: 0 <= i < |b[1..]| ==> b[1..][i].0 !in Keys(a + [b[0]])
  {
    var rest := b[1..];
    PutNew(a, b[0].0, b[0].1);
    KeysAppend(a, [b[0]]);
    forall i | 0 <= i < |rest| ensures rest[i].0 !in Keys(a + [b[0]]) {
      assert rest[i] == b[i + 1];
    }
    forall i, j | 0 <= i < j < |rest| ensures rest[i].0 != rest[j].0 {
      assert rest[i] == b[i + 1] && rest[j] == b[j + 1];
    }
  }

  lemma HeadTail<T>(a: seq<T>, b: seq<T>)
    requires b != []
    ensures a + [b[0]] + b[1..] == a + b
  {
  }

  lemma PutNew<K, V>(a: seq<(K, V)>, k: K, v: V)
    requires k !in Keys(a)
    ensures Put(a, k, v) == a + [(k, v)]
  {
  }
}
