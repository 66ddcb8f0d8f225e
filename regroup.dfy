/**
 * Regrouping a flat list of (file id, utterance) pairs by file
 * (`data_to_files_to_utterances`), flattening it back
 * (`files_to_utterances_to_data`) and `shuffle`, which does both with
 * the list of files put in a caller-chosen order in between.
 */
module Regroup {
  import opened Dicts
  import opened Seqs
  import opened Corpus

  /** `[u for g, u in d if g == f]`: the utterances of file `f` in `d`, in order. */
  function UttsOf(d: Flat, f: FileId): (us: seq<Utterance>)
    ensures |us| <= |d|
  {
    if d == [] then []
    else UttsOf(d[..|d| - 1], f) + (if d[|d| - 1].0 == f then [d[|d| - 1].1] else [])
  }

  /** `m[f]`, or no utterances at all when `f` is not a key of `m`. */
  function UttsIn(m: Mapping, f: FileId): seq<Utterance> {
    if f in Keys(m) then Get(m, f) else []
  }

  /** The dict after `files_to_utterances[f].append(u)`, or `files_to_utterances[f] = [u]` for a new file. */
  function AddUtterance(m: Mapping, f: FileId, u: Utterance): Mapping {
    Put(m, f, UttsIn(m, f) + [u])
  }

  /**
   * What `data_to_files_to_utterances(data)` builds: one entry per file in
   * order of first occurrence, holding that file's utterances in order.
   */
  function Group(data: Flat): (r: Mapping)
    ensures DistinctKeys(r)
    ensures Keys(r) == Dedup(Keys(data))
    ensures forall t :: 0 <= t < |r| ==> r[t].1 == UttsOf(data, r[t].0) && |r[t].1| > 0
  {
    if data == [] then []
    else
      var before := data[..|data| - 1];
      assert data == before + [data[|data| - 1]];
      AddUtteranceKeeps(Group(before), before, data[|data| - 1]);
      AddUtterance(Group(before), data[|data| - 1].0, data[|data| - 1].1)
  }

  /** A file that has no pair in `d` has no utterances in it. */
  lemma {:induction false} UttsOfAbsent(d: Flat, f: FileId)
    requires forall i :: 0 <= i < |d| ==> d[i].0 != f
    ensures UttsOf(d, f) == []
  {
    if d != [] {
      UttsOfAbsent(d[..|d| - 1], f);
    }
  }

  /** One more pair keeps the dict in step with the pairs seen so far. */
  lemma AddUtteranceKeeps(m: Mapping, data: Flat, x: (FileId, Utterance))
    requires DistinctKeys(m) && Keys(m) == Dedup(Keys(data))
    requires forall t :: 0 <= t < |m| ==> m[t].1 == UttsOf(data, m[t].0) && |m[t].1| > 0
    ensures var r := AddUtterance(m, x.0, x.1);
      DistinctKeys(r) && Keys(r) == Dedup(Keys(data + [x])) &&
      forall t :: 0 <= t < |r| ==> r[t].1 == UttsOf(data + [x], r[t].0) && |r[t].1| > 0
  {
    AddUtteranceKeys(m, data, x);
    AddUtteranceValues(m, data, x);
  }

  lemma AddUtteranceKeys(m: Mapping, data: Flat, x: (FileId, Utterance))
    requires Keys(m) == Dedup(Keys(data))
    ensures Keys(AddUtterance(m, x.0, x.1)) == Dedup(Keys(data + [x]))
  {
    KeysAppend(data, [x]);
    assert Keys([x]) == [x.0];
    DedupSnoc(Keys(data), x.0);
  }

  lemma AddUtteranceValues(m: Mapping, data: Flat, x: (FileId, Utterance))
    requires DistinctKeys(m) && Keys(m) == Dedup(Keys(data))
    requires forall t :: 0 <= t < |m| ==> m[t].1 == UttsOf(data, m[t].0) && |m[t].1| > 0
    ensures var r := AddUtterance(m, x.0, x.1);
      forall t :: 0 <= t < |r| ==> r[t].1 == UttsOf(data + [x], r[t].0) && |r[t].1| > 0
  {
    var d := data + [x];
    var r := AddUtterance(m, x.0, x.1);
    assert d[..|d| - 1] == data;
    assert UttsIn(m, x.0) == UttsOf(data, x.0) by {
      if x.0 !in Keys(m) {
        forall i | 0 <= i < |data| ensures data[i].0 != x.0 {
          assert Keys(data)[i] == data[i].0;
        }
        UttsOfAbsent(data, x.0);
      } else {
        var i := IndexOf(m, x.0);
        assert m[i].1 == UttsOf(data, x.0);
      }
    }
    forall t | 0 <= t < |r| ensures r[t].1 == UttsOf(d, r[t].0) && |r[t].1| > 0 {
      if r[t].0 == x.0 {
        IndexOfUnique(r, t);
      } else {
        assert t < |m| && r[t] == m[t];
      }
    }
  }

  /** `data_to_files_to_utterances` */
  method DataToFilesToUtterances(data: Flat) returns (filesToUtterances: Mapping)
    ensures filesToUtterances == Group(data)
  {
    filesToUtterances := [];
    for i := 0 to |data|
      invariant filesToUtterances == Group(data[..i])
    {
      var f, u := data[i].0, data[i].1;
      GroupPrefix(data, i);
      AppendOrStart(filesToUtterances, f, u);
      if f in Keys(filesToUtterances) {
        filesToUtterances := Put(filesToUtterances, f, Get(filesToUtterances, f) + [u]);
      } else {
        filesToUtterances := Put(filesToUtterances, f, [u]);
      }
    }
    assert data[..|data|] == data;
  }

  lemma {:induction false} UttsOfAppend(a: Flat, b: Flat, f: FileId)
    ensures UttsOf(a + b, f) == UttsOf(a, f) + UttsOf(b, f)
  {
    if b == [] {
      assert a + b == a;
    } else {
      var b' := b[..|b| - 1];
      assert (a + b)[..|a + b| - 1] == a + b';
      UttsOfAppend(a, b', f);
    }
  }

  lemma {:induction false} UttsOfExpand(g: FileId, us: seq<Utterance>, f: FileId)
    ensures UttsOf(Expand(g, us), f) == if g == f then us else []
  {
    if us != [] {
      var us' := us[..|us| - 1];
      assert Expand(g, us)[..|us| - 1] == Expand(g, us');
      UttsOfExpand(g, us', f);
    }
  }

  /** In the flattening of a dict, file `f`'s utterances are `m[f]`. */
  lemma {:induction false} UttsOfFlatten(m: Mapping, f: FileId)
    requires DistinctKeys(m)
    ensures UttsOf(Flatten(m), f) == UttsIn(m, f)
  {
    if m != [] {
      var rest := m[1..];
      TailKeys(m);
      UttsOfFlatten(rest, f);
      UttsOfAppend(Expand(m[0].0, m[0].1), Flatten(rest), f);
      UttsOfExpand(m[0].0, m[0].1, f);
    }
  }

  /** In the regrouped dict, file `f` holds exactly its utterances in `data`, in order. */
  lemma GroupUtts(data: Flat, f: FileId)
    ensures UttsIn(Group(data), f) == UttsOf(data, f)
  {
    var g := Group(data);
    if f !in Keys(g) {
      forall i | 0 <= i < |data| ensures data[i].0 != f {
        assert Keys(data)[i] == data[i].0;
      }
      UttsOfAbsent(data, f);
    }
  }

  /** Two orders of the same dict entries agree on every file's utterances. */
  lemma UttsInPerm(a: Mapping, b: Mapping, f: FileId)
    requires DistinctKeys(a) && multiset(a) == multiset(b)
    ensures UttsIn(a, f) == UttsIn(b, f)
  {
    PermDistinctKeys(a, b);
    if f in Keys(b) {
      KeyPerm(b, a, f);
    }
    if f in Keys(a) {
      var i := IndexOf(a, f);
      assert a[i] in multiset(b);
      var j :| 0 <= j < |b| && b[j] == a[i];
      assert Keys(b)[j] == f;
      IndexOfUnique(b, j);
    }
  }

  lemma KeyPerm(a: Mapping, b: Mapping, f: FileId)
    requires multiset(a) == multiset(b) && f in Keys(a)
    ensures f in Keys(b)
  {
    var i := IndexOf(a, f);
    assert a[i] in multiset(b);
    var j :| 0 <= j < |b| && b[j] == a[i];
    assert Keys(b)[j] == f;
  }

  /** How often a pair occurs is how often its utterance occurs among its file's utterances. */
  lemma {:induction false} CountPairs(d: Flat, f: FileId, u: Utterance)
    ensures multiset(d)[(f, u)] == multiset(UttsOf(d, f))[u]
  {
    if d != [] {
      var d' := d[..|d| - 1];
      assert d == d' + [d[|d| - 1]];
      CountPairs(d', f, u);
    }
  }

  /** Two lists with the same utterances, in the same order, for every file are permutations of each other. */
  lemma SameFilesPerm(d: Flat, e: Flat)
    requires forall f :: UttsOf(d, f) == UttsOf(e, f)
    ensures multiset(d) == multiset(e)
  {
    forall p ensures multiset(d)[p] == multiset(e)[p] {
      CountPairs(d, p.0, p.1);
      CountPairs(e, p.0, p.1);
    }
  }

  lemma FlattenSnoc(m: Mapping, e: (FileId, seq<Utterance>))
    ensures Flatten(m + [e]) == Flatten(m) + Expand(e.0, e.1)
  {
    FlattenAppend(m, [e]);
    ConcatMapOne(e, ExpandEntry);
  }

  /**
   * Regrouping and flattening gives back a list whose pairs are `data`'s,
   * with files in order of first occurrence, each file's utterances in
   * their order in `data`, and each file's pairs as one run.
   */
  lemma RegroupPerm(data: Flat)
    ensures multiset(Flatten(Group(data))) == multiset(data)
    ensures Dedup(Keys(data)) == Keys(Group(data))
    ensures forall f :: UttsOf(Flatten(Group(data)), f) == UttsOf(data, f)
    ensures FileContiguous(Flatten(Group(data)))
  {
    forall f ensures UttsOf(Flatten(Group(data)), f) == UttsOf(data, f) {
      UttsOfFlatten(Group(data), f);
      GroupUtts(data, f);
    }
    SameFilesPerm(Flatten(Group(data)), data);
    FlattenContiguous(Group(data));
  }

  /** Regrouping gives `data` back unchanged exactly when every file's pairs already form one run. */
  lemma RegroupIdentity(data: Flat)
    ensures Flatten(Group(data)) == data <==> FileContiguous(data)
  {
    RegroupPerm(data);
    if FileContiguous(data) {
      GroupContiguous(data);
    }
  }

  lemma {:induction false} GroupContiguous(data: Flat)
    requires FileContiguous(data)
    ensures Flatten(Group(data)) == data
  {
    if data != [] {
      var d', x := data[..|data| - 1], data[|data| - 1];
      SplitLast(data);
      ContiguousInit(data);
      GroupContiguous(d');
      var m := Group(d');
      GroupSnoc(d', x);
      if x.0 in Keys(m) {
        GroupKeysOccur(d', x.0);
        ContiguousLast(d', x);
        LastFile(m);
        FlattenAddLast(m, x);
      } else {
        FlattenAddNew(m, x);
      }
    }
  }

  /** Dropping the last pair keeps the files in runs. */
  lemma ContiguousInit(data: Flat)
    requires data != [] && FileContiguous(data)
    ensures FileContiguous(data[..|data| - 1])
  {
    var d' := data[..|data| - 1];
    forall i, j, k | 0 <= i < j < k < |d'| && d'[i].0 == d'[k].0 ensures d'[j].0 == d'[i].0 {
      assert d'[i] == data[i] && d'[j] == data[j] && d'[k] == data[k];
    }
  }

  /** Every file of the regrouped dict has a pair in the data. */
  lemma GroupKeysOccur(data: Flat, f: FileId)
    requires f in Keys(Group(data))
    ensures f in Keys(data)
  {
    var i :| 0 <= i < |Keys(Group(data))| && Keys(Group(data))[i] == f;
    assert Dedup(Keys(data))[i] in Keys(data);
  }

  /** Both branches of the loop body add the utterance to its file. */
  lemma AppendOrStart(m: Mapping, f: FileId, u: Utterance)
    ensures f in Keys(m) ==> Put(m, f, Get(m, f) + [u]) == AddUtterance(m, f, u)
    ensures f !in Keys(m) ==> Put(m, f, [u]) == AddUtterance(m, f, u)
  {
    assert f !in Keys(m) ==> UttsIn(m, f) + [u] == [u];
  }

  lemma GroupPrefix(data: Flat, i: nat)
    requires i < |data|
    ensures Group(data[..i + 1]) == AddUtterance(Group(data[..i]), data[i].0, data[i].1)
  {
    assert data[..i + 1] == data[..i] + [data[i]];
    GroupSnoc(data[..i], data[i]);
  }

  lemma GroupSnoc(d: Flat, x: (FileId, Utterance))
    ensures Group(d + [x]) == AddUtterance(Group(d), x.0, x.1)
  {
    assert (d + [x])[..|d|] == d;
  }

  /** In a list whose files form runs, a pair whose file already occurred continues the last run. */
  lemma ContiguousLast(d: Flat, x: (FileId, Utterance))
    requires FileContiguous(d + [x]) && x.0 in Keys(d)
    ensures d != [] && d[|d| - 1].0 == x.0
  {
    var data := d + [x];
    var i :| 0 <= i < |d| && Keys(d)[i] == x.0;
    assert data[i].0 == data[|data| - 1].0;
    if i < |d| - 1 {
      assert data[|d| - 1].0 == data[i].0;
    }
  }

  /** The last pair of a flattened dict whose files all have utterances comes from its last file. */
  lemma LastFile(m: Mapping)
    requires Flatten(m) != [] && forall t :: 0 <= t < |m| ==> |m[t].1| > 0
    ensures m != [] && Flatten(m)[|Flatten(m)| - 1].0 == m[|m| - 1].0
  {
    var n := |m|;
    assert m == m[..n - 1] + [m[n - 1]];
    FlattenSnoc(m[..n - 1], m[n - 1]);
  }

  lemma FlattenAddNew(m: Mapping, x: (FileId, Utterance))
    requires x.0 !in Keys(m)
    ensures Flatten(AddUtterance(m, x.0, x.1)) == Flatten(m) + [x]
  {
    assert UttsIn(m, x.0) + [x.1] == [x.1];
    assert Put(m, x.0, [x.1]) == m + [(x.0, [x.1])];
    FlattenSnoc(m, (x.0, [x.1]));
    assert Expand(x.0, [x.1]) == [x];
  }

  lemma FlattenAddLast(m: Mapping, x: (FileId, Utterance))
    requires DistinctKeys(m) && m != [] && m[|m| - 1].0 == x.0
    ensures Flatten(AddUtterance(m, x.0, x.1)) == Flatten(m) + [x]
  {
    var n := |m|;
    var front, last := m[..n - 1], m[n - 1];
    var e := (last.0, last.1 + [x.1]);
    AddToLast(m, x);
    FlattenSnoc(front, e);
    ExpandSnoc(last.0, last.1, x.1);
    SplitLast(m);
    FlattenSnoc(front, last);
    assert Flatten(front) + (Expand(last.0, last.1) + [x]) == (Flatten(front) + Expand(last.0, last.1)) + [x];
  }

  /** Adding an utterance of the last file extends the last entry. */
  lemma AddToLast(m: Mapping, x: (FileId, Utterance))
    requires DistinctKeys(m) && m != [] && m[|m| - 1].0 == x.0
    ensures AddUtterance(m, x.0, x.1) == m[..|m| - 1] + [(x.0, m[|m| - 1].1 + [x.1])]
  {
    IndexOfUnique(m, |m| - 1);
    UpdateLast(m, (x.0, m[|m| - 1].1 + [x.1]));
  }

  lemma ExpandSnoc(f: FileId, us: seq<Utterance>, u: Utterance)
    ensures Expand(f, us + [u]) == Expand(f, us) + [(f, u)]
  {
  }

  /** `files_to_utterances_to_data` pairs each utterance with its file and loses none: the inverse of regrouping on lists whose files form runs. */
  lemma FilesToUtterancesToData(m: Mapping)
    requires DistinctKeys(m)
    ensures |Flatten(m)| == TotalUtterances(m)
    ensures forall f :: UttsOf(Flatten(m), f) == UttsIn(m, f)
    ensures Flatten(Group(Flatten(m))) == Flatten(m)
  {
    FlattenSize(m);
    forall f ensures UttsOf(Flatten(m), f) == UttsIn(m, f) {
      UttsOfFlatten(m, f);
    }
    FlattenContiguous(m);
    GroupContiguous(Flatten(m));
  }

  /** `random.shuffle` on a list of `n` files: `arrange(n)` lists the old positions in their new order. */
  ghost predicate IsArrangement(arrange: nat -> seq<nat>) {
    forall n: nat :: multiset(arrange(n)) == multiset(Range(0, n))
  }

  /** A stand-in for `random.shuffle`: one arrangement of the positions for every list length. */
  type Arrangement = arrange: nat -> seq<nat> | IsArrangement(arrange) witness (n: nat) => Range(0, n)

  /** The order the files are listed in: shuffled, or as they are. */
  function Arranged(n: nat, shuffling: bool, arrange: nat -> seq<nat>): seq<nat> {
    if shuffling then arrange(n) else Range(0, n)
  }

  /**
   * `shuffle(data, shuffling)`: files are regrouped, their list is
   * rearranged when shuffling, and the pairs are flattened again.
   */
  function Shuffled(data: Flat, shuffling: bool, arrange: nat -> seq<nat>): Flat {
    Flatten(Pick(Group(data), Arranged(|Group(data)|, shuffling, arrange)))
  }

  /**
   * Whatever the arrangement, a shuffled list is a permutation of `data` in
   * which each file's pairs form one run and keep their order; without
   * shuffling it is the plain regrouping.
   */
  lemma ShuffledFacts(data: Flat, shuffling: bool, arrange: Arrangement)
    ensures var r := Shuffled(data, shuffling, arrange);
      && multiset(r) == multiset(data)
      && (forall f :: UttsOf(r, f) == UttsOf(data, f))
      && FileContiguous(r)
      && (!shuffling ==> r == Flatten(Group(data)))
  {
    var g := Group(data);
    var order := Arranged(|g|, shuffling, arrange);
    ArrangedFiles(data, order);
    if !shuffling {
      PickInRange(g, order);
      assert Pick(g, order) == g;
    }
  }

  /** The method form of `shuffle`, one step at a time; `ShuffledFacts` says what its result is. */
  method Shuffle(data: Flat, shuffling: bool, arrange: Arrangement) returns (r: Flat)
    ensures r == Shuffled(data, shuffling, arrange)
  {
    var filesToUtterances := DataToFilesToUtterances(data);
    var order := if shuffling then arrange(|filesToUtterances|) else Range(0, |filesToUtterances|);
    var filesToUtterancesList := Pick(filesToUtterances, order);
    r := Flatten(filesToUtterancesList);
  }

  /** Listing the regrouped files in any order keeps every file's utterances and keeps each file in one run. */
  lemma ArrangedFiles(data: Flat, order: seq<nat>)
    requires multiset(order) == multiset(Range(0, |Group(data)|))
    ensures var r := Flatten(Pick(Group(data), order));
      multiset(r) == multiset(data) && FileContiguous(r) &&
      forall f :: UttsOf(r, f) == UttsOf(data, f)
  {
    var g := Group(data);
    var list := Pick(g, order);
    PickAll(g, order);
    PermDistinctKeys(g, list);
    FlattenContiguous(list);
    forall f ensures UttsOf(Flatten(list), f) == UttsOf(data, f) {
      UttsOfFlatten(list, f);
      UttsInPerm(g, list, f);
      GroupUtts(data, f);
    }
    SameFilesPerm(Flatten(list), data);
  }
}
