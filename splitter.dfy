/**
 * `split` and `sort_dict_by_value_length`: the files, longest first, are
 * dealt out in batches of `sum(ratio)` files; inside a batch each split in
 * turn takes the next `ratio` positions of the batch's index list.
 */
module Splitter {
  import opened Dicts
  import opened Seqs
  import opened Sorting
  import opened Corpus
  import opened PyLists

  /** The split names with their weights, in the order the ratio dict declares them. */
  type Ratio = seq<(string, int)>

  /** The default `split_ratio`: valid first, then test, then train. */
  const DefaultRatio: Ratio := [("valid", 5), ("test", 5), ("train", 90)]

  /** The sort key of `sort_dict_by_value_length`; `reverse=True` is a stable sort on the negated key. */
  function NegLength(e: (FileId, seq<Utterance>)): int {
    -|e.1|
  }

  /** `sort_dict_by_value_length`: a stable sort, the files with most utterances first. */
  function SortDictByValueLength(m: Mapping): (r: Mapping)
    ensures |r| == |m|
    ensures multiset(r) == multiset(m)
    ensures forall i, j :: 0 <= i < j < |r| ==> |r[i].1| >= |r[j].1|
    ensures DistinctKeys(m) ==> DistinctKeys(r)
  {
    var r := SortBy(m, NegLength);
    assert forall i, j :: 0 <= i < j < |r| ==> NegLength(r[i]) <= NegLength(r[j]);
    assert DistinctKeys(m) ==> DistinctKeys(r) by {
      if DistinctKeys(m) {
        PermDistinctKeys(m, r);
      }
    }
    r
  }

  /** Files with equally many utterances keep their dict order. */
  lemma SortDictByValueLengthStable(m: Mapping, c: int)
    ensures WithKey(SortDictByValueLength(m), NegLength, c) == WithKey(m, NegLength, c)
  {
    SortByStable(m, NegLength, c);
  }

  /** `sum(split_ratio.values())` */
  function Total(ratio: Ratio): int {
    if ratio == [] then 0 else Total(ratio[..|ratio| - 1]) + ratio[|ratio| - 1].1
  }

  /** `count_` when the loop over the splits reaches split `j`: the weights of the splits before it. */
  function Pre(ratio: Ratio, j: nat): int
    requires j <= |ratio|
  {
    Total(ratio[..j])
  }

  lemma PreStep(ratio: Ratio, j: nat)
    requires j < |ratio|
    ensures Pre(ratio, j + 1) == Pre(ratio, j) + ratio[j].1
  {
    assert ratio[..j + 1][..j] == ratio[..j];
  }

  predicate NonNegative(ratio: Ratio) {
    forall j :: 0 <= j < |ratio| ==> ratio[j].1 >= 0
  }

  lemma {:induction false} TotalNonNegative(ratio: Ratio)
    requires NonNegative(ratio)
    ensures Total(ratio) >= 0
  {
    if ratio != [] {
      TotalNonNegative(ratio[..|ratio| - 1]);
    }
  }

  /** With non-negative weights the running sums grow from 0 to the total. */
  lemma {:induction false} PreBounds(ratio: Ratio, j: nat)
    requires NonNegative(ratio) && j <= |ratio|
    ensures 0 <= Pre(ratio, j) <= Total(ratio)
    decreases |ratio| - j
  {
    TotalNonNegative(ratio[..j]);
    if j == |ratio| {
      assert ratio[..j] == ratio;
    } else {
      PreBounds(ratio, j + 1);
      PreStep(ratio, j);
    }
  }

  /** `min(batch_size, len(utterances) - count)` */
  function BatchSize(size: int, n: nat, count: nat): int {
    if size < n - count then size else n - count
  }

  /** Where the batch after the one starting at `count` starts: `count + batch_size_`. */
  function NextBatch(n: nat, ratio: Ratio, count: nat): int {
    count + BatchSize(Total(ratio), n, count)
  }

  /**
   * What `random.shuffle` is replaced by: `shuffle(count, next)` is the
   * arrangement of the index list of the batch `count .. next-1`, and it
   * must hold exactly those positions.
   */
  ghost predicate IsShuffler(shuffle: (nat, nat) -> seq<nat>) {
    forall lo, hi :: multiset(shuffle(lo, hi)) == multiset(Range(lo, hi))
  }

  /** The index list of the batch `count .. next-1`: `list(range(count, next))`, shuffled when `shuffling`. */
  function BatchOrder(count: nat, next: nat, shuffling: bool, shuffle: (nat, nat) -> seq<nat>): seq<nat> {
    if shuffling then shuffle(count, next) else Range(count, next)
  }

  /**
   * The ratios `split` accepts: non-negative weights, and a positive batch
   * size unless there is nothing to deal (otherwise the `while` loop never
   * ends), and a shuffle that only rearranges.
   */
  ghost predicate Dealable(n: nat, ratio: Ratio, shuffling: bool, shuffle: (nat, nat) -> seq<nat>) {
    && NonNegative(ratio)
    && (Total(ratio) > 0 || n == 0)
    && (shuffling ==> IsShuffler(shuffle))
  }

  /** A batch's index list holds exactly the positions of that batch. */
  lemma BatchOrderRange(count: nat, next: nat, shuffling: bool, shuffle: (nat, nat) -> seq<nat>)
    requires shuffling ==> IsShuffler(shuffle)
    ensures multiset(BatchOrder(count, next, shuffling, shuffle)) == multiset(Range(count, next))
  {
  }

  /** Every position in `s` lies in `lo .. hi-1`. */
  predicate Within(s: seq<nat>, lo: nat, hi: nat) {
    forall t :: 0 <= t < |s| ==> lo <= s[t] < hi
  }

  /** A slice of a batch's index list holds positions of that batch only. */
  lemma SliceInBatch(order: seq<nat>, count: nat, next: nat, lo: int, hi: int)
    requires multiset(order) == multiset(Range(count, next))
    requires 0 <= lo <= hi
    ensures Within(Slice(order, lo, hi), count, next)
  {
    var mine := Slice(order, lo, hi);
    SliceSub(order, lo, hi);
    forall t | 0 <= t < |mine| ensures count <= mine[t] < next {
      assert mine[t] in multiset(Range(count, next));
    }
  }

  /**
   * The positions (in the sorted file list) that split `j` takes from the
   * batch starting at `count` and from every later batch: in each batch,
   * `indices[count_:count_+ratio]`.
   */
  function DealIdx(n: nat, ratio: Ratio, shuffling: bool, shuffle: (nat, nat) -> seq<nat>, count: nat, j: nat): (r: seq<nat>)
    requires j < |ratio| && Dealable(n, ratio, shuffling, shuffle)
    ensures Within(r, count, n)
    decreases n - count
  {
    if count >= n then []
    else
      var next := NextBatch(n, ratio, count);
      var order := BatchOrder(count, next, shuffling, shuffle);
      BatchOrderRange(count, next, shuffling, shuffle);
      PreBounds(ratio, j);
      SliceInBatch(order, count, next, Pre(ratio, j), Pre(ratio, j) + ratio[j].1);
      var mine := Slice(order, Pre(ratio, j), Pre(ratio, j) + ratio[j].1);
      var later := DealIdx(n, ratio, shuffling, shuffle, next, j);
      assert Within(mine + later, count, n) by {
        assert next <= n;
        forall t | 0 <= t < |mine + later| ensures count <= (mine + later)[t] < n {
          if t >= |mine| {
            assert (mine + later)[t] == later[t - |mine|];
          }
        }
      }
      mine + later
  }

  /** `dataset_dict[split]` for the `j`-th split of `ratio`: the pairs of the files it is dealt, in dealing order. */
  function Part(m: Mapping, ratio: Ratio, shuffling: bool, shuffle: (nat, nat) -> seq<nat>, j: nat): Flat
    requires j < |ratio| && Dealable(|m|, ratio, shuffling, shuffle)
  {
    Flatten(Pick(SortDictByValueLength(m), DealIdx(|m|, ratio, shuffling, shuffle, 0, j)))
  }

  /** The pairs of the files at positions `idx`, in that order. */
  lemma FlattenPickAppend(m: Mapping, a: seq<nat>, b: seq<nat>)
    ensures Flatten(Pick(m, a + b)) == Flatten(Pick(m, a)) + Flatten(Pick(m, b))
  {
    PickAppend(m, a, b);
    FlattenAppend(Pick(m, a), Pick(m, b));
  }

  /** Extending the dealt positions by one file extends the pairs by that file's pairs. */
  lemma FlattenPickSnoc(m: Mapping, idx: seq<nat>, t: nat)
    requires t < |idx| && idx[t] < |m|
    ensures Flatten(Pick(m, idx[..t + 1])) == Flatten(Pick(m, idx[..t])) + Expand(m[idx[t]].0, m[idx[t]].1)
  {
    var x := m[idx[t]];
    assert Pick(m, idx[..t + 1]) == Pick(m, idx[..t]) + [x] by {
      assert idx[..t + 1] == idx[..t] + [idx[t]];
      PickAppend(m, idx[..t], [idx[t]]);
      ConcatMapOne(idx[t], Picker(m));
    }
    assert Flatten([x]) == Expand(x.0, x.1) by {
      ConcatMapOne(x, ExpandEntry);
    }
    FlattenAppend(Pick(m, idx[..t]), [x]);
  }

  /** What one batch deals to split `j`, followed by what the later batches deal to it. */
  lemma DealUnfold(n: nat, ratio: Ratio, shuffling: bool, shuffle: (nat, nat) -> seq<nat>, count: nat, j: nat)
    requires j < |ratio| && Dealable(n, ratio, shuffling, shuffle) && count < n
    ensures NextBatch(n, ratio, count) > count
    ensures DealIdx(n, ratio, shuffling, shuffle, count, j)
      == Slice(BatchOrder(count, NextBatch(n, ratio, count), shuffling, shuffle), Pre(ratio, j), Pre(ratio, j) + ratio[j].1)
         + DealIdx(n, ratio, shuffling, shuffle, NextBatch(n, ratio, count), j)
  {
  }

  /** The same, for the pairs of the files at those positions. */
  lemma DealFiles(sorted: Mapping, ratio: Ratio, shuffling: bool, shuffle: (nat, nat) -> seq<nat>, count: nat, next: nat, j: nat)
    requires j < |ratio| && Dealable(|sorted|, ratio, shuffling, shuffle) && count < |sorted|
    requires next == NextBatch(|sorted|, ratio, count)
    ensures Flatten(Pick(sorted, DealIdx(|sorted|, ratio, shuffling, shuffle, count, j)))
      == Share(sorted, BatchOrder(count, next, shuffling, shuffle), ratio, j)
         + Flatten(Pick(sorted, DealIdx(|sorted|, ratio, shuffling, shuffle, next, j)))
  {
    DealUnfold(|sorted|, ratio, shuffling, shuffle, count, j);
    FlattenPickAppend(sorted, Slice(BatchOrder(count, next, shuffling, shuffle), Pre(ratio, j), Pre(ratio, j) + ratio[j].1),
      DealIdx(|sorted|, ratio, shuffling, shuffle, next, j));
  }

  /**
   * One batch keeps the loop invariant of `split` for split `j`: what was
   * dealt before the batch, what the batch deals, then what the later
   * batches deal, is the whole part.
   */
  lemma DealtSoFar(sorted: Mapping, ratio: Ratio, shuffling: bool, shuffle: (nat, nat) -> seq<nat>, count: nat, next: nat, j: nat,
                   before: Flat, after: Flat, whole: Flat)
    requires j < |ratio| && Dealable(|sorted|, ratio, shuffling, shuffle) && count < |sorted|
    requires next == NextBatch(|sorted|, ratio, count)
    requires before + Flatten(Pick(sorted, DealIdx(|sorted|, ratio, shuffling, shuffle, count, j))) == whole
    requires after == before + Share(sorted, BatchOrder(count, next, shuffling, shuffle), ratio, j)
    ensures after + Flatten(Pick(sorted, DealIdx(|sorted|, ratio, shuffling, shuffle, next, j))) == whole
  {
    var all := Flatten(Pick(sorted, DealIdx(|sorted|, ratio, shuffling, shuffle, count, j)));
    var mine := Share(sorted, BatchOrder(count, next, shuffling, shuffle), ratio, j);
    var later := Flatten(Pick(sorted, DealIdx(|sorted|, ratio, shuffling, shuffle, next, j)));
    DealFiles(sorted, ratio, shuffling, shuffle, count, next, j);
    StepSplit(before, after, whole, all, mine, later);
  }

  /** The innermost loop of `split`: extends a split's list by the pairs of the files at positions `mine`. */
  method ExtendWithFiles(part: Flat, utterances: Mapping, mine: seq<nat>) returns (r: Flat)
    requires Within(mine, 0, |utterances|)
    ensures r == part + Flatten(Pick(utterances, mine))
  {
    r := part;
    assert mine[..0] == [];
    for t := 0 to |mine|
      invariant r == part + Flatten(Pick(utterances, mine[..t]))
    {
      var i := mine[t];
      var (filename, utts) := utterances[i];
      FlattenPickSnoc(utterances, mine, t);
      r := r + Expand(filename, utts);
    }
    assert mine[..|mine|] == mine;
  }

  /** What split `j` takes from a batch whose index list is `indices`: the pairs of the files at `indices[count_:count_+ratio]`. */
  function Share(utterances: Mapping, indices: seq<nat>, ratio: Ratio, j: nat): Flat
    requires j < |ratio|
  {
    Flatten(Pick(utterances, Slice(indices, Pre(ratio, j), Pre(ratio, j) + ratio[j].1)))
  }

  /**
   * One batch of `split`: each split in turn, in ratio order, takes the next
   * `ratio` positions of the batch's index list.
   */
  method DealBatch(dataset: seq<(string, Flat)>, utterances: Mapping, indices: seq<nat>, ratio: Ratio,
                   ghost count: nat, ghost next: nat)
    returns (dealt: seq<(string, Flat)>)
    requires |dataset| == |ratio| && NonNegative(ratio)
    requires multiset(indices) == multiset(Range(count, next)) && next <= |utterances|
    ensures |dealt| == |ratio|
    ensures forall j :: 0 <= j < |ratio| ==> dealt[j].0 == dataset[j].0
    ensures forall j :: 0 <= j < |ratio| ==> dealt[j].1 == dataset[j].1 + Share(utterances, indices, ratio, j)
  {
    dealt := dataset;
    var count_ := 0;
    for j := 0 to |ratio|
      invariant count_ == Pre(ratio, j)
      invariant |dealt| == |ratio|
      invariant forall j' :: 0 <= j' < |ratio| ==> dealt[j'].0 == dataset[j'].0
      invariant forall j' :: 0 <= j' < j ==> dealt[j'].1 == dataset[j'].1 + Share(utterances, indices, ratio, j')
      invariant forall j' :: j <= j' < |ratio| ==> dealt[j'] == dataset[j']
    {
      var mine := Slice(indices, count_, count_ + ratio[j].1);
      assert Within(mine, 0, |utterances|) by {
        PreBounds(ratio, j);
        SliceInBatch(indices, count, next, count_, count_ + ratio[j].1);
      }
      var extended := ExtendWithFiles(dealt[j].1, utterances, mine);
      assert extended == dataset[j].1 + Share(utterances, indices, ratio, j);
      dealt := dealt[j := (dealt[j].0, extended)];
      PreStep(ratio, j);
      count_ := count_ + ratio[j].1;
    }
  }

  /**
   * The state of `split` before the batch starting at `count`: every split
   * keeps its name, and what it holds followed by what the remaining batches
   * deal to it is `parts[j]`, what it ends up with.
   */
  ghost predicate Pending(dataset: seq<(string, Flat)>, utterances: Mapping, ratio: Ratio, shuffling: bool,
                          shuffle: (nat, nat) -> seq<nat>, count: nat, parts: seq<Flat>) {
    && Dealable(|utterances|, ratio, shuffling, shuffle)
    && |dataset| == |ratio| == |parts|
    && (forall j :: 0 <= j < |ratio| ==> dataset[j].0 == ratio[j].0)
    && forall j :: 0 <= j < |ratio| ==>
         dataset[j].1 + Flatten(Pick(utterances, DealIdx(|utterances|, ratio, shuffling, shuffle, count, j))) == parts[j]
  }

  /** Before the first batch every split is empty and still to get all of its part. */
  lemma PendingStart(dataset: seq<(string, Flat)>, m: Mapping, ratio: Ratio, shuffling: bool,
                     shuffle: (nat, nat) -> seq<nat>, parts: seq<Flat>)
    requires Dealable(|m|, ratio, shuffling, shuffle)
    requires |dataset| == |ratio| == |parts|
    requires forall j :: 0 <= j < |ratio| ==> dataset[j] == (ratio[j].0, [])
    requires forall j :: 0 <= j < |ratio| ==> parts[j] == Part(m, ratio, shuffling, shuffle, j)
    ensures Pending(dataset, SortDictByValueLength(m), ratio, shuffling, shuffle, 0, parts)
  {
    forall j | 0 <= j < |ratio|
      ensures dataset[j].1 + Flatten(Pick(SortDictByValueLength(m), DealIdx(|m|, ratio, shuffling, shuffle, 0, j))) == parts[j]
    {
      assert dataset[j].1 == [];
    }
  }

  /** Once every file is dealt, every split holds its whole part. */
  lemma PendingDone(dataset: seq<(string, Flat)>, utterances: Mapping, ratio: Ratio, shuffling: bool,
                    shuffle: (nat, nat) -> seq<nat>, count: nat, parts: seq<Flat>)
    requires Pending(dataset, utterances, ratio, shuffling, shuffle, count, parts) && count >= |utterances|
    ensures forall j :: 0 <= j < |ratio| ==> dataset[j].1 == parts[j]
  {
    forall j | 0 <= j < |ratio| ensures dataset[j].1 == parts[j] {
      assert DealIdx(|utterances|, ratio, shuffling, shuffle, count, j) == [];
      assert Flatten(Pick(utterances, [])) == [];
      assert dataset[j].1 + [] == dataset[j].1;
    }
  }

  /** Dealing the batch starting at `count` leaves the state before the next batch. */
  lemma PendingStep(dataset: seq<(string, Flat)>, dealt: seq<(string, Flat)>, utterances: Mapping, ratio: Ratio,
                    shuffling: bool, shuffle: (nat, nat) -> seq<nat>, count: nat, next: nat, parts: seq<Flat>)
    requires count < |utterances| && next == NextBatch(|utterances|, ratio, count)
    requires Pending(dataset, utterances, ratio, shuffling, shuffle, count, parts)
    requires |dealt| == |ratio| && forall j :: 0 <= j < |ratio| ==> dealt[j].0 == dataset[j].0
    requires forall j :: 0 <= j < |ratio| ==>
      dealt[j].1 == dataset[j].1 + Share(utterances, BatchOrder(count, next, shuffling, shuffle), ratio, j)
    ensures Pending(dealt, utterances, ratio, shuffling, shuffle, next, parts)
  {
    forall j | 0 <= j < |ratio|
      ensures dealt[j].1 + Flatten(Pick(utterances, DealIdx(|utterances|, ratio, shuffling, shuffle, next, j))) == parts[j]
    {
      DealtSoFar(utterances, ratio, shuffling, shuffle, count, next, j, dataset[j].1, dealt[j].1, parts[j]);
    }
  }

  /**
   * One round of the `while` loop of `split`: the batch starting at `count`
   * is dealt, and `parts[j]` is still what split `j` gets in the end.
   */
  method SplitBatch(dataset: seq<(string, Flat)>, utterances: Mapping, ratio: Ratio, shuffling: bool,
                    shuffle: (nat, nat) -> seq<nat>, count: nat, ghost parts: seq<Flat>)
    returns (dealt: seq<(string, Flat)>, next: nat)
    requires count < |utterances|
    requires Pending(dataset, utterances, ratio, shuffling, shuffle, count, parts)
    ensures count < next <= |utterances|
    ensures Pending(dealt, utterances, ratio, shuffling, shuffle, next, parts)
  {
    var batchSize := Total(ratio);
    var size := if batchSize < |utterances| - count then batchSize else |utterances| - count;
    next := count + size;
    var indices := Range(count, next);
    if shuffling {
      indices := shuffle(count, next);
    }
    BatchOrderRange(count, next, shuffling, shuffle);
    assert indices == BatchOrder(count, next, shuffling, shuffle);
    dealt := DealBatch(dataset, utterances, indices, ratio, count, next);
    PendingStep(dataset, dealt, utterances, ratio, shuffling, shuffle, count, next, parts);
  }

  /**
   * `split(files_to_utterances, split_ratio, shuffling)`: the result has one
   * entry per split, in the order of `ratio`, and split `j` holds exactly the
   * pairs `Part` describes.
   */
  method Split(m: Mapping, ratio: Ratio, shuffling: bool, shuffle: (nat, nat) -> seq<nat>) returns (dataset: seq<(string, Flat)>)
    requires Dealable(|m|, ratio, shuffling, shuffle) && DistinctKeys(ratio)
    ensures |dataset| == |ratio| && forall j :: 0 <= j < |ratio| ==> dataset[j].0 == ratio[j].0
    ensures DistinctKeys(dataset)
    ensures forall j :: 0 <= j < |ratio| ==> dataset[j].1 == Part(m, ratio, shuffling, shuffle, j)
  {
    var utterances := SortDictByValueLength(m);
    dataset := seq(|ratio|, j requires 0 <= j < |ratio| => (ratio[j].0, []));
    ghost var parts := seq(|ratio|, j requires 0 <= j < |ratio| => Part(m, ratio, shuffling, shuffle, j));
    PendingStart(dataset, m, ratio, shuffling, shuffle, parts);
    var count := 0;
    while count < |utterances|
      invariant Pending(dataset, utterances, ratio, shuffling, shuffle, count, parts)
      decreases |utterances| - count
    {
      dataset, count := SplitBatch(dataset, utterances, ratio, shuffling, shuffle, count, parts);
    }
    PendingDone(dataset, utterances, ratio, shuffling, shuffle, count, parts);
  }
}
