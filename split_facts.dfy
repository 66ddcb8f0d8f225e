/**
 * What `split` promises about its result as a whole: every pair of the
 * input lands in exactly one split, every file stays in one split as one
 * run, and without shuffling split `j` gets exactly the positions whose
 * offset inside their batch falls in its ratio window.
 */
module SplitFacts {
  import opened Dicts
  import opened Seqs
  import opened Corpus
  import opened PyLists
  import opened Arith
  import opened Splitter

  /** Split `j`'s positions from the batch at `count` on, for every `j` (none past the last split). */
  ghost function Dealer(n: nat, ratio: Ratio, shuffling: bool, shuffle: (nat, nat) -> seq<nat>, count: nat): nat -> seq<nat>
    requires Dealable(n, ratio, shuffling, shuffle)
  {
    (j: nat) => if j < |ratio| then DealIdx(n, ratio, shuffling, shuffle, count, j) else []
  }

  /** The window `order[count_:count_+ratio]` of each split in a batch with index list `order` (none past the last split). */
  function Windows(order: seq<nat>, ratio: Ratio): nat -> seq<nat> {
    (j: nat) => if j < |ratio| then Slice(order, Pre(ratio, j), Pre(ratio, j) + ratio[j].1) else []
  }

  /** With non-negative weights the windows of one batch tile its index list from the start. */
  lemma {:induction false} WindowsTile(order: seq<nat>, ratio: Ratio, J: nat)
    requires NonNegative(ratio) && J <= |ratio|
    ensures Concat(Windows(order, ratio), J) == Slice(order, 0, Pre(ratio, J))
  {
    if J == 0 {
      assert ratio[..0] == [];
    } else {
      WindowsTile(order, ratio, J - 1);
      PreBounds(ratio, J - 1);
      PreStep(ratio, J - 1);
      SliceTile(order, 0, Pre(ratio, J - 1), Pre(ratio, J - 1) + ratio[J - 1].1);
    }
  }

  /** All the windows of a batch together are the batch's whole index list, because it is never longer than `sum(ratio)`. */
  lemma WindowsAll(order: seq<nat>, ratio: Ratio)
    requires NonNegative(ratio) && |order| <= Total(ratio)
    ensures Concat(Windows(order, ratio), |ratio|) == order
  {
    WindowsTile(order, ratio, |ratio|);
    assert ratio[..|ratio|] == ratio;
    SliceAll(order, Pre(ratio, |ratio|));
  }

  /** Nothing is dealt from past the end. */
  lemma {:induction false} JoinedEnd(n: nat, ratio: Ratio, shuffling: bool, shuffle: (nat, nat) -> seq<nat>, count: nat, J: nat)
    requires J <= |ratio| && Dealable(n, ratio, shuffling, shuffle) && count >= n
    ensures Concat(Dealer(n, ratio, shuffling, shuffle, count), J) == []
  {
    if J > 0 {
      JoinedEnd(n, ratio, shuffling, shuffle, count, J - 1);
    }
  }

  /** The splits' positions from the batch at `count` on: this batch's windows, then the later batches' positions. */
  lemma JoinedUnfold(n: nat, ratio: Ratio, shuffling: bool, shuffle: (nat, nat) -> seq<nat>, count: nat)
    requires Dealable(n, ratio, shuffling, shuffle) && count < n
    ensures NextBatch(n, ratio, count) > count
    ensures multiset(Concat(Dealer(n, ratio, shuffling, shuffle, count), |ratio|))
      == multiset(Concat(Windows(BatchOrder(count, NextBatch(n, ratio, count), shuffling, shuffle), ratio), |ratio|))
         + multiset(Concat(Dealer(n, ratio, shuffling, shuffle, NextBatch(n, ratio, count)), |ratio|))
  {
    var next := NextBatch(n, ratio, count);
    var f, g, h := Dealer(n, ratio, shuffling, shuffle, count), Windows(BatchOrder(count, next, shuffling, shuffle), ratio),
      Dealer(n, ratio, shuffling, shuffle, next);
    forall j | 0 <= j < |ratio| ensures f(j) == g(j) + h(j) {
      DealUnfold(n, ratio, shuffling, shuffle, count, j);
      assert f(j) == DealIdx(n, ratio, shuffling, shuffle, count, j);
      assert h(j) == DealIdx(n, ratio, shuffling, shuffle, next, j);
    }
    ConcatSplit(f, g, h, |ratio|);
  }

  /** Over all batches, the splits together are dealt every position from `count` to the end exactly once. */
  lemma {:induction false} JoinedCover(n: nat, ratio: Ratio, shuffling: bool, shuffle: (nat, nat) -> seq<nat>, count: nat)
    requires Dealable(n, ratio, shuffling, shuffle) && count <= n
    ensures multiset(Concat(Dealer(n, ratio, shuffling, shuffle, count), |ratio|)) == multiset(Range(count, n))
    decreases n - count
  {
    if count == n {
      JoinedEnd(n, ratio, shuffling, shuffle, count, |ratio|);
    } else {
      var next := NextBatch(n, ratio, count);
      var order := BatchOrder(count, next, shuffling, shuffle);
      JoinedUnfold(n, ratio, shuffling, shuffle, count);
      BatchOrderRange(count, next, shuffling, shuffle);
      assert |order| == next - count <= Total(ratio) by {
        assert |order| == |multiset(order)|;
      }
      WindowsAll(order, ratio);
      JoinedCover(n, ratio, shuffling, shuffle, next);
      RangeAppend(count, next, n);
    }
  }

  /** The pairs of the files at the positions `f(j)`, for every `j`. */
  function FilesAt(m: Mapping, f: nat -> seq<nat>): nat -> Flat {
    (j: nat) => Flatten(Pick(m, f(j)))
  }

  /** Concatenating position lists concatenates the pairs of their files. */
  lemma {:induction false} ConcatPick(m: Mapping, f: nat -> seq<nat>, J: nat)
    ensures Flatten(Pick(m, Concat(f, J))) == Concat(FilesAt(m, f), J)
  {
    if J == 0 {
      assert Pick(m, []) == [];
    } else {
      ConcatPick(m, f, J - 1);
      var a, b := Concat(f, J - 1), f(J - 1);
      assert Concat(f, J) == a + b;
      FlattenPickAppend(m, a, b);
      assert Concat(FilesAt(m, f), J) == Concat(FilesAt(m, f), J - 1) + FilesAt(m, f)(J - 1);
    }
  }

  /**
   * `dataset_dict` flattened: the lists of all splits, one after the other
   * in ratio order. Its `j`-th piece is `Part(m, ratio, shuffling, shuffle, j)`.
   */
  ghost function AllParts(m: Mapping, ratio: Ratio, shuffling: bool, shuffle: (nat, nat) -> seq<nat>): Flat
    requires Dealable(|m|, ratio, shuffling, shuffle)
  {
    Concat(FilesAt(SortDictByValueLength(m), Dealer(|m|, ratio, shuffling, shuffle, 0)), |ratio|)
  }

  lemma AllPartsAt(m: Mapping, ratio: Ratio, shuffling: bool, shuffle: (nat, nat) -> seq<nat>, j: nat)
    requires Dealable(|m|, ratio, shuffling, shuffle) && j < |ratio|
    ensures FilesAt(SortDictByValueLength(m), Dealer(|m|, ratio, shuffling, shuffle, 0))(j) == Part(m, ratio, shuffling, shuffle, j)
  {
  }

  /**
   * Every (file, utterance) pair of the input lands in the splits exactly
   * as often as it occurs in the input, whatever the shuffle: the splits
   * together hold as many pairs as the input has utterances.
   */
  lemma SplitCoversInput(m: Mapping, ratio: Ratio, shuffling: bool, shuffle: (nat, nat) -> seq<nat>)
    requires Dealable(|m|, ratio, shuffling, shuffle)
    ensures multiset(AllParts(m, ratio, shuffling, shuffle)) == multiset(Flatten(m))
    ensures |AllParts(m, ratio, shuffling, shuffle)| == TotalUtterances(m)
  {
    var sorted := SortDictByValueLength(m);
    var all := Concat(Dealer(|m|, ratio, shuffling, shuffle, 0), |ratio|);
    ConcatPick(sorted, Dealer(|m|, ratio, shuffling, shuffle, 0), |ratio|);
    JoinedCover(|m|, ratio, shuffling, shuffle, 0);
    PickAll(sorted, all);
    FlattenPerm(Pick(sorted, all), m);
    FlattenSize(m);
    assert |multiset(AllParts(m, ratio, shuffling, shuffle))| == |multiset(Flatten(m))|;
  }

  /** `list(range(lo, hi))` has no repeats. */
  lemma RangeDistinct(lo: nat, hi: nat)
    ensures Distinct(Range(lo, hi))
  {
  }

  /** No position is dealt twice to one split, nor to two different splits. */
  lemma DealtOnce(n: nat, ratio: Ratio, shuffling: bool, shuffle: (nat, nat) -> seq<nat>, i: nat, j: nat)
    requires Dealable(n, ratio, shuffling, shuffle) && i < |ratio| && j < |ratio|
    ensures Distinct(DealIdx(n, ratio, shuffling, shuffle, 0, j))
    ensures i != j ==> forall p :: p in DealIdx(n, ratio, shuffling, shuffle, 0, i) ==> p !in DealIdx(n, ratio, shuffling, shuffle, 0, j)
  {
    var f := Dealer(n, ratio, shuffling, shuffle, 0);
    assert forall x :: multiset(Concat(f, |ratio|))[x] <= 1 by {
      JoinedCover(n, ratio, shuffling, shuffle, 0);
      RangeDistinct(0, n);
      DistinctCounts(Range(0, n));
    }
    ConcatOnce(f, |ratio|, i, j);
    assert f(i) == DealIdx(n, ratio, shuffling, shuffle, 0, i);
    assert f(j) == DealIdx(n, ratio, shuffling, shuffle, 0, j);
  }

  /**
   * With distinct file ids in the input, each split holds each of its
   * files' utterances as a single run, and no file id occurs in two splits.
   */
  lemma SplitKeepsFilesWhole(m: Mapping, ratio: Ratio, shuffling: bool, shuffle: (nat, nat) -> seq<nat>, i: nat, j: nat)
    requires Dealable(|m|, ratio, shuffling, shuffle) && DistinctKeys(m) && i < |ratio| && j < |ratio|
    ensures FileContiguous(Part(m, ratio, shuffling, shuffle, j))
    ensures i != j ==> NoSharedFile(Part(m, ratio, shuffling, shuffle, i), Part(m, ratio, shuffling, shuffle, j))
  {
    var sorted := SortDictByValueLength(m);
    var a, b := DealIdx(|m|, ratio, shuffling, shuffle, 0, i), DealIdx(|m|, ratio, shuffling, shuffle, 0, j);
    DealtOnce(|m|, ratio, shuffling, shuffle, i, j);
    PickDistinct(sorted, b);
    FlattenContiguous(Pick(sorted, b));
    if i != j {
      PickApart(sorted, a, b);
    }
  }

  /** Position `p` is in the window `[a, b)` of the batch `count .. next-1` taken in order. */
  lemma WindowOfRange(count: nat, next: nat, a: int, b: int, p: nat)
    requires count <= next && 0 <= a <= b
    ensures p in Slice(Range(count, next), a, b) <==> count + a <= p < count + b && p < next
  {
    var r := Range(count, next);
    var lo, hi := Bound(a, |r|), Bound(b, |r|);
    if p in Slice(r, a, b) {
      var t :| lo <= t < hi && r[t] == p;
    }
    if count + a <= p < count + b && p < next {
      assert Slice(r, a, b)[p - count - lo] == p;
    }
  }

  /** Inside the batch that starts at a multiple of `B`, a position's remainder by `B` is its offset in the batch. */
  lemma OffsetInBatch(count: nat, B: nat, p: nat)
    requires B > 0 && count % B == 0 && count <= p < count + B
    ensures p % B == p - count
  {
    DivUnique(p, B, count / B, p - count);
  }

  lemma NextMultiple(count: nat, B: nat)
    requires B > 0 && count % B == 0
    ensures (count + B) % B == 0
  {
    var q := count / B;
    assert count == q * B;
    assert count + B == (q + 1) * B;
    DivUnique(count + B, B, q + 1, 0);
  }

  /**
   * Without shuffling, split `j` is dealt exactly the positions (in the
   * files sorted longest first) whose offset inside their batch of
   * `sum(ratio)` lies in `[Pre(ratio, j), Pre(ratio, j) + ratio[j])`: a short
   * final batch therefore only reaches the splits declared first.
   */
  lemma {:induction false} NoShuffleWindows(n: nat, ratio: Ratio, shuffle: (nat, nat) -> seq<nat>, count: nat, j: nat, p: nat)
    requires j < |ratio| && Dealable(n, ratio, false, shuffle) && Total(ratio) > 0 && count % Total(ratio) == 0
    ensures p in DealIdx(n, ratio, false, shuffle, count, j)
      <==> count <= p < n && Pre(ratio, j) <= p % Total(ratio) < Pre(ratio, j) + ratio[j].1
    decreases n - count
  {
    if count < n {
      var next := NextBatch(n, ratio, count);
      if p < next {
        NoShuffleBatch(n, ratio, shuffle, count, j, p);
      } else {
        DealLater(n, ratio, false, shuffle, count, j, p);
        if next < n {
          NextMultiple(count, Total(ratio));
          NoShuffleWindows(n, ratio, shuffle, next, j, p);
        } else {
          assert DealIdx(n, ratio, false, shuffle, next, j) == [];
        }
      }
    } else {
      assert DealIdx(n, ratio, false, shuffle, count, j) == [];
    }
  }

  /** A position past the batch starting at `count` is dealt to split `j` exactly when a later batch deals it there. */
  lemma DealLater(n: nat, ratio: Ratio, shuffling: bool, shuffle: (nat, nat) -> seq<nat>, count: nat, j: nat, p: nat)
    requires j < |ratio| && Dealable(n, ratio, shuffling, shuffle) && count < n && p >= NextBatch(n, ratio, count)
    ensures p in DealIdx(n, ratio, shuffling, shuffle, count, j) <==> p in DealIdx(n, ratio, shuffling, shuffle, NextBatch(n, ratio, count), j)
  {
    var next := NextBatch(n, ratio, count);
    DealUnfold(n, ratio, shuffling, shuffle, count, j);
    var order := BatchOrder(count, next, shuffling, shuffle);
    var mine := Slice(order, Pre(ratio, j), Pre(ratio, j) + ratio[j].1);
    PreBounds(ratio, j);
    PreBounds(ratio, j + 1);
    PreStep(ratio, j);
    BatchOrderRange(count, next, shuffling, shuffle);
    SliceInBatch(order, count, next, Pre(ratio, j), Pre(ratio, j) + ratio[j].1);
    assert p !in mine;
  }

  /** Inside the batch starting at `count`, without shuffling, split `j` gets the offsets of its window. */
  lemma NoShuffleBatch(n: nat, ratio: Ratio, shuffle: (nat, nat) -> seq<nat>, count: nat, j: nat, p: nat)
    requires j < |ratio| && Dealable(n, ratio, false, shuffle) && Total(ratio) > 0 && count % Total(ratio) == 0
    requires count < n && p < NextBatch(n, ratio, count)
    ensures p in DealIdx(n, ratio, false, shuffle, count, j)
      <==> count <= p && Pre(ratio, j) <= p % Total(ratio) < Pre(ratio, j) + ratio[j].1
  {
    var next := NextBatch(n, ratio, count);
    DealUnfold(n, ratio, false, shuffle, count, j);
    PreBounds(ratio, j);
    PreBounds(ratio, j + 1);
    PreStep(ratio, j);
    WindowOfRange(count, next, Pre(ratio, j), Pre(ratio, j) + ratio[j].1, p);
    assert p !in DealIdx(n, ratio, false, shuffle, next, j) by {
      assert Within(DealIdx(n, ratio, false, shuffle, next, j), next, n);
    }
    if count <= p {
      OffsetInBatch(count, Total(ratio), p);
    }
  }
}
