/**
 * The in-memory part of `process_childes_xml`: from the mapping of file
 * ids to non-target-child utterances to the four datasets `train`,
 * `valid`, `test` and `excluded`.
 */
module Pipeline {
  import opened Dicts
  import opened Seqs
  import opened Corpus
  import opened Treebank
  import opened HoldOut
  import opened Splitter
  import opened SplitFacts
  import opened Remix
  import opened Regroup

  /** What `process_childes_xml` returns, or the `IndexError` that `remix_held_out` raises. */
  datatype Output = Datasets(splits: seq<(string, Flat)>) | Raised

  /** `exclude_every_kth`, left at its default by `process_childes_xml`. */
  const ExcludeEveryKth := 10

  /** The treebank and the other files keep the input's distinct ids, and every treebank file keeps non-empty utterances. */
  lemma TreebankSides(m: Mapping)
    requires DistinctKeys(m) && AllNonEmpty(m)
    ensures DistinctKeys(SplitTreebank(m).0) && DistinctKeys(SplitTreebank(m).1)
    ensures AllNonEmpty(SplitTreebank(m).0)
    ensures forall i, j :: 0 <= i < |SplitTreebank(m).0| && 0 <= j < |SplitTreebank(m).1| ==>
      SplitTreebank(m).0[i].0 != SplitTreebank(m).1[j].0
  {
    var (tb, rest) := SplitTreebank(m);
    assert multiset(tb + rest) == multiset(m);
    PermDistinctKeys(m, tb + rest);
    DistinctKeysSplit(tb, rest);
    forall t | 0 <= t < |tb| ensures NonEmptyUtterances(tb[t].1) {
      assert tb[t] in multiset(m);
    }
  }

  /** `included` of `hold_out(treebank)`. */
  function HeldIn(tb: Mapping): Mapping
    requires AllNonEmpty(tb)
  {
    Strided(SortDictByNumberOfQuestions(tb), ExcludeEveryKth, false)
  }

  /** `excluded` of `hold_out(treebank)`. */
  function HeldOutFiles(tb: Mapping): Mapping
    requires AllNonEmpty(tb)
  {
    Strided(SortDictByNumberOfQuestions(tb), ExcludeEveryKth, true)
  }

  /**
   * The included treebank files and the other files share no id, so the
   * dict merge `{**not_treebank, **included_treebank}` lists one after the
   * other.
   */
  lemma MergeApart(m: Mapping)
    requires DistinctKeys(m) && AllNonEmpty(m)
    ensures AllNonEmpty(SplitTreebank(m).0)
    ensures Merge(SplitTreebank(m).1, HeldIn(SplitTreebank(m).0)) == SplitTreebank(m).1 + HeldIn(SplitTreebank(m).0)
  {
    DealtKeys(m);
    var (tb, rest) := SplitTreebank(m);
    var included, excluded := HeldIn(tb), HeldOutFiles(tb);
    DistinctKeysSplit(rest + included, excluded);
    DistinctKeysSplit(rest, included);
    KeysApart(rest, included);
    MergeDisjoint(rest, included);
  }

  /**
   * The other files, the treebank files held in and those held out are
   * the files of `m`, each once.
   */
  lemma DealtKeys(m: Mapping)
    requires DistinctKeys(m) && AllNonEmpty(m)
    ensures AllNonEmpty(SplitTreebank(m).0)
    ensures var (tb, rest) := SplitTreebank(m);
      && multiset(rest + HeldIn(tb) + HeldOutFiles(tb)) == multiset(m)
      && DistinctKeys(rest + HeldIn(tb) + HeldOutFiles(tb))
  {
    TreebankSides(m);
    var (tb, rest) := SplitTreebank(m);
    var included, excluded := HeldIn(tb), HeldOutFiles(tb);
    HoldOutPartition(tb, ExcludeEveryKth);
    assert multiset(rest + included + excluded) == multiset(m);
    PermDistinctKeys(m, rest + included + excluded);
  }

  /** The merged files' pairs and the excluded files' pairs are the input's pairs. */
  lemma HeldOutPairs(m: Mapping)
    requires DistinctKeys(m) && AllNonEmpty(m)
    ensures AllNonEmpty(SplitTreebank(m).0)
    ensures multiset(Flatten(SplitTreebank(m).1 + HeldIn(SplitTreebank(m).0))) + multiset(Flatten(HeldOutFiles(SplitTreebank(m).0)))
      == multiset(Flatten(m))
  {
    DealtKeys(m);
    var (tb, rest) := SplitTreebank(m);
    var included, excluded := HeldIn(tb), HeldOutFiles(tb);
    FlattenPerm(m, rest + included + excluded);
    FlattenAppend(rest + included, excluded);
  }

  /** The excluded pairs all come from treebank files. */
  lemma HeldOutTreebank(m: Mapping)
    requires DistinctKeys(m) && AllNonEmpty(m)
    ensures AllNonEmpty(SplitTreebank(m).0)
    ensures forall p :: p in Flatten(HeldOutFiles(SplitTreebank(m).0)) ==> IsTreebank(p.0)
  {
    TreebankSides(m);
    var tb := SplitTreebank(m).0;
    HoldOutPartition(tb, ExcludeEveryKth);
    TreebankPairs(tb, HeldOutFiles(tb));
  }

  /** Files drawn from treebank files give only treebank pairs. */
  lemma TreebankPairs(tb: Mapping, excluded: Mapping)
    requires forall t :: 0 <= t < |tb| ==> IsTreebank(tb[t].0)
    requires multiset(excluded) <= multiset(tb)
    ensures forall p :: p in Flatten(excluded) ==> IsTreebank(p.0)
  {
    forall p | p in Flatten(excluded) ensures IsTreebank(p.0) {
      var i :| 0 <= i < |Flatten(excluded)| && Flatten(excluded)[i] == p;
      var t :| 0 <= t < |excluded| && Keys(excluded)[t] == p.0;
      assert excluded[t] in multiset(tb);
    }
  }

  /** The three splits of `split` share out the pairs of its input. */
  lemma SplitThree(m: Mapping, shuffle: (nat, nat) -> seq<nat>)
    requires Dealable(|m|, DefaultRatio, true, shuffle)
    ensures multiset(Part(m, DefaultRatio, true, shuffle, 0)) + multiset(Part(m, DefaultRatio, true, shuffle, 1))
      + multiset(Part(m, DefaultRatio, true, shuffle, 2)) == multiset(Flatten(m))
  {
    SplitCoversInput(m, DefaultRatio, true, shuffle);
    var f := FilesAt(SortDictByValueLength(m), Dealer(|m|, DefaultRatio, true, shuffle, 0));
    AllPartsAt(m, DefaultRatio, true, shuffle, 0);
    AllPartsAt(m, DefaultRatio, true, shuffle, 1);
    AllPartsAt(m, DefaultRatio, true, shuffle, 2);
    ConcatThree(f);
  }

  lemma ConcatThree<T>(f: nat -> seq<T>)
    ensures multiset(Concat(f, 3)) == multiset(f(0)) + multiset(f(1)) + multiset(f(2))
  {
    assert Concat(f, 3) == f(0) + f(1) + f(2);
  }

  /** The split ratio `process_childes_xml` leaves at its default deals every file. */
  lemma DefaultDealable(n: nat, shuffle: (nat, nat) -> seq<nat>)
    requires IsShuffler(shuffle)
    ensures Dealable(n, DefaultRatio, true, shuffle)
  {
    var r := DefaultRatio;
    assert r[..1][..0] == [] && r[..2][..1] == r[..1] && r[..|r| - 1] == r[..2];
    assert Total(r[..1]) == 5;
    assert Total(r[..2]) == 10;
  }

  /** The default ratio names each split once, as the keys of a dict do. */
  lemma DefaultRatioKeys()
    ensures DistinctKeys(DefaultRatio)
  {
    assert DefaultRatio[0].0 == "valid" && DefaultRatio[1].0 == "test" && DefaultRatio[2].0 == "train";
  }

  /** Bookkeeping of the pair multisets from the input to the final train, valid and test lists. */
  lemma ShareOut<T>(all: seq<T>, ex: seq<T>, p0: seq<T>, p1: seq<T>, p2: seq<T>,
                    v: seq<T>, t: seq<T>, train: seq<T>, valid: seq<T>, test: seq<T>)
    requires multiset(p0) + multiset(p1) + multiset(p2) + multiset(ex) == multiset(all)
    requires multiset(v) + multiset(t) == multiset(p0) + multiset(p1) + multiset(ex)
    requires multiset(train) == multiset(p2) && multiset(valid) == multiset(v) && multiset(test) == multiset(t)
    ensures multiset(train) + multiset(valid) + multiset(test) == multiset(all)
  {
    forall x ensures (multiset(train) + multiset(valid) + multiset(test))[x] == multiset(all)[x] {
      assert (multiset(p0) + multiset(p1) + multiset(p2) + multiset(ex))[x] == multiset(all)[x];
      assert (multiset(v) + multiset(t))[x] == (multiset(p0) + multiset(p1) + multiset(ex))[x];
    }
  }

  /** A list that ends with `e` holds every element of `e`. */
  lemma EndsWith<T>(s: seq<T>, e: seq<T>)
    requires |e| <= |s| && s[|s| - |e|..] == e
    ensures multiset(e) <= multiset(s)
  {
    assert s == s[..|s| - |e|] + e;
  }

  /** `dataset_dict["valid"]`, `["test"]` and `["train"]` on the result of `split` with the default ratio. */
  lemma Lookups(d: seq<(string, Flat)>)
    requires |d| == 3 && d[0].0 == "valid" && d[1].0 == "test" && d[2].0 == "train"
    ensures "valid" in Keys(d) && Get(d, "valid") == d[0].1
    ensures "test" in Keys(d) && Get(d, "test") == d[1].1
    ensures "train" in Keys(d) && Get(d, "train") == d[2].1
  {
    assert Keys(d)[0] == "valid" && Keys(d)[1] == "test" && Keys(d)[2] == "train";
    assert DistinctKeys(d);
    IndexOfUnique(d, 0);
    IndexOfUnique(d, 1);
    IndexOfUnique(d, 2);
  }

  /**
   * The dealt splits keep files whole: no two of `valid`, `test` and
   * `train` share a file, none shares a file with the excluded treebank
   * files, and `test` lists each of its files in one run.
   */
  lemma DealtApart(m: Mapping, batchShuffle: (nat, nat) -> seq<nat>)
    requires DistinctKeys(m) && AllNonEmpty(m)
    requires IsShuffler(batchShuffle)
    ensures AllNonEmpty(SplitTreebank(m).0)
    ensures Dealable(|SplitTreebank(m).1 + HeldIn(SplitTreebank(m).0)|, DefaultRatio, true, batchShuffle)
    ensures var included := SplitTreebank(m).1 + HeldIn(SplitTreebank(m).0);
      var ex := Flatten(HeldOutFiles(SplitTreebank(m).0));
      var valid, test, train := Part(included, DefaultRatio, true, batchShuffle, 0),
        Part(included, DefaultRatio, true, batchShuffle, 1), Part(included, DefaultRatio, true, batchShuffle, 2);
      && FileContiguous(test)
      && NoSharedFile(valid, test) && NoSharedFile(valid, train) && NoSharedFile(test, train)
      && NoSharedFile(valid, ex) && NoSharedFile(test, ex) && NoSharedFile(train, ex)
  {
    DealtKeys(m);
    var (tb, rest) := SplitTreebank(m);
    var inc, exc := HeldIn(tb), HeldOutFiles(tb);
    var included := rest + inc;
    DistinctKeysSplit(included, exc);
    FlattenApart(included, exc);
    DefaultDealable(|included|, batchShuffle);
    SplitKeepsFilesWhole(included, DefaultRatio, true, batchShuffle, 0, 1);
    SplitKeepsFilesWhole(included, DefaultRatio, true, batchShuffle, 0, 2);
    SplitKeepsFilesWhole(included, DefaultRatio, true, batchShuffle, 1, 2);
    SplitThree(included, batchShuffle);
    var ex := Flatten(exc);
    DealtPartsApart(Flatten(included), ex, Part(included, DefaultRatio, true, batchShuffle, 0),
      Part(included, DefaultRatio, true, batchShuffle, 1), Part(included, DefaultRatio, true, batchShuffle, 2));
  }

  /** Lists drawn from the pairs of `all` share no file with `ex` when `all` shares none. */
  lemma DealtPartsApart(all: Flat, ex: Flat, p0: Flat, p1: Flat, p2: Flat)
    requires NoSharedFile(all, ex)
    requires multiset(p0) + multiset(p1) + multiset(p2) == multiset(all)
    ensures NoSharedFile(p0, ex) && NoSharedFile(p1, ex) && NoSharedFile(p2, ex)
  {
    NoSharedFiles(all, ex);
    FilesOfSub(p0, all);
    FilesOfSub(p1, all);
    FilesOfSub(p2, all);
    NoSharedFiles(p0, ex);
    NoSharedFiles(p1, ex);
    NoSharedFiles(p2, ex);
  }

  /**
   * Lines 242-258 of `process_childes_xml`: the treebank files are held out
   * every tenth, the rest are merged with the other files and dealt into
   * the three splits.
   */
  method DealFiles(m: Mapping, batchShuffle: (nat, nat) -> seq<nat>)
    returns (trainSplit: Flat, validSplit: Flat, testSplit: Flat, excluded: Mapping)
    requires DistinctKeys(m) && AllNonEmpty(m)
    requires IsShuffler(batchShuffle)
    ensures AllNonEmpty(SplitTreebank(m).0)
    ensures Dealable(|SplitTreebank(m).1 + HeldIn(SplitTreebank(m).0)|, DefaultRatio, true, batchShuffle)
    ensures excluded == HeldOutFiles(SplitTreebank(m).0)
    ensures var included := SplitTreebank(m).1 + HeldIn(SplitTreebank(m).0);
      && validSplit == Part(included, DefaultRatio, true, batchShuffle, 0)
      && testSplit == Part(included, DefaultRatio, true, batchShuffle, 1)
      && trainSplit == Part(included, DefaultRatio, true, batchShuffle, 2)
    ensures multiset(validSplit) + multiset(testSplit) + multiset(trainSplit) + multiset(Flatten(excluded))
      == multiset(Flatten(m))
    ensures forall p :: p in Flatten(excluded) ==> IsTreebank(p.0)
    ensures FileContiguous(testSplit)
    ensures NoSharedFile(validSplit, testSplit) && NoSharedFile(validSplit, trainSplit) && NoSharedFile(testSplit, trainSplit)
    ensures NoSharedFile(validSplit, Flatten(excluded)) && NoSharedFile(testSplit, Flatten(excluded))
      && NoSharedFile(trainSplit, Flatten(excluded))
  {
    var (treebank, notTreebank) := SplitTreebank(m);
    TreebankSides(m);
    var includedTreebank;
    includedTreebank, excluded := HoldOut.HoldOut(treebank, ExcludeEveryKth);
    var included := Merge(notTreebank, includedTreebank);
    MergeApart(m);
    HeldOutPairs(m);
    HeldOutTreebank(m);
    DealtApart(m, batchShuffle);
    DefaultDealable(|included|, batchShuffle);
    DefaultRatioKeys();
    var datasetDict := Split(included, DefaultRatio, true, batchShuffle);
    Lookups(datasetDict);
    SplitThree(included, batchShuffle);
    validSplit, testSplit, trainSplit := Get(datasetDict, "valid"), Get(datasetDict, "test"), Get(datasetDict, "train");
  }

  /** The first `i` datasets of `r` are those of `d`, each shuffled with the arrangement its name selects. */
  ghost predicate ShuffledUpTo(r: seq<(string, Flat)>, d: seq<(string, Flat)>, i: nat, shuffling: bool,
                               arrange: string -> Arrangement)
    requires i <= |r| && i <= |d|
  {
    forall t :: 0 <= t < i ==> r[t] == (d[t].0, Shuffled(d[t].1, shuffling, arrange(d[t].0)))
  }

  lemma ShuffledStep(r: seq<(string, Flat)>, d: seq<(string, Flat)>, i: nat, shuffling: bool,
                     arrange: string -> Arrangement, data: Flat)
    requires |r| == i < |d| && ShuffledUpTo(r, d, i, shuffling, arrange)
    requires data == Shuffled(d[i].1, shuffling, arrange(d[i].0))
    ensures ShuffledUpTo(r + [(d[i].0, data)], d, i + 1, shuffling, arrange)
  {
    var r' := r + [(d[i].0, data)];
    assert r'[i] == (d[i].0, data);
    forall t | 0 <= t < i ensures r'[t] == (d[t].0, Shuffled(d[t].1, shuffling, arrange(d[t].0))) {
      assert r'[t] == r[t];
    }
  }

  /**
   * The closing dict comprehension of `process_childes_xml`: every dataset
   * is regrouped by file and, when `shuffling`, its files are put in the
   * order `arrange(name)` gives.
   */
  method ShuffleAll(d: seq<(string, Flat)>, shuffling: bool, arrange: string -> Arrangement)
    returns (r: seq<(string, Flat)>)
    ensures |r| == |d| && ShuffledUpTo(r, d, |d|, shuffling, arrange)
  {
    r := [];
    for i := 0 to |d|
      invariant |r| == i && ShuffledUpTo(r, d, i, shuffling, arrange)
    {
      var name := d[i].0;
      var data := Shuffle(d[i].1, shuffling, arrange(name));
      ShuffledStep(r, d, i, shuffling, arrange, data);
      r := r + [(name, data)];
    }
  }

  /**
   * What `process_childes_xml` promises of its four datasets when it
   * splits: they are `train`, `valid`, `test` and `excluded` in this order;
   * `train`, `valid` and `test` together hold every pair of the input once;
   * the excluded pairs all come from treebank files and are all in `test`
   * too; no file has pairs in two of `train`, `valid` and `test`; and
   * each dataset lists every file's pairs in one run.
   */
  ghost predicate WellSplit(m: Mapping, splits: seq<(string, Flat)>) {
    && |splits| == 4
    && Keys(splits) == ["train", "valid", "test", "excluded"]
    && multiset(splits[0].1) + multiset(splits[1].1) + multiset(splits[2].1) == multiset(Flatten(m))
    && multiset(splits[3].1) <= multiset(splits[2].1)
    && (forall p :: p in splits[3].1 ==> IsTreebank(p.0))
    && NoSharedFile(splits[0].1, splits[1].1) && NoSharedFile(splits[0].1, splits[2].1)
    && NoSharedFile(splits[1].1, splits[2].1)
    && (forall t :: 0 <= t < |splits| ==> FileContiguous(splits[t].1))
  }

  /**
   * Dealt splits that keep files whole still do after the remix and the
   * final shuffles: `train`, `valid` and `test` share no file.
   */
  lemma RemixedApart(trainSplit: Flat, validSplit: Flat, testSplit: Flat, excluded: Mapping,
                     train: Flat, valid: Flat, test: Flat)
    requires Remix.Remix(validSplit, testSplit, excluded).Remixed? && FileContiguous(testSplit)
    requires NoSharedFile(validSplit, testSplit) && NoSharedFile(validSplit, trainSplit) && NoSharedFile(testSplit, trainSplit)
    requires NoSharedFile(validSplit, Flatten(excluded)) && NoSharedFile(testSplit, Flatten(excluded))
      && NoSharedFile(trainSplit, Flatten(excluded))
    requires var rm := Remix.Remix(validSplit, testSplit, excluded);
      multiset(train) == multiset(trainSplit) && multiset(valid) == multiset(rm.valid) && multiset(test) == multiset(rm.test)
    ensures NoSharedFile(train, valid) && NoSharedFile(train, test) && NoSharedFile(valid, test)
  {
    var rm := Remix.Remix(validSplit, testSplit, excluded);
    var ex := Flatten(excluded);
    RemixKeepsTestFilesWhole(validSplit, testSplit, excluded);
    NoSharedFiles(validSplit, testSplit);
    NoSharedFiles(validSplit, trainSplit);
    NoSharedFiles(testSplit, trainSplit);
    NoSharedFiles(validSplit, ex);
    NoSharedFiles(testSplit, ex);
    NoSharedFiles(trainSplit, ex);
    FilesOfSub(train, trainSplit);
    FilesOfSub(valid, rm.valid);
    FilesOfSub(test, rm.test);
    NoSharedFiles(train, valid);
    NoSharedFiles(train, test);
    NoSharedFiles(valid, test);
  }

  /** Shuffling keeps every dataset's name and pairs, and leaves each file's pairs in one run. */
  lemma ShuffledAllFacts(splits: seq<(string, Flat)>, d: seq<(string, Flat)>, shuffling: bool,
                         arrange: string -> Arrangement)
    requires |splits| == |d| && ShuffledUpTo(splits, d, |d|, shuffling, arrange)
    ensures Keys(splits) == Keys(d)
    ensures forall t :: 0 <= t < |d| ==> multiset(splits[t].1) == multiset(d[t].1) && FileContiguous(splits[t].1)
  {
    forall t | 0 <= t < |d| ensures multiset(splits[t].1) == multiset(d[t].1) && FileContiguous(splits[t].1) {
      ShuffledFacts(d[t].1, shuffling, arrange(d[t].0));
    }
    forall t | 0 <= t < |d| ensures Keys(splits)[t] == Keys(d)[t] {
    }
  }

  /** From the dealt splits, the remix and the final shuffles to the promised datasets. */
  lemma Assemble(m: Mapping, trainSplit: Flat, validSplit: Flat, testSplit: Flat, excluded: Mapping,
                 d: seq<(string, Flat)>, splits: seq<(string, Flat)>)
    requires multiset(validSplit) + multiset(testSplit) + multiset(trainSplit) + multiset(Flatten(excluded))
      == multiset(Flatten(m))
    requires forall p :: p in Flatten(excluded) ==> IsTreebank(p.0)
    requires Remix.Remix(validSplit, testSplit, excluded).Remixed?
    requires var rm := Remix.Remix(validSplit, testSplit, excluded);
      d == [("train", trainSplit), ("valid", rm.valid), ("test", rm.test), ("excluded", Flatten(excluded))]
    requires |splits| == |d| && Keys(splits) == Keys(d)
    requires forall t :: 0 <= t < |d| ==> multiset(splits[t].1) == multiset(d[t].1) && FileContiguous(splits[t].1)
    requires FileContiguous(testSplit)
    requires NoSharedFile(validSplit, testSplit) && NoSharedFile(validSplit, trainSplit) && NoSharedFile(testSplit, trainSplit)
    requires NoSharedFile(validSplit, Flatten(excluded)) && NoSharedFile(testSplit, Flatten(excluded))
      && NoSharedFile(trainSplit, Flatten(excluded))
    ensures WellSplit(m, splits)
  {
    var rm := Remix.Remix(validSplit, testSplit, excluded);
    DatasetNames(trainSplit, rm.valid, rm.test, Flatten(excluded));
    var train, valid, test, held := splits[0].1, splits[1].1, splits[2].1, splits[3].1;
    assert multiset(train) == multiset(trainSplit) && multiset(valid) == multiset(rm.valid)
      && multiset(test) == multiset(rm.test) && multiset(held) == multiset(Flatten(excluded));
    RemixedShares(m, trainSplit, validSplit, testSplit, excluded, train, valid, test, held);
    RemixedApart(trainSplit, validSplit, testSplit, excluded, train, valid, test);
  }

  lemma DatasetNames(train: Flat, valid: Flat, test: Flat, held: Flat)
    ensures Keys([("train", train), ("valid", valid), ("test", test), ("excluded", held)])
      == ["train", "valid", "test", "excluded"]
  {
  }

  /** After the remix and the final shuffles, the pairs are shared out as the dealt splits had them. */
  lemma RemixedShares(m: Mapping, trainSplit: Flat, validSplit: Flat, testSplit: Flat, excluded: Mapping,
                      train: Flat, valid: Flat, test: Flat, held: Flat)
    requires multiset(validSplit) + multiset(testSplit) + multiset(trainSplit) + multiset(Flatten(excluded))
      == multiset(Flatten(m))
    requires forall p :: p in Flatten(excluded) ==> IsTreebank(p.0)
    requires Remix.Remix(validSplit, testSplit, excluded).Remixed?
    requires var rm := Remix.Remix(validSplit, testSplit, excluded);
      && multiset(train) == multiset(trainSplit) && multiset(valid) == multiset(rm.valid)
      && multiset(test) == multiset(rm.test) && multiset(held) == multiset(Flatten(excluded))
    ensures multiset(train) + multiset(valid) + multiset(test) == multiset(Flatten(m))
    ensures multiset(held) <= multiset(test)
    ensures forall p :: p in held ==> IsTreebank(p.0)
  {
    var rm := Remix.Remix(validSplit, testSplit, excluded);
    var ex := Flatten(excluded);
    RemixKeepsPairs(validSplit, testSplit, excluded);
    ShareOut(Flatten(m), ex, validSplit, testSplit, trainSplit, rm.valid, rm.test, train, valid, test);
    EndsWith(rm.test, ex);
    forall p | p in held ensures IsTreebank(p.0) {
      assert p in multiset(ex);
    }
  }

  /**
   * When `remix_held_out` raises on the splits dealt from `m`: there are
   * excluded treebank pairs, and the dealt `test` split is shorter than
   * half of them or holds pairs of one file only (or none at all).
   */
  ghost predicate RemixRaises(m: Mapping, batchShuffle: (nat, nat) -> seq<nat>)
    requires DistinctKeys(m) && AllNonEmpty(m)
    requires IsShuffler(batchShuffle)
  {
    TreebankSides(m);
    var included := SplitTreebank(m).1 + HeldIn(SplitTreebank(m).0);
    var ex := Flatten(HeldOutFiles(SplitTreebank(m).0));
    DefaultDealable(|included|, batchShuffle);
    var test := Part(included, DefaultRatio, true, batchShuffle, 1);
    |ex| > 0 && (|test| < Half(|ex|) || test == [] || OneFile(test, test[0].0))
  }

  /**
   * Lines 237-274 of `process_childes_xml`, from the reader's mapping on.
   * `split` is called with its default `shuffling=True`, so its batches are
   * arranged by `batchShuffle`; the final `shuffle` of each dataset uses
   * `arrange(name)` when `shuffling` is set.
   */
  method ProcessChildesXml(m: Mapping, splitting: bool, shuffling: bool,
                           batchShuffle: (nat, nat) -> seq<nat>, arrange: string -> Arrangement) returns (r: Output)
    requires DistinctKeys(m) && AllNonEmpty(m)
    requires IsShuffler(batchShuffle)
    ensures !splitting ==> r == Datasets([("train", Flatten(m))]) && FileContiguous(Flatten(m))
    ensures r.Raised? ==> splitting
    ensures splitting ==> (r.Raised? <==> RemixRaises(m, batchShuffle))
    ensures r.Datasets? && splitting ==> WellSplit(m, r.splits)
  {
    if !splitting {
      FlattenContiguous(m);
      return Datasets([("train", Flatten(m))]);
    }
    var trainSplit, validSplit, testSplit, excluded := DealFiles(m, batchShuffle);
    var remixed := RemixHeldOut(validSplit, testSplit, excluded);
    RemixIndexError(validSplit, testSplit, excluded);
    if remixed.IndexError? {
      return Raised;
    }
    var datasetDict := [("train", trainSplit), ("valid", remixed.valid), ("test", remixed.test), ("excluded", Flatten(excluded))];
    var splits := ShuffleAll(datasetDict, shuffling, arrange);
    r := Datasets(splits);
    ShuffledAllFacts(splits, datasetDict, shuffling, arrange);
    Assemble(m, trainSplit, validSplit, testSplit, excluded, datasetDict, splits);
  }
}
