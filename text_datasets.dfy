/**
 * `clean_and_unk`: every split of a text dataset cleaned and split into
 * tokens, a vocabulary built from the training split, and, when unking,
 * the unknown words of the train, valid and test splits replaced.
 */
module TextDatasets {
  import opened Dicts
  import opened Corpus
  import opened Tokens
  import opened Vocab

  /** The splits of a dataset by name: a dict, so in insertion order. */
  type Splits = seq<(string, Flat)>

  /** The result of `clean_and_unk`, or the `KeyError` of a dataset without "train". */
  datatype Outcome = Cleaned(dataset: Splits, vocab: seq<Token>) | KeyError

  /** One split as the two comprehensions of `clean_and_unk` leave it: cleaned, then its lines split. */
  function Prepare(data: Flat): Flat {
    SplitData(CleanAndListify(data))
  }

  /** `{split: clean_and_listify(data) ...}` followed by `{split: split_data(data) ...}` */
  function PrepareAll(dataset: Splits): (r: Splits)
    ensures |r| == |dataset|
    ensures forall i :: 0 <= i < |r| ==> r[i].0 == dataset[i].0
  {
    var cleaned := seq(|dataset|, i requires 0 <= i < |dataset| => (dataset[i].0, CleanAndListify(dataset[i].1)));
    seq(|cleaned|, i requires 0 <= i < |cleaned| => (cleaned[i].0, SplitData(cleaned[i].1)))
  }

  /** The splits `clean_and_unk` unks, in the order it visits them. */
  const UnkedSplits: seq<string> := ["train", "valid", "test"]

  /** The vocabulary `make_vocab` builds from the prepared training split. */
  function TrainVocabulary(dataset: Splits, cutoff: int): seq<(Token, nat)>
    requires "train" in Keys(dataset)
  {
    Vocabulary(Prepare(Get(dataset, "train")), cutoff)
  }

  /** After visiting `UnkedSplits[..s]`: those of them present are unked, every other split is as prepared. */
  ghost predicate UnkedUpTo(splits: Splits, prepared: Splits, s: nat, vocab: seq<(Token, nat)>, unkToken: Token)
    requires s <= |UnkedSplits|
  {
    && |splits| == |prepared|
    && forall i :: 0 <= i < |splits| ==>
         splits[i].0 == prepared[i].0 &&
         splits[i].1 == if prepared[i].0 in UnkedSplits[..s] then Unked(prepared[i].1, vocab, unkToken) else prepared[i].1
  }

  lemma PrepareAllKeys(dataset: Splits)
    requires DistinctKeys(dataset)
    ensures DistinctKeys(PrepareAll(dataset))
    ensures forall k :: k in Keys(PrepareAll(dataset)) <==> k in Keys(dataset)
  {
    var r := PrepareAll(dataset);
    forall k ensures k in Keys(r) <==> k in Keys(dataset) {
      if k in Keys(r) {
        var i :| 0 <= i < |r| && Keys(r)[i] == k;
        assert Keys(dataset)[i] == k;
      }
      if k in Keys(dataset) {
        var i :| 0 <= i < |dataset| && Keys(dataset)[i] == k;
        assert Keys(r)[i] == k;
      }
    }
  }

  /** Looking a split up after preparing is preparing the split looked up. */
  lemma PrepareAllGet(dataset: Splits, k: string)
    requires DistinctKeys(dataset) && k in Keys(dataset)
    ensures k in Keys(PrepareAll(dataset))
    ensures Get(PrepareAll(dataset), k) == Prepare(Get(dataset, k))
  {
    PrepareAllKeys(dataset);
    var i := IndexOf(dataset, k);
    IndexOfUnique(PrepareAll(dataset), i);
  }

  /** One visit of the unking loop: the visited split, when present, is unked in place. */
  lemma UnkStep(splits: Splits, prepared: Splits, s: nat, vocab: seq<(Token, nat)>, unkToken: Token, unked: Flat)
    requires s < |UnkedSplits| && DistinctKeys(prepared)
    requires UnkedUpTo(splits, prepared, s, vocab, unkToken)
    requires UnkedSplits[s] in Keys(splits) ==> unked == Unked(Get(splits, UnkedSplits[s]), vocab, unkToken)
    ensures UnkedSplits[s] in Keys(splits) ==> UnkedUpTo(Put(splits, UnkedSplits[s], unked), prepared, s + 1, vocab, unkToken)
    ensures UnkedSplits[s] !in Keys(splits) ==> UnkedUpTo(splits, prepared, s + 1, vocab, unkToken)
  {
    var name := UnkedSplits[s];
    assert UnkedSplits[..s + 1] == UnkedSplits[..s] + [name];
    assert name !in UnkedSplits[..s];
    if name in Keys(splits) {
      var idx := IndexOf(splits, name);
      var next := Put(splits, name, unked);
      assert splits[idx].1 == prepared[idx].1;
      forall i | 0 <= i < |next|
        ensures next[i].0 == prepared[i].0
        ensures next[i].1 == if prepared[i].0 in UnkedSplits[..s + 1] then Unked(prepared[i].1, vocab, unkToken) else prepared[i].1
      {
        if i == idx {
          assert next[i] == (name, unked);
        } else {
          assert prepared[i].0 != name;
          assert next[i] == splits[i];
        }
      }
    } else {
      forall i | 0 <= i < |splits| ensures prepared[i].0 != name {
        assert Keys(splits)[i] == splits[i].0;
      }
    }
  }

  /**
   * `clean_and_unk(dataset, unking, unk_token, cutoff)`. Every split is
   * cleaned and split; the vocabulary comes from the training split alone,
   * whose absence raises `KeyError`; when unking, exactly the train, valid
   * and test splits are unked against it and the returned word list starts
   * with the unknown token; the splits keep their names and order.
   */
  method CleanAndUnk(dataset: Splits, unking: bool, unkToken: Token, cutoff: int) returns (r: Outcome)
    requires DistinctKeys(dataset)
    ensures r.KeyError? <==> "train" !in Keys(dataset)
    ensures r.Cleaned? ==> |r.dataset| == |dataset|
    ensures r.Cleaned? ==> forall i :: 0 <= i < |dataset| ==>
      r.dataset[i].0 == dataset[i].0 &&
      r.dataset[i].1 == if unking && dataset[i].0 in UnkedSplits
                        then Unked(Prepare(dataset[i].1), TrainVocabulary(dataset, cutoff), unkToken)
                        else Prepare(dataset[i].1)
    ensures r.Cleaned? ==> r.vocab == (if unking then [unkToken] else []) + Keys(TrainVocabulary(dataset, cutoff))
  {
    var prepared := PrepareAll(dataset);
    PrepareAllKeys(dataset);
    if "train" !in Keys(prepared) {
      return KeyError;
    }
    PrepareAllGet(dataset, "train");
    var vocab := MakeVocab(Get(prepared, "train"), cutoff);
    var splits := prepared;
    var vocabList: seq<Token>;
    if unking {
      for s := 0 to |UnkedSplits|
        invariant UnkedUpTo(splits, prepared, s, vocab, unkToken)
      {
        var name := UnkedSplits[s];
        if name in Keys(splits) {
          var unked := Unk(Get(splits, name), vocab, unkToken);
          UnkStep(splits, prepared, s, vocab, unkToken, unked);
          splits := Put(splits, name, unked);
        } else {
          UnkStep(splits, prepared, s, vocab, unkToken, []);
        }
      }
      vocabList := [unkToken] + Keys(vocab);
    } else {
      vocabList := Keys(vocab);
    }
    PreparedSplits(dataset, splits, unking, vocab, unkToken);
    r := Cleaned(splits, vocabList);
  }

  /** Once the unking loop is done, or skipped, each split is its own prepared split, unked when it is one of `UnkedSplits`. */
  lemma PreparedSplits(dataset: Splits, splits: Splits, unking: bool, vocab: seq<(Token, nat)>, unkToken: Token)
    requires unking ==> UnkedUpTo(splits, PrepareAll(dataset), |UnkedSplits|, vocab, unkToken)
    requires !unking ==> splits == PrepareAll(dataset)
    ensures |splits| == |dataset|
    ensures forall i :: 0 <= i < |dataset| ==>
      splits[i].0 == dataset[i].0 &&
      splits[i].1 == if unking && dataset[i].0 in UnkedSplits
                     then Unked(Prepare(dataset[i].1), vocab, unkToken)
                     else Prepare(dataset[i].1)
  {
    assert UnkedSplits[..|UnkedSplits|] == UnkedSplits;
  }

  /**
   * When unking, every token of a train, valid or test split is in the
   * returned word list: a word of the vocabulary or the unknown token.
   */
  lemma UnkedTokensListed(data: Flat, vocab: seq<(Token, nat)>, unkToken: Token)
    ensures forall i, j :: 0 <= i < |Unked(data, vocab, unkToken)| && 0 <= j < |Unked(data, vocab, unkToken)[i].1| ==>
      Unked(data, vocab, unkToken)[i].1[j] in [unkToken] + Keys(vocab)
  {
    UnkedShape(data, vocab, unkToken);
  }
}
