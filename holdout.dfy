/**
 * The stratified hold-out of treebank files (`count_questions`,
 * `sort_dict_by_number_of_questions`, `hold_out`).
 */
module HoldOut {
  import opened Dicts
  import opened Seqs
  import opened Sorting
  import opened Corpus
  import opened Arith

  /** `sent[-1] == '?'`: the utterance ends in a question mark. */
  predicate IsQuestion(sent: Utterance)
    requires |sent| > 0
  {
    sent[|sent| - 1] == "?"
  }

  /** No utterance is empty (the corpus reader drops empty ones; `sent[-1]` relies on it). */
  predicate NonEmptyUtterances(sents: seq<Utterance>) {
    forall u :: 0 <= u < |sents| ==> |sents[u]| > 0
  }

  predicate AllNonEmpty(m: Mapping) {
    forall t :: 0 <= t < |m| ==> NonEmptyUtterances(m[t].1)
  }

  /** `count_questions`: how many of the utterances are questions. */
  function CountQuestions(sents: seq<Utterance>): (n: nat)
    requires NonEmptyUtterances(sents)
    ensures n <= |sents|
    ensures n == 0 <==> forall u :: 0 <= u < |sents| ==> !IsQuestion(sents[u])
    ensures n == |sents| <==> forall u :: 0 <= u < |sents| ==> IsQuestion(sents[u])
  {
    if sents == [] then 0
    else
      assert forall u :: 1 <= u < |sents| ==> sents[u] == sents[1..][u - 1];
      (if IsQuestion(sents[0]) then 1 else 0) + CountQuestions(sents[1..])
  }

  /**
   * The sort key of `sort_dict_by_number_of_questions`. The guard only
   * matters for files with an empty utterance, where Python would raise;
   * `HoldOut` excludes those.
   */
  function QuestionKey(e: (FileId, seq<Utterance>)): int {
    if NonEmptyUtterances(e.1) then CountQuestions(e.1) else 0
  }

  /** `sort_dict_by_number_of_questions`: stable, fewest questions first. */
  function SortDictByNumberOfQuestions(m: Mapping): (r: Mapping)
    requires AllNonEmpty(m)
    ensures |r| == |m|
    ensures multiset(r) == multiset(m)
    ensures AllNonEmpty(r)
    ensures DistinctKeys(m) ==> DistinctKeys(r)
  {
    var r := SortBy(m, QuestionKey);
    assert AllNonEmpty(r) by {
      forall t | 0 <= t < |r| ensures NonEmptyUtterances(r[t].1) {
        assert r[t] in multiset(m);
      }
    }
    assert DistinctKeys(m) ==> DistinctKeys(r) by {
      if DistinctKeys(m) {
        PermDistinctKeys(m, r);
      }
    }
    r
  }

  /** The sorted files come with non-decreasing numbers of questions. */
  lemma SortDictByNumberOfQuestionsOrdered(m: Mapping)
    requires AllNonEmpty(m)
    ensures var r := SortDictByNumberOfQuestions(m);
      forall i, j :: 0 <= i < j < |r| ==> CountQuestions(r[i].1) <= CountQuestions(r[j].1)
  {
    var r := SortDictByNumberOfQuestions(m);
    forall i, j | 0 <= i < j < |r| ensures CountQuestions(r[i].1) <= CountQuestions(r[j].1) {
      assert QuestionKey(r[i]) <= QuestionKey(r[j]);
    }
  }

  /** Files with the same number of questions keep their dict order. */
  lemma SortDictByNumberOfQuestionsStable(m: Mapping, c: int)
    requires AllNonEmpty(m)
    ensures WithKey(SortDictByNumberOfQuestions(m), QuestionKey, c) == WithKey(m, QuestionKey, c)
  {
    SortByStable(m, QuestionKey, c);
  }

  /**
   * The entries of `s` at the positions `i` with `i % k == 0` (`take`) or
   * with `i % k != 0` (`!take`), in order. Python's `%` and Dafny's differ
   * for a negative `k`, but agree on whether the remainder is zero.
   */
  function Strided<T>(s: seq<T>, k: int, take: bool): seq<T>
    requires k != 0 || s == []
  {
    if s == [] then []
    else Strided(s[..|s| - 1], k, take) + (if ((|s| - 1) % k == 0) == take then [s[|s| - 1]] else [])
  }

  /** The two strided halves share out the entries of `s`. */
  lemma {:induction false} StridedSplit<T>(s: seq<T>, k: int)
    requires k != 0 || s == []
    ensures multiset(Strided(s, k, true)) + multiset(Strided(s, k, false)) == multiset(s)
  {
    if s != [] {
      StridedSplit(s[..|s| - 1], k);
      assert s == s[..|s| - 1] + [s[|s| - 1]];
    }
  }

  /** Exactly ceil(n / |k|) positions of `0 .. n-1` are multiples of `k`. */
  lemma {:induction false} StridedCount<T>(s: seq<T>, k: int)
    requires k != 0
    ensures |Strided(s, k, true)| == CeilDiv(|s|, k)
  {
    if s != [] {
      var n := |s| - 1;
      StridedCount(s[..n], k);
      ModAbs(n, k);
      CeilStep(n, Abs(k));
    }
  }

  /** Extending the prefix by position `i` extends exactly one of the two halves by `s[i]`. */
  lemma StridedSnoc<T>(s: seq<T>, k: int, i: nat)
    requires i < |s| && k != 0
    ensures i % k == 0 ==> Strided(s[..i + 1], k, true) == Strided(s[..i], k, true) + [s[i]]
    ensures i % k == 0 ==> Strided(s[..i + 1], k, false) == Strided(s[..i], k, false)
    ensures i % k != 0 ==> Strided(s[..i + 1], k, true) == Strided(s[..i], k, true)
    ensures i % k != 0 ==> Strided(s[..i + 1], k, false) == Strided(s[..i], k, false) + [s[i]]
  {
    assert s[..i + 1][..i] == s[..i];
  }

  /** A key at position `i` of a dict is none of the keys before it, whichever half they went to. */
  lemma StridedFresh<K, V>(d: seq<(K, V)>, k: int, i: nat, take: bool)
    requires DistinctKeys(d) && i < |d| && k != 0
    ensures d[i].0 !in Keys(Strided(d[..i], k, take))
  {
    var half := Strided(d[..i], k, take);
    assert multiset(half) <= multiset(d[..i]) by {
      StridedSplit(d[..i], k);
    }
    forall t | 0 <= t < |half| ensures half[t].0 != d[i].0 {
      assert half[t] in multiset(d[..i]);
      var j :| 0 <= j < i && d[..i][j] == half[t];
      assert d[j] == half[t];
    }
  }

  /**
   * One round of the `hold_out` loop at a position that is a multiple of `k`:
   * the entry is looked up, put into the excluded dict and popped from the
   * included one.
   */
  lemma HoldOutHit<K, V>(d: seq<(K, V)>, k: int, i: nat)
    requires DistinctKeys(d) && i < |d| && k != 0 && i % k == 0
    ensures var inc, exc := Strided(d[..i], k, false) + d[i..], Strided(d[..i], k, true);
      && d[i].0 in Keys(inc)
      && Remove(inc, d[i].0) == Strided(d[..i + 1], k, false) + d[i + 1..]
      && Put(exc, d[i].0, Get(inc, d[i].0)) == Strided(d[..i + 1], k, true)
  {
    var kept, gone := Strided(d[..i], k, false), Strided(d[..i], k, true);
    StridedSnoc(d, k, i);
    assert kept + d[i..] == kept + [d[i]] + d[i + 1..] by {
      assert d[i..] == [d[i]] + d[i + 1..];
    }
    assert d[i].0 !in Keys(kept) by {
      StridedFresh(d, k, i, false);
    }
    assert Put(gone, d[i].0, d[i].1) == gone + [d[i]] by {
      StridedFresh(d, k, i, true);
    }
    GetRemoveAt(kept, d[i], d[i + 1..]);
  }

  /** One round of the `hold_out` loop at any other position: nothing moves. */
  lemma HoldOutMiss<T>(s: seq<T>, k: int, i: nat)
    requires i < |s| && k != 0 && i % k != 0
    ensures Strided(s[..i], k, false) + s[i..] == Strided(s[..i + 1], k, false) + s[i + 1..]
    ensures Strided(s[..i], k, true) == Strided(s[..i + 1], k, true)
  {
    StridedSnoc(s, k, i);
    assert s[i..] == [s[i]] + s[i + 1..];
  }

  /**
   * `hold_out(files_to_utterances, exclude_every_kth)`: sorts the files by
   * their number of questions and moves every k-th of them, starting with
   * the first, from `included` into `excluded`, so that the excluded files
   * spread evenly over the question counts.
   */
  method HoldOut(m: Mapping, k: int) returns (included: Mapping, excluded: Mapping)
    requires DistinctKeys(m)
    requires AllNonEmpty(m)
    requires k != 0 || m == []
    ensures included == Strided(SortDictByNumberOfQuestions(m), k, false)
    ensures excluded == Strided(SortDictByNumberOfQuestions(m), k, true)
  {
    var sorted := SortDictByNumberOfQuestions(m);
    included := sorted;
    excluded := [];
    for i := 0 to |sorted|
      invariant included == Strided(sorted[..i], k, false) + sorted[i..]
      invariant excluded == Strided(sorted[..i], k, true)
    {
      var file := sorted[i].0;
      if i % k == 0 {
        HoldOutHit(sorted, k, i);
        var utts := Get(included, file);
        excluded := Put(excluded, file, utts);
        included := Remove(included, file);
      } else {
        HoldOutMiss(sorted, k, i);
      }
    }
    assert sorted[..|sorted|] == sorted;
  }

  /** The two halves of a dict share out its entries, keep its keys apart and the taken half has ceil(n / |k|) entries. */
  lemma StridedPartition<K, V>(d: seq<(K, V)>, k: int)
    requires DistinctKeys(d) && k != 0
    ensures multiset(Strided(d, k, false)) + multiset(Strided(d, k, true)) == multiset(d)
    ensures DistinctKeys(Strided(d, k, false) + Strided(d, k, true))
    ensures |Strided(d, k, true)| == CeilDiv(|d|, k)
  {
    StridedSplit(d, k);
    PermDistinctKeys(d, Strided(d, k, false) + Strided(d, k, true));
    StridedCount(d, k);
  }

  /**
   * What `hold_out` promises: included and excluded share out the files of
   * `m` unchanged, no file is in both, and ceil(n / |k|) files are excluded.
   */
  lemma HoldOutPartition(m: Mapping, k: int)
    requires DistinctKeys(m) && AllNonEmpty(m) && k != 0
    ensures var sorted := SortDictByNumberOfQuestions(m);
      var included, excluded := Strided(sorted, k, false), Strided(sorted, k, true);
      && multiset(included) + multiset(excluded) == multiset(m)
      && DistinctKeys(included + excluded)
      && |excluded| == CeilDiv(|m|, k)
  {
    var sorted := SortDictByNumberOfQuestions(m);
    assert DistinctKeys(sorted) && |sorted| == |m| && multiset(sorted) == multiset(m);
    StridedPartition(sorted, k);
  }
}
