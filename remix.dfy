/**
 * `remix_held_out`: the held-out treebank pairs are appended to `test`,
 * and a tail of `test` that starts where a file starts is moved to the
 * end of `valid`. Python's negative indexing is modelled exactly, so a
 * `reshuffle_size` of 0 or below reads the list from its front.
 */
module Remix {
  import opened Corpus
  import opened PyLists

  /** What `remix_held_out` returns, or the `IndexError` it raises. */
  datatype Outcome = Remixed(valid: Flat, test: Flat) | IndexError

  /** `int(excluded_size / 2)` for a non-negative size. */
  function Half(size: nat): int {
    size / 2
  }

  /**
   * The `reshuffle_size` at which the scan of line 184 stops: the first
   * value, counting down from `rs`, whose pair `test[-rs]` is not from
   * `cutoff`, or `None` when `test[-rs]` raises first.
   */
  function ScanFrom(test: Flat, cutoff: FileId, rs: int): (r: Option)
    decreases rs + |test|
  {
    if !InRange(|test|, -rs) then None
    else if Probe(test, rs) != cutoff then Some(rs)
    else ScanFrom(test, cutoff, rs - 1)
  }

  /** `test[-rs][0]`: the file id the scan reads for `reshuffle_size == rs`. */
  function Probe(test: Flat, rs: int): FileId
    requires InRange(|test|, -rs)
  {
    At(test, -rs).0
  }

  /** `test[-x]` is in range and from file `f`. */
  predicate ReadsFrom(test: Flat, x: int, f: FileId) {
    InRange(|test|, -x) && Probe(test, x) == f
  }

  datatype Option = None | Some(rs: int)

  /** The final `reshuffle_size`: half the excluded pairs, moved on to the next change of file when there are any. */
  function FinalSize(test: Flat, excluded: Mapping): Option {
    var size := |Flatten(excluded)|;
    if size == 0 then Some(0)
    else if !InRange(|test|, -Half(size)) then None
    else ScanFrom(test, Probe(test, Half(size)), Half(size))
  }

  /** The value of `remix_held_out(valid, test, excluded)`. */
  function Remix(valid: Flat, test: Flat, excluded: Mapping): (r: Outcome)
    ensures r.Remixed? ==> |r.valid| + |r.test| == |valid| + |test| + |Flatten(excluded)|
    ensures r.Remixed? ==> |r.valid| >= |valid| && r.valid[..|valid|] == valid
    ensures r.Remixed? ==> |r.test| >= |Flatten(excluded)| && r.test[|r.test| - |Flatten(excluded)|..] == Flatten(excluded)
    ensures r.Remixed? ==> r.test[..|r.test| - |Flatten(excluded)|] + r.valid[|valid|..] == test
    ensures Flatten(excluded) == [] ==> r == Remixed(valid + test, [])
  {
    match FinalSize(test, excluded)
    case None => IndexError
    case Some(rs) =>
      var moved, kept, ex := From(test, -rs), Upto(test, -rs), Flatten(excluded);
      UptoFrom(test, -rs);
      assert (valid + moved)[..|valid|] == valid && (valid + moved)[|valid|..] == moved;
      assert (kept + ex)[|kept|..] == ex && (kept + ex)[..|kept|] == kept;
      Remixed(valid + moved, kept + ex)
  }

  /** No pair is lost or made up: the two new lists hold the pairs of `valid`, `test` and the excluded files. */
  lemma RemixKeepsPairs(valid: Flat, test: Flat, excluded: Mapping)
    requires Remix(valid, test, excluded).Remixed?
    ensures var r := Remix(valid, test, excluded);
      multiset(r.valid) + multiset(r.test) == multiset(valid) + multiset(test) + multiset(Flatten(excluded))
  {
    var r := Remix(valid, test, excluded);
    var ex := Flatten(excluded);
    var kept, moved := r.test[..|r.test| - |ex|], r.valid[|valid|..];
    assert r.valid == valid + moved;
    assert r.test == kept + ex;
    assert multiset(kept + moved) == multiset(test);
  }

  /** `remix_held_out`, with its scan loop. */
  method RemixHeldOut(valid: Flat, test: Flat, excluded: Mapping) returns (r: Outcome)
    ensures r == Remix(valid, test, excluded)
  {
    var excludedUtterances := Flatten(excluded);
    var excludedSize := |excludedUtterances|;
    var reshuffleSize: int := excludedSize / 2;
    if excludedSize > 0 {
      if !InRange(|test|, -reshuffleSize) {
        return IndexError;
      }
      var cutoffFile := Probe(test, reshuffleSize);
      while true
        invariant ScanFrom(test, cutoffFile, reshuffleSize) == FinalSize(test, excluded)
        decreases reshuffleSize + |test|
      {
        if !InRange(|test|, -reshuffleSize) {
          return IndexError;
        }
        if cutoffFile != Probe(test, reshuffleSize) {
          break;
        }
        reshuffleSize := reshuffleSize - 1;
      }
    }
    r := Remixed(valid + From(test, -reshuffleSize), Upto(test, -reshuffleSize) + excludedUtterances);
  }

  /**
   * Where the scan stops: `test[-s]` is in range and from another file,
   * and every pair the scan passed on the way is from `cutoff`. When it
   * raises on a later read than the first, every pair it could read from
   * `rs` down is from `cutoff`.
   */
  lemma ScanStops(test: Flat, cutoff: FileId, rs: int)
    ensures ScanFrom(test, cutoff, rs).Some? ==>
      var s := ScanFrom(test, cutoff, rs).rs;
      s <= rs && InRange(|test|, -s) && Probe(test, s) != cutoff &&
      forall x :: s < x <= rs ==> ReadsFrom(test, x, cutoff)
    ensures ScanFrom(test, cutoff, rs).None? ==>
      rs > |test| || forall x :: x <= rs && InRange(|test|, -x) ==> ReadsFrom(test, x, cutoff)
  {
    if ScanFrom(test, cutoff, rs).Some? {
      var s := ScanFrom(test, cutoff, rs).rs;
      ScanStopsAt(test, cutoff, rs);
      assert forall x :: s < x <= rs ==> ReadsFrom(test, x, cutoff);
    } else {
      ScanRaises(test, cutoff, rs);
    }
  }

  lemma {:induction false} ScanStopsAt(test: Flat, cutoff: FileId, rs: int)
    requires ScanFrom(test, cutoff, rs).Some?
    ensures var s := ScanFrom(test, cutoff, rs).rs;
      s <= rs && InRange(|test|, -s) && Probe(test, s) != cutoff &&
      forall x :: s < x <= rs ==> ReadsFrom(test, x, cutoff)
    decreases rs + |test|
  {
    var s := ScanFrom(test, cutoff, rs).rs;
    if Probe(test, rs) == cutoff {
      assert ScanFrom(test, cutoff, rs) == ScanFrom(test, cutoff, rs - 1);
      ScanStopsAt(test, cutoff, rs - 1);
      forall x | s < x <= rs ensures ReadsFrom(test, x, cutoff) {
        if x < rs {
          assert s < x <= rs - 1;
        }
      }
    }
  }

  lemma {:induction false} ScanRaises(test: Flat, cutoff: FileId, rs: int)
    requires ScanFrom(test, cutoff, rs).None?
    ensures rs > |test| || forall x :: x <= rs && InRange(|test|, -x) ==> ReadsFrom(test, x, cutoff)
    decreases rs + |test|
  {
    if InRange(|test|, -rs) {
      ScanRaises(test, cutoff, rs - 1);
    }
  }

  /** Every pair of the list is from file `f`. */
  predicate OneFile(test: Flat, f: FileId) {
    forall i :: 0 <= i < |test| ==> test[i].0 == f
  }

  /**
   * `remix_held_out` raises `IndexError` exactly when there are excluded
   * pairs and either `test` is shorter than half of them or every pair of
   * `test` is from one file (an empty `test` included).
   */
  lemma RemixIndexError(valid: Flat, test: Flat, excluded: Mapping)
    ensures Remix(valid, test, excluded).IndexError? <==>
      |Flatten(excluded)| > 0 &&
      (|test| < Half(|Flatten(excluded)|) || test == [] || OneFile(test, test[0].0))
  {
    var size := |Flatten(excluded)|;
    var h := Half(size);
    if size > 0 && InRange(|test|, -h) {
      var cutoff := Probe(test, h);
      ScanStops(test, cutoff, h);
      if ScanFrom(test, cutoff, h).None? {
        forall i | 0 <= i < |test| ensures test[i].0 == test[0].0 {
          assert ReadsFrom(test, -i, cutoff);
          assert ReadsFrom(test, 0, cutoff);
        }
      }
    }
  }

  /**
   * When the scan stops, the cut between the part of `test` that stays
   * and the part moved to `valid` is a change of file id, and at least
   * one pair of `test` always moves. A cut at position 0 (a final
   * `reshuffle_size` of 0) moves all of `test`.
   */
  lemma RemixCutsAtFileChange(valid: Flat, test: Flat, excluded: Mapping)
    requires Remix(valid, test, excluded).Remixed? && |Flatten(excluded)| > 0
    ensures var c := |Remix(valid, test, excluded).test| - |Flatten(excluded)|;
      0 <= c < |test| &&
      Remix(valid, test, excluded).valid == valid + test[c..] &&
      Remix(valid, test, excluded).test == test[..c] + Flatten(excluded) &&
      (c > 0 ==> test[c - 1].0 != test[c].0)
  {
    var h := Half(|Flatten(excluded)|);
    ScanCut(test, Probe(test, h), h);
  }

  /**
   * The files of the new `valid` (`rv`) and the new `test` (`rt`) keep
   * every file of `test` whole: `rv` draws its files from `valid` and
   * `test`, `rt` from `test` and the excluded pairs `ex`, and a file on both
   * new sides is one that was already in `valid` or is an excluded one.
   */
  ghost predicate TestFilesWhole(valid: Flat, test: Flat, ex: Flat, rv: Flat, rt: Flat) {
    && FilesOf(rv) <= FilesOf(valid) + FilesOf(test)
    && FilesOf(rt) <= FilesOf(test) + FilesOf(ex)
    && FilesOf(rv) * FilesOf(rt) <= FilesOf(valid) + FilesOf(ex)
  }

  /** With each file of `test` in one run, the remix keeps every file of `test` whole. */
  lemma RemixKeepsTestFilesWhole(valid: Flat, test: Flat, excluded: Mapping)
    requires Remix(valid, test, excluded).Remixed? && FileContiguous(test)
    ensures var r := Remix(valid, test, excluded);
      TestFilesWhole(valid, test, Flatten(excluded), r.valid, r.test)
  {
    if Flatten(excluded) == [] {
      NothingHeldOut(valid, test, excluded);
    } else {
      HeldOutAtCut(valid, test, excluded);
    }
  }

  lemma NothingHeldOut(valid: Flat, test: Flat, excluded: Mapping)
    requires Flatten(excluded) == [] && FileContiguous(test)
    ensures var r := Remix(valid, test, excluded);
      TestFilesWhole(valid, test, Flatten(excluded), r.valid, r.test)
  {
    var r := Remix(valid, test, excluded);
    CutFiles(valid, test, [], 0, r.valid, r.test);
  }

  lemma HeldOutAtCut(valid: Flat, test: Flat, excluded: Mapping)
    requires Remix(valid, test, excluded).Remixed? && Flatten(excluded) != [] && FileContiguous(test)
    ensures var r := Remix(valid, test, excluded);
      TestFilesWhole(valid, test, Flatten(excluded), r.valid, r.test)
  {
    var r := Remix(valid, test, excluded);
    var ex := Flatten(excluded);
    RemixCutsAtFileChange(valid, test, excluded);
    CutFiles(valid, test, ex, |r.test| - |ex|, r.valid, r.test);
  }

  /** Cutting `test` at `c`, between two files, keeps its files whole. */
  lemma CutFiles(valid: Flat, test: Flat, ex: Flat, c: nat, rv: Flat, rt: Flat)
    requires FileContiguous(test) && c <= |test| && (0 < c < |test| ==> test[c - 1].0 != test[c].0)
    requires rv == valid + test[c..] && rt == test[..c] + ex
    ensures TestFilesWhole(valid, test, ex, rv, rt)
  {
    var kept, moved := test[..c], test[c..];
    FilesOfAppend(valid, moved);
    FilesOfAppend(kept, ex);
    assert test == kept + moved;
    FilesOfAppend(kept, moved);
    CutBetweenFiles(test, c);
    NoSharedFiles(kept, moved);
  }

  /** Where a scan that starts on a pair of `cutoff` and stops cuts `test`. */
  lemma ScanCut(test: Flat, cutoff: FileId, h: int)
    requires InRange(|test|, -h) && Probe(test, h) == cutoff && ScanFrom(test, cutoff, h).Some?
    ensures var s := ScanFrom(test, cutoff, h).rs;
      var c := |Upto(test, -s)|;
      0 <= c < |test| && Upto(test, -s) == test[..c] && From(test, -s) == test[c..] &&
      (c > 0 ==> test[c - 1].0 != test[c].0)
  {
    ScanStops(test, cutoff, h);
    var s := ScanFrom(test, cutoff, h).rs;
    var c := |Upto(test, -s)|;
    assert test[c].0 == Probe(test, s) != cutoff;
    if c > 0 {
      assert ReadsFrom(test, s + 1, cutoff);
      assert test[c - 1].0 == Probe(test, s + 1) == cutoff;
    }
  }

  /** The first position at or after `i` whose pair is not from file `f` (the end of `test` if there is none). */
  function NextFileStart(test: Flat, f: FileId, i: nat): (c: nat)
    requires i <= |test|
    ensures i <= c <= |test|
    ensures forall t :: i <= t < c ==> test[t].0 == f
    ensures c < |test| ==> test[c].0 != f
    decreases |test| - i
  {
    if i == |test| || test[i].0 != f then i else NextFileStart(test, f, i + 1)
  }

  /**
   * `remix_held_out` as its comments describe it: `reshuffle_size` pairs
   * are counted from the end of `test` (none when it is 0), and the cut
   * moves towards the end up to the next change of file, so no file is
   * split and never more than half the excluded pairs' worth of `test`
   * moves.
   */
  function RemixCorrected(valid: Flat, test: Flat, excluded: Mapping): (r: Outcome)
    ensures r.IndexError? <==> Half(|Flatten(excluded)|) > |test|
    ensures r.Remixed? ==> |r.valid| + |r.test| == |valid| + |test| + |Flatten(excluded)|
    ensures r.Remixed? ==>
      (exists c :: |test| - Half(|Flatten(excluded)|) <= c <= |test| &&
         r.valid == valid + test[c..] && r.test == test[..c] + Flatten(excluded) &&
         (0 < c < |test| ==> test[c - 1].0 != test[c].0))
    ensures Flatten(excluded) == [] ==> r == Remixed(valid, test)
  {
    var h := Half(|Flatten(excluded)|);
    if h > |test| then IndexError
    else
      var c := if h == 0 then |test| else NextFileStart(test, test[|test| - h].0, |test| - h);
      assert test[..c] + test[c..] == test;
      assert Flatten(excluded) == [] ==> test[..c] + Flatten(excluded) == test;
      assert 0 < c < |test| ==> test[c - 1].0 != test[c].0;
      var r := Remixed(valid + test[c..], test[..c] + Flatten(excluded));
      assert r.valid == valid + test[c..] && r.test == test[..c] + Flatten(excluded);
      r
  }

  /**
   * The two versions on the smallest input that tells them apart: a
   * `test` of two files and two excluded pairs. As written the scan walks
   * from `test[-1]` to `test[-0]`, which is `test[0]`, and moves all of
   * `test` into `valid`; the corrected version moves nothing, because the
   * last file of `test` already ends the list.
   */
  lemma RemixWrapsToFront()
    ensures var test := [("a", ["hi"]), ("b", ["yo"])];
      var excluded := [("x", [["one"], ["two"]])];
      Remix([], test, excluded) == Remixed(test, Flatten(excluded)) &&
      RemixCorrected([], test, excluded) == Remixed([], test + Flatten(excluded))
  {
    var test: Flat := [("a", ["hi"]), ("b", ["yo"])];
    var excluded: Mapping := [("x", [["one"], ["two"]])];
    assert Flatten(excluded) == [("x", ["one"]), ("x", ["two"])] by {
      assert Flatten(excluded) == Expand("x", [["one"], ["two"]]) + Flatten([]);
    }
    assert ScanFrom(test, "b", 1) == ScanFrom(test, "b", 0) == Some(0);
    assert NextFileStart(test, "b", 1) == NextFileStart(test, "b", 2) == 2;
  }
}
