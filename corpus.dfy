/**
 * The data model of the corpus pipeline: utterances, the file-id to
 * utterances mapping (a dict, so insertion-ordered) and the flat
 * (file id, utterance) lists that every output split is made of.
 */
module Corpus {
  import opened Dicts
  import opened Seqs

  type Token = string
  /** One spoken turn: its tokens in order. */
  type Utterance = seq<Token>
  type FileId = string
  /** `files_to_utterances`: file id to that file's utterances, in dict order. */
  type Mapping = seq<(FileId, seq<Utterance>)>
  /** A flat list of (file id, utterance) pairs. */
  type Flat = seq<(FileId, Utterance)>

  /** `[(f, utt) for utt in utts]`: one file's utterances, each tagged with its file id. */
  function Expand(f: FileId, utts: seq<Utterance>): (r: Flat)
    ensures |r| == |utts|
    ensures forall i :: 0 <= i < |r| ==> r[i] == (f, utts[i])
  {
    seq(|utts|, i requires 0 <= i < |utts| => (f, utts[i]))
  }

  function ExpandEntry(e: (FileId, seq<Utterance>)): Flat {
    Expand(e.0, e.1)
  }

  /**
   * `files_to_utterances_to_data`: all pairs, file after file in dict
   * order: every pair carries the id of the file it comes from.
   */
  function Flatten(m: Mapping): (r: Flat)
    ensures forall i :: 0 <= i < |r| ==> r[i].0 in Keys(m)
  {
    ExpandedFiles(m);
    ConcatMap(m, ExpandEntry)
  }

  /** Total number of utterances over all files. */
  function TotalUtterances(m: Mapping): nat {
    if m == [] then 0 else |m[0].1| + TotalUtterances(m[1..])
  }

  function Picker(m: Mapping): nat -> Mapping {
    (i: nat) => if i < |m| then [m[i]] else []
  }

  /** `[m[i] for i in idx]`; a position outside `m` (it never occurs) contributes nothing. */
  function Pick(m: Mapping, idx: seq<nat>): Mapping {
    ConcatMap(idx, Picker(m))
  }

  /** With every position inside `m`, `Pick` takes one file per position. */
  lemma {:induction false} PickInRange(m: Mapping, idx: seq<nat>)
    requires forall t :: 0 <= t < |idx| ==> idx[t] < |m|
    ensures |Pick(m, idx)| == |idx|
    ensures forall t :: 0 <= t < |idx| ==> Pick(m, idx)[t] == m[idx[t]]
  {
    if idx != [] {
      PickInRange(m, idx[1..]);
    }
  }

  /** `list(range(lo, hi))` */
  function Range(lo: nat, hi: nat): (r: seq<nat>)
    ensures |r| == if lo <= hi then hi - lo else 0
    ensures forall t :: 0 <= t < |r| ==> r[t] == lo + t
  {
    seq(if lo <= hi then hi - lo else 0, t => lo + t)
  }

  /** Every file's pairs form a single run: a file id never reappears after another file's pairs. */
  ghost predicate FileContiguous(d: Flat) {
    forall i, j, k :: 0 <= i < j < k < |d| && d[i].0 == d[k].0 ==> d[j].0 == d[i].0
  }

  lemma FlattenAppend(a: Mapping, b: Mapping)
    ensures Flatten(a + b) == Flatten(a) + Flatten(b)
  {
    ConcatMapAppend(a, b, ExpandEntry);
  }

  /** The flat list holds exactly as many pairs as the mapping holds utterances. */
  lemma {:induction false} FlattenSize(m: Mapping)
    ensures |Flatten(m)| == TotalUtterances(m)
  {
    if m != [] {
      FlattenSize(m[1..]);
    }
  }

  lemma {:induction false} ExpandedFiles(m: Mapping)
    ensures forall i :: 0 <= i < |ConcatMap(m, ExpandEntry)| ==> ConcatMap(m, ExpandEntry)[i].0 in Keys(m)
  {
    if m != [] {
      ExpandedFiles(m[1..]);
      var e := Expand(m[0].0, m[0].1);
      var d := ConcatMap(m, ExpandEntry);
      forall i | 0 <= i < |d| ensures d[i].0 in Keys(m) {
        if i < |e| {
          assert Keys(m)[0] == m[0].0;
        } else {
          assert d[i] == ConcatMap(m[1..], ExpandEntry)[i - |e|];
          assert Keys(m) == [m[0].0] + Keys(m[1..]);
        }
      }
    }
  }

  /** Reordering the files reorders the pairs: the pairs as a multiset stay the same. */
  lemma FlattenPerm(a: Mapping, b: Mapping)
    requires multiset(a) == multiset(b)
    ensures multiset(Flatten(a)) == multiset(Flatten(b))
  {
    ConcatMapPerm(a, b, ExpandEntry);
  }

  /**
   * Distinct file ids in the mapping give a flat list in which each file's
   * pairs are one contiguous run.
   */
  lemma {:induction false} FlattenContiguous(m: Mapping)
    requires DistinctKeys(m)
    ensures FileContiguous(Flatten(m))
  {
    if m != [] {
      FlattenContiguous(m[1..]);
      assert Flatten(m) == Expand(m[0].0, m[0].1) + Flatten(m[1..]);
      assert m[0].0 !in Keys(m[1..]) by {
        forall t | 0 <= t < |m[1..]| ensures Keys(m[1..])[t] != m[0].0 {
          assert m[1..][t] == m[t + 1];
        }
      }
      OneFileThenRest(m[0].0, Expand(m[0].0, m[0].1), Flatten(m[1..]), Keys(m[1..]));
    }
  }

  /** One file's run followed by a contiguous list of other files' pairs is contiguous. */
  lemma OneFileThenRest(f: FileId, e: Flat, rest: Flat, others: seq<FileId>)
    requires forall i :: 0 <= i < |e| ==> e[i].0 == f
    requires FileContiguous(rest)
    requires forall i :: 0 <= i < |rest| ==> rest[i].0 in others
    requires f !in others
    ensures FileContiguous(e + rest)
  {
    var d := e + rest;
    forall i, j, k | 0 <= i < j < k < |d| && d[i].0 == d[k].0 ensures d[j].0 == d[i].0 {
      if i < |e| {
        assert d[i] == e[i];
        if k >= |e| {
          assert false;
        }
      }
    }
  }

  lemma PickAppend(m: Mapping, a: seq<nat>, b: seq<nat>)
    ensures Pick(m, a + b) == Pick(m, a) + Pick(m, b)
  {
    ConcatMapAppend(a, b, Picker(m));
  }

  /** Choosing the same indices in another order chooses the same files. */
  lemma PickPerm(m: Mapping, a: seq<nat>, b: seq<nat>)
    requires multiset(a) == multiset(b)
    ensures multiset(Pick(m, a)) == multiset(Pick(m, b))
  {
    ConcatMapPerm(a, b, Picker(m));
  }

  /** Choosing every index once, in any order, gives back the whole mapping as a multiset. */
  lemma PickAll(m: Mapping, idx: seq<nat>)
    requires multiset(idx) == multiset(Range(0, |m|))
    ensures multiset(Pick(m, idx)) == multiset(m)
  {
    PickPerm(m, Range(0, |m|), idx);
    PickInRange(m, Range(0, |m|));
    assert Pick(m, Range(0, |m|)) == m;
  }

  /** Distinct indices into a mapping with distinct keys pick files with distinct keys. */
  lemma PickDistinct(m: Mapping, idx: seq<nat>)
    requires DistinctKeys(m) && Distinct(idx)
    requires forall t :: 0 <= t < |idx| ==> idx[t] < |m|
    ensures DistinctKeys(Pick(m, idx))
  {
    PickInRange(m, idx);
  }

  lemma RangeAppend(a: nat, b: nat, c: nat)
    requires a <= b <= c
    ensures Range(a, b) + Range(b, c) == Range(a, c)
  {
  }

  /** No file id has pairs in both lists. */
  ghost predicate NoSharedFile(d: Flat, e: Flat) {
    forall x, y :: 0 <= x < |d| && 0 <= y < |e| ==> d[x].0 != e[y].0
  }

  /** The ids of the files that have a pair in the list. */
  ghost function FilesOf(d: Flat): set<FileId> {
    set p | p in d :: p.0
  }

  /** Two lists share no file exactly when their file sets are disjoint. */
  lemma NoSharedFiles(d: Flat, e: Flat)
    ensures NoSharedFile(d, e) <==> FilesOf(d) !! FilesOf(e)
  {
    if NoSharedFile(d, e) {
      forall p, q | p in d && q in e ensures p.0 != q.0 {
        var x :| 0 <= x < |d| && d[x] == p;
        var y :| 0 <= y < |e| && e[y] == q;
      }
    } else {
      var x, y :| 0 <= x < |d| && 0 <= y < |e| && d[x].0 == e[y].0;
      assert d[x] in d && e[y] in e;
      assert d[x].0 in FilesOf(d) && d[x].0 in FilesOf(e);
    }
  }

  lemma FilesOfAppend(a: Flat, b: Flat)
    ensures FilesOf(a + b) == FilesOf(a) + FilesOf(b)
  {
    forall f | f in FilesOf(a + b) ensures f in FilesOf(a) + FilesOf(b) {
      var p :| p in a + b && p.0 == f;
      assert p in multiset(a + b);
    }
    forall f | f in FilesOf(a) + FilesOf(b) ensures f in FilesOf(a + b) {
      if p :| p in a && p.0 == f {
        assert p in multiset(a + b);
      } else {
        var q :| q in b && q.0 == f;
        assert q in multiset(a + b);
      }
    }
  }

  /** A list whose pairs are among another's has no file the other lacks. */
  lemma FilesOfSub(a: Flat, b: Flat)
    requires multiset(a) <= multiset(b)
    ensures FilesOf(a) <= FilesOf(b)
  {
    forall f | f in FilesOf(a) ensures f in FilesOf(b) {
      var p :| p in a && p.0 == f;
      assert p in multiset(a);
    }
  }

  /**
   * Cutting a list whose files each lie in one run, at the start, the end
   * or a change of file id, leaves no file on both sides.
   */
  lemma CutBetweenFiles(d: Flat, c: nat)
    requires FileContiguous(d) && c <= |d|
    requires 0 < c < |d| ==> d[c - 1].0 != d[c].0
    ensures NoSharedFile(d[..c], d[c..])
  {
    forall x, y | 0 <= x < c && 0 <= y < |d| - c ensures d[..c][x].0 != d[c..][y].0 {
      assert d[..c][x] == d[x] && d[c..][y] == d[c + y];
      assert d[c - 1].0 != d[c].0;
    }
  }

  /** Files of two mappings whose ids are all distinct give lists that share no file. */
  lemma FlattenApart(a: Mapping, b: Mapping)
    requires DistinctKeys(a + b)
    ensures NoSharedFile(Flatten(a), Flatten(b))
  {
    var d, e := Flatten(a), Flatten(b);
    forall x, y | 0 <= x < |d| && 0 <= y < |e| ensures d[x].0 != e[y].0 {
      var s :| 0 <= s < |a| && Keys(a)[s] == d[x].0;
      var t :| 0 <= t < |b| && Keys(b)[t] == e[y].0;
      assert (a + b)[s] == a[s] && (a + b)[|a| + t] == b[t];
    }
  }

  /** Files picked at different positions of a mapping with distinct ids share no file id. */
  lemma PickApart(m: Mapping, a: seq<nat>, b: seq<nat>)
    requires DistinctKeys(m)
    requires forall t :: 0 <= t < |a| ==> a[t] < |m|
    requires forall t :: 0 <= t < |b| ==> b[t] < |m|
    requires forall p :: p in a ==> p !in b
    ensures NoSharedFile(Flatten(Pick(m, a)), Flatten(Pick(m, b)))
  {
    var d, e := Flatten(Pick(m, a)), Flatten(Pick(m, b));
    forall x, y | 0 <= x < |d| && 0 <= y < |e| ensures d[x].0 != e[y].0 {
      var s := PickedFile(m, a, x);
      var t := PickedFile(m, b, y);
      assert a[s] in a;
    }
  }

  /** The file id of a pair of the picked files' pairs is that of a picked position. */
  lemma PickedFile(m: Mapping, a: seq<nat>, x: nat) returns (s: nat)
    requires forall t :: 0 <= t < |a| ==> a[t] < |m|
    requires x < |Flatten(Pick(m, a))|
    ensures s < |a| && Flatten(Pick(m, a))[x].0 == m[a[s]].0
  {
    PickInRange(m, a);
    s :| 0 <= s < |a| && Keys(Pick(m, a))[s] == Flatten(Pick(m, a))[x].0;
  }
}
