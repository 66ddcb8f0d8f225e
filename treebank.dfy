/** Telling treebank transcripts apart from the rest (`is_treebank_file`, `split_treebank`). */
module Treebank {
  import opened Dicts
  import opened Seqs
  import opened Corpus

  /** The corpora whose transcripts make up the treebank. */
  const TreebankNames: seq<string> := ["Brown", "Soderstrom", "Valian", "Suppes", "HSLLD/HV1"]

  /** `sub` occurs in `s` starting at position `i`. */
  ghost predicate OccursAt(sub: string, s: string, i: nat) {
    i + |sub| <= |s| && s[i..i + |sub|] == sub
  }

  /** Python's `sub in s` on strings. */
  ghost predicate IsSubstring(sub: string, s: string) {
    exists i: nat :: OccursAt(sub, s, i)
  }

  /** A substring test by scanning the start positions of `s` one by one. */
  function Contains(s: string, sub: string): (b: bool)
    ensures b <==> IsSubstring(sub, s)
    decreases |s|
  {
    if |sub| > |s| then
      assert forall i: nat :: !OccursAt(sub, s, i);
      false
    else if s[..|sub|] == sub then
      assert OccursAt(sub, s, 0);
      true
    else
      var b := Contains(s[1..], sub);
      assert IsSubstring(sub, s[1..]) ==> IsSubstring(sub, s) by {
        if IsSubstring(sub, s[1..]) {
          var i: nat :| OccursAt(sub, s[1..], i);
          assert s[i + 1..i + 1 + |sub|] == s[1..][i..i + |sub|];
          assert OccursAt(sub, s, i + 1);
        }
      }
      assert IsSubstring(sub, s) ==> IsSubstring(sub, s[1..]) by {
        if IsSubstring(sub, s) {
          var i: nat :| OccursAt(sub, s, i);
          assert i != 0;
          assert s[1..][i - 1..i - 1 + |sub|] == s[i..i + |sub|];
          assert OccursAt(sub, s[1..], i - 1);
        }
      }
      b
  }

  /** A file id names a treebank transcript when one of the treebank corpus names occurs in it. */
  predicate IsTreebank(fileid: FileId) {
    exists n :: n in TreebankNames && Contains(fileid, n)
  }

  /** `is_treebank_file`: tries the corpus names in order and stops at the first that occurs. */
  method IsTreebankFile(fileid: FileId) returns (b: bool)
    ensures b <==> exists n :: n in TreebankNames && IsSubstring(n, fileid)
    ensures b == IsTreebank(fileid)
  {
    for t := 0 to |TreebankNames|
      invariant forall u :: 0 <= u < t ==> !IsSubstring(TreebankNames[u], fileid)
    {
      if Contains(fileid, TreebankNames[t]) {
        return true;
      }
    }
    return false;
  }

  /** The entries of `m` whose file is (`want`) or is not (`!want`) a treebank file, in dict order. */
  function FilesWhere(m: Mapping, want: bool): (r: Mapping)
    ensures forall t :: 0 <= t < |r| ==> IsTreebank(r[t].0) == want
    ensures forall t :: 0 <= t < |m| && IsTreebank(m[t].0) == want ==> m[t] in r
    ensures IsSubsequence(r, m)
  {
    if m == [] then []
    else
      assert forall t :: 1 <= t < |m| ==> m[t] == m[1..][t - 1];
      if IsTreebank(m[0].0) == want then [m[0]] + FilesWhere(m[1..], want)
      else FilesWhere(m[1..], want)
  }

  lemma {:induction false} FilesWhereSplit(m: Mapping)
    ensures multiset(FilesWhere(m, true)) + multiset(FilesWhere(m, false)) == multiset(m)
  {
    if m != [] {
      FilesWhereSplit(m[1..]);
      assert m == [m[0]] + m[1..];
    }
  }

  /**
   * `split_treebank`: the treebank files and the other files, each in dict order.
   * Between them they hold every entry of `m` exactly once and unchanged.
   */
  function SplitTreebank(m: Mapping): (r: (Mapping, Mapping))
    ensures forall t :: 0 <= t < |r.0| ==> IsTreebank(r.0[t].0)
    ensures forall t :: 0 <= t < |r.1| ==> !IsTreebank(r.1[t].0)
    ensures multiset(r.0) + multiset(r.1) == multiset(m)
    ensures IsSubsequence(r.0, m) && IsSubsequence(r.1, m)
  {
    FilesWhereSplit(m);
    (FilesWhere(m, true), FilesWhere(m, false))
  }
}
