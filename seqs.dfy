/** Generic facts about sequences used by the corpus model. */
module Seqs {

  /** `[y for x in s for y in f(x)]` */
  function ConcatMap<T, U>(s: seq<T>, f: T -> seq<U>): seq<U> {
    if s == [] then [] else f(s[0]) + ConcatMap(s[1..], f)
  }

  lemma {:induction false} ConcatMapAppend<T, U>(a: seq<T>, b: seq<T>, f: T -> seq<U>)
    ensures ConcatMap(a + b, f) == ConcatMap(a, f) + ConcatMap(b, f)
  {
    if a == [] {
      assert a + b == b;
    } else {
      assert (a + b)[0] == a[0];
      assert (a + b)[1..] == a[1..] + b;
      ConcatMapAppend(a[1..], b, f);
    }
  }

  lemma ConcatMapOne<T, U>(x: T, f: T -> seq<U>)
    ensures ConcatMap([x], f) == f(x)
  {
    assert [x][1..] == [];
  }

  /** Appending an element adds exactly that element to the members. */
  lemma InSnoc<T>(s: seq<T>, x: T)
    ensures forall v :: v in s + [x] <==> v in s || v == x
  {
    forall v ensures v in s + [x] <==> v in s || v == x {
      if v in s + [x] {
        var i :| 0 <= i < |s + [x]| && (s + [x])[i] == v;
        if i < |s| { assert s[i] == v; }
      }
      if v in s {
        var i :| 0 <= i < |s| && s[i] == v;
        assert (s + [x])[i] == v;
      }
    }
  }

  /** A non-empty list is its front followed by its last element. */
  lemma SplitLast<T>(s: seq<T>)
    requires s != []
    ensures s == s[..|s| - 1] + [s[|s| - 1]]
  {
  }

  /** Replacing the last element keeps the front. */
  lemma UpdateLast<T>(s: seq<T>, e: T)
    requires s != []
    ensures s[|s| - 1 := e] == s[..|s| - 1] + [e]
  {
  }

  /** A list built up as `before + all`, with `all == mine + later`, is `after + later` once `mine` has been appended. */
  lemma StepSplit<T>(before: seq<T>, after: seq<T>, whole: seq<T>, all: seq<T>, mine: seq<T>, later: seq<T>)
    requires before + all == whole && all == mine + later && after == before + mine
    ensures after + later == whole
  {
  }

  /** Taking element `p` out of `s`. */
  lemma SplitAt<T>(s: seq<T>, p: nat)
    requires p < |s|
    ensures s == s[..p] + ([s[p]] + s[p+1..])
    ensures multiset(s[..p] + s[p+1..]) == multiset(s) - multiset{s[p]}
  {
    assert s == s[..p] + ([s[p]] + s[p+1..]);
    assert multiset(s) == multiset(s[..p]) + multiset{s[p]} + multiset(s[p+1..]);
  }

  /** The output of the element at position `p` can be counted apart from the outputs of the others. */
  lemma ConcatMapAt<T, U>(b: seq<T>, p: nat, f: T -> seq<U>)
    requires p < |b|
    ensures multiset(ConcatMap(b, f)) == multiset(f(b[p])) + multiset(ConcatMap(b[..p] + b[p+1..], f))
  {
    SplitAt(b, p);
    ConcatMapAppend(b[..p], [b[p]] + b[p+1..], f);
    ConcatMapAppend([b[p]], b[p+1..], f);
    ConcatMapAppend(b[..p], b[p+1..], f);
    assert ConcatMap([b[p]], f) == f(b[p]) + ConcatMap([], f);
  }

  /** Permuting the input permutes the output: its multiset does not change. */
  lemma {:induction false} ConcatMapPerm<T, U>(a: seq<T>, b: seq<T>, f: T -> seq<U>)
    requires multiset(a) == multiset(b)
    ensures multiset(ConcatMap(a, f)) == multiset(ConcatMap(b, f))
    decreases |a|
  {
    if a == [] {
      assert |b| == |multiset(b)| == 0;
    } else {
      var x := a[0];
      assert x in multiset(b) by {
        assert x in multiset(a);
      }
      var p :| 0 <= p < |b| && b[p] == x;
      var rest := b[..p] + b[p+1..];
      assert multiset(a[1..]) == multiset(rest) by {
        SplitAt(b, p);
        SplitAt(a, 0);
      }
      ConcatMapPerm(a[1..], rest, f);
      ConcatMapAt(b, p, f);
    }
  }

  /** No element occurs twice. */
  predicate Distinct<T(==)>(s: seq<T>) {
    forall i, j :: 0 <= i < j < |s| ==> s[i] != s[j]
  }

  /** A sequence is duplicate-free exactly when no element occurs twice in its multiset. */
  lemma {:induction false} DistinctCounts<T>(s: seq<T>)
    ensures Distinct(s) <==> forall x :: multiset(s)[x] <= 1
  {
    if Distinct(s) {
      if s != [] {
        assert Distinct(s[1..]) by {
          forall i, j | 0 <= i < j < |s[1..]| ensures s[1..][i] != s[1..][j] {
            assert s[1..][i] == s[i + 1] && s[1..][j] == s[j + 1];
          }
        }
        DistinctCounts(s[1..]);
        assert s == [s[0]] + s[1..];
        assert s[0] !in s[1..];
        forall x ensures multiset(s)[x] <= 1 {
          assert multiset(s)[x] == multiset(s[1..])[x] + multiset{s[0]}[x];
        }
      }
    } else {
      var i, j :| 0 <= i < j < |s| && s[i] == s[j];
      assert s == s[..j] + s[j..];
      assert s[i] in multiset(s[..j]);
      assert s[j] in multiset(s[j..]);
      assert multiset(s)[s[i]] == multiset(s[..j])[s[i]] + multiset(s[j..])[s[i]];
    }
  }

  /** `f(0) + f(1) + ... + f(J-1)` */
  function Concat<T>(f: nat -> seq<T>, J: nat): seq<T> {
    if J == 0 then [] else Concat(f, J - 1) + f(J - 1)
  }

  /** Each piece is among the elements of the concatenation. */
  lemma {:induction false} ConcatHas<T>(f: nat -> seq<T>, J: nat, j: nat)
    requires j < J
    ensures multiset(f(j)) <= multiset(Concat(f, J))
  {
    if j < J - 1 {
      ConcatHas(f, J - 1, j);
    }
  }

  /** Two different pieces are among the elements of the concatenation side by side. */
  lemma {:induction false} ConcatHasTwo<T>(f: nat -> seq<T>, J: nat, i: nat, j: nat)
    requires i < j < J
    ensures multiset(f(i)) + multiset(f(j)) <= multiset(Concat(f, J))
  {
    var before, last := Concat(f, J - 1), f(J - 1);
    assert multiset(Concat(f, J)) == multiset(before) + multiset(last);
    if j < J - 1 {
      ConcatHasTwo(f, J - 1, i, j);
      SubAdd(multiset(f(i)) + multiset(f(j)), multiset(before), multiset{}, multiset(last));
    } else {
      ConcatHas(f, J - 1, i);
      SubAdd(multiset(f(i)), multiset(before), multiset(f(j)), multiset(last));
    }
  }

  /**
   * When no element occurs twice in a concatenation, no piece holds an
   * element twice and no two pieces share one.
   */
  lemma ConcatOnce<T>(f: nat -> seq<T>, J: nat, i: nat, j: nat)
    requires i < J && j < J
    requires forall x :: multiset(Concat(f, J))[x] <= 1
    ensures Distinct(f(j))
    ensures i != j ==> forall p :: p in f(i) ==> p !in f(j)
  {
    var all := multiset(Concat(f, J));
    assert Distinct(f(j)) by {
      ConcatHas(f, J, j);
      forall x ensures multiset(f(j))[x] <= 1 {
        assert multiset(f(j))[x] <= all[x];
      }
      DistinctCounts(f(j));
    }
    if i != j {
      if i < j {
        ConcatHasTwo(f, J, i, j);
      } else {
        ConcatHasTwo(f, J, j, i);
      }
      forall p | p in f(i) ensures p !in f(j) {
        assert multiset(f(i))[p] + multiset(f(j))[p] <= all[p];
      }
    }
  }

  /** Concatenations of pieces that split up piece by piece split up as multisets. */
  lemma {:induction false} ConcatSplit<T>(f: nat -> seq<T>, g: nat -> seq<T>, h: nat -> seq<T>, J: nat)
    requires forall j :: 0 <= j < J ==> f(j) == g(j) + h(j)
    ensures multiset(Concat(f, J)) == multiset(Concat(g, J)) + multiset(Concat(h, J))
  {
    if J > 0 {
      ConcatSplit(f, g, h, J - 1);
      assert f(J - 1) == g(J - 1) + h(J - 1);
    }
  }

  lemma SubAdd<T>(a: multiset<T>, b: multiset<T>, c: multiset<T>, d: multiset<T>)
    requires a <= b && c <= d
    ensures a + c <= b + d
  {
    forall x ensures (a + c)[x] <= (b + d)[x] {
      assert a[x] <= b[x] && c[x] <= d[x];
    }
  }

  /** `a` is `b` with some elements left out: the elements of `a` keep their relative order in `b`. */
  predicate IsSubsequence<T(==)>(a: seq<T>, b: seq<T>) {
    if a == [] then true
    else if b == [] then false
    else (a[0] == b[0] && IsSubsequence(a[1..], b[1..])) || IsSubsequence(a, b[1..])
  }

  /** Skipping a first element of `b` keeps `a` a subsequence. */
  lemma SubsequenceOfTail<T>(a: seq<T>, b: seq<T>)
    requires b != [] && IsSubsequence(a, b[1..])
    ensures IsSubsequence(a, b)
  {
  }
}
