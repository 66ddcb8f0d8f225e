/**
 * Vocabulary building for the text datasets: word frequencies
 * (`count_frequencies`), the vocabulary ranked by frequency with its cutoff
 * (`make_vocab`) and the replacement of unknown words (`unk`).
 */
module Vocab {
  import opened Seqs
  import opened Dicts
  import opened Corpus

  /** A `collections.Counter`: words in order of first occurrence, with their counts. */
  type Counter = seq<(Token, nat)>

  function LineOf(e: (FileId, Utterance)): seq<Token> {
    e.1
  }

  /** Every token of the data, line after line. */
  function AllTokens(data: Flat): seq<Token> {
    ConcatMap(data, LineOf)
  }

  /** How often `w` occurs in the data. */
  function Occurrences(data: Flat, w: Token): nat {
    multiset(AllTokens(data))[w]
  }

  /** `c[w]`: a word the counter has not seen counts zero. */
  function Count(c: Counter, w: Token): nat {
    if w in Keys(c) then Get(c, w) else 0
  }

  /** `c[w] += 1`: a new word is appended with count one. */
  function Bump(c: Counter, w: Token): Counter {
    Put(c, w, Count(c, w) + 1)
  }

  /** `c.update(tokens)`: one bump per token, in order. */
  function Tally(c: Counter, tokens: seq<Token>): Counter
    decreases |tokens|
  {
    if tokens == [] then c else Bump(Tally(c, tokens[..|tokens| - 1]), tokens[|tokens| - 1])
  }

  /** The counter `count_frequencies` builds: every line of the data tallied into an empty counter. */
  function Counts(data: Flat): Counter {
    Tally([], AllTokens(data))
  }

  /** The sum of all counts. */
  function Total(c: Counter): nat {
    if c == [] then 0 else c[0].1 + Total(c[1..])
  }

  lemma {:induction false} TotalAppend(c: Counter, e: (Token, nat))
    ensures Total(c + [e]) == Total(c) + e.1
  {
    if c != [] {
      assert (c + [e])[1..] == c[1..] + [e];
      TotalAppend(c[1..], e);
    }
  }

  lemma {:induction false} TotalUpdate(c: Counter, i: nat, e: (Token, nat))
    requires i < |c|
    ensures Total(c[i := e]) == Total(c) - c[i].1 + e.1
  {
    if i > 0 {
      assert c[i := e][1..] == c[1..][i - 1 := e];
      TotalUpdate(c[1..], i - 1, e);
    }
  }

  /** In a counter with distinct words, an entry's count is what `Count` reads for its word. */
  lemma CountOfEntry(c: Counter, i: nat)
    requires DistinctKeys(c) && i < |c|
    ensures Count(c, c[i].0) == c[i].1
  {
    IndexOfUnique(c, i);
  }

  /** One bump adds one to the word's count, one to the total, and leaves every other count alone. */
  lemma BumpFacts(c: Counter, w: Token)
    requires DistinctKeys(c)
    ensures DistinctKeys(Bump(c, w))
    ensures Count(Bump(c, w), w) == Count(c, w) + 1
    ensures forall v :: v != w ==> Count(Bump(c, w), v) == Count(c, v)
    ensures forall v :: v in Keys(Bump(c, w)) <==> v in Keys(c) || v == w
    ensures Total(Bump(c, w)) == Total(c) + 1
  {
    BumpTotal(c, w);
    BumpOthers(c, w);
    BumpKeys(c, w);
  }

  lemma BumpTotal(c: Counter, w: Token)
    ensures Total(Bump(c, w)) == Total(c) + 1
  {
    if w in Keys(c) {
      var i := IndexOf(c, w);
      TotalUpdate(c, i, (w, Count(c, w) + 1));
    } else {
      TotalAppend(c, (w, 1));
    }
  }

  lemma BumpOthers(c: Counter, w: Token)
    requires DistinctKeys(c)
    ensures forall v :: v != w ==> Count(Bump(c, w), v) == Count(c, v)
  {
    var r := Bump(c, w);
    forall v | v != w ensures Count(r, v) == Count(c, v) {
      if v in Keys(c) {
        var i := IndexOf(c, v);
        assert r[i] == c[i];
        IndexOfUnique(r, i);
      }
    }
  }

  lemma BumpKeys(c: Counter, w: Token)
    ensures forall v :: v in Keys(Bump(c, w)) <==> v in Keys(c) || v == w
  {
    if w !in Keys(c) {
      InSnoc(Keys(c), w);
    }
  }

  /**
   * Tallying tokens into an empty counter gives each word exactly its
   * number of occurrences, holds exactly the words that occur, and the
   * counts add up to the number of tokens.
   */
  lemma {:induction false} TallyFacts(tokens: seq<Token>)
    ensures DistinctKeys(Tally([], tokens))
    ensures forall w :: Count(Tally([], tokens), w) == multiset(tokens)[w]
    ensures forall w :: w in Keys(Tally([], tokens)) <==> w in tokens
    ensures Total(Tally([], tokens)) == |tokens|
    decreases |tokens|
  {
    if tokens != [] {
      var init, last := tokens[..|tokens| - 1], tokens[|tokens| - 1];
      TallyFacts(init);
      BumpFacts(Tally([], init), last);
      SnocMultiset(tokens);
    }
  }

  lemma SnocMultiset<T>(s: seq<T>)
    requires s != []
    ensures multiset(s) == multiset(s[..|s| - 1]) + multiset{s[|s| - 1]}
    ensures forall x :: x in s <==> x in s[..|s| - 1] || x == s[|s| - 1]
  {
    SplitLast(s);
  }

  lemma TallyStep(before: seq<Token>, line: seq<Token>, j: nat)
    requires j < |line|
    ensures Tally([], before + line[..j + 1]) == Bump(Tally([], before + line[..j]), line[j])
  {
    assert (before + line[..j + 1])[..|before + line[..j + 1]| - 1] == before + line[..j];
  }

  lemma RowStart(data: Flat, i: nat)
    requires i < |data|
    ensures AllTokens(data[..i]) + data[i].1[..0] == AllTokens(data[..i])
  {
  }

  lemma RowEnd(data: Flat, i: nat)
    requires i < |data|
    ensures AllTokens(data[..i]) + data[i].1[..|data[i].1|] == AllTokens(data[..i + 1])
  {
    assert data[i].1[..|data[i].1|] == data[i].1;
    AllTokensStep(data, i);
  }

  lemma AllTokensStep(data: Flat, i: nat)
    requires i < |data|
    ensures AllTokens(data[..i + 1]) == AllTokens(data[..i]) + data[i].1
  {
    assert data[..i + 1] == data[..i] + [data[i]];
    ConcatMapAppend(data[..i], [data[i]], LineOf);
    ConcatMapOne(data[i], LineOf);
  }

  /**
   * `count_frequencies(data)`: every word mapped to its number of
   * occurrences over all lines, words in order of first occurrence; the
   * counts add up to the number of tokens.
   */
  method CountFrequencies(data: Flat) returns (frequencies: Counter)
    ensures frequencies == Counts(data)
    ensures DistinctKeys(frequencies)
    ensures forall w :: Count(frequencies, w) == Occurrences(data, w)
    ensures forall w :: w in Keys(frequencies) <==> w in AllTokens(data)
    ensures Total(frequencies) == |AllTokens(data)|
  {
    frequencies := [];
    for i := 0 to |data|
      invariant frequencies == Tally([], AllTokens(data[..i]))
    {
      var line := data[i].1;
      RowStart(data, i);
      for j := 0 to |line|
        invariant frequencies == Tally([], AllTokens(data[..i]) + line[..j])
      {
        TallyStep(AllTokens(data[..i]), line, j);
        frequencies := Bump(frequencies, line[j]);
      }
      RowEnd(data, i);
    }
    assert data[..|data|] == data;
    TallyFacts(AllTokens(data));
  }

  /** Python's `a < b` on strings: code point by code point, a proper prefix first. */
  predicate StrLess(a: string, b: string) {
    b != [] && (a == [] || a[0] < b[0] || (a[0] == b[0] && StrLess(a[1..], b[1..])))
  }

  lemma {:induction false} StrLessIrreflexive(a: string)
    ensures !StrLess(a, a)
  {
    if a != [] {
      StrLessIrreflexive(a[1..]);
    }
  }

  lemma {:induction false} StrLessTransitive(a: string, b: string, c: string)
    requires StrLess(a, b) && StrLess(b, c)
    ensures StrLess(a, c)
  {
    if a != [] && a[0] == b[0] && b[0] == c[0] {
      StrLessTransitive(a[1..], b[1..], c[1..]);
    }
  }

  lemma {:induction false} StrLessTotal(a: string, b: string)
    requires a != b
    ensures StrLess(a, b) || StrLess(b, a)
  {
    if a != [] && b != [] && a[0] == b[0] {
      assert a == [a[0]] + a[1..] && b == [b[0]] + b[1..];
      StrLessTotal(a[1..], b[1..]);
    }
  }

  lemma {:induction false} StrLessAsymmetric(a: string, b: string)
    requires StrLess(a, b)
    ensures !StrLess(b, a)
  {
    if StrLess(b, a) {
      StrLessTransitive(a, b, a);
      StrLessIrreflexive(a);
    }
  }

  /** `x` sorts before `y` under the key `(-count, word)`. */
  predicate Precedes(x: (Token, nat), y: (Token, nat)) {
    x.1 > y.1 || (x.1 == y.1 && StrLess(x.0, y.0))
  }

  /** Items in strictly increasing key order: counts descending, ties by word ascending. */
  predicate Ranked(s: seq<(Token, nat)>) {
    forall i, j :: 0 <= i < j < |s| ==> Precedes(s[i], s[j])
  }

  lemma PrecedesTotal(x: (Token, nat), y: (Token, nat))
    requires x.0 != y.0
    ensures Precedes(x, y) || Precedes(y, x)
  {
    StrLessTotal(x.0, y.0);
  }

  lemma PrecedesAsymmetric(x: (Token, nat), y: (Token, nat))
    requires Precedes(x, y)
    ensures !Precedes(y, x)
  {
    if x.1 == y.1 {
      StrLessAsymmetric(x.0, y.0);
    }
  }

  lemma PrecedesTransitive(x: (Token, nat), y: (Token, nat), z: (Token, nat))
    requires Precedes(x, y) && Precedes(y, z)
    ensures Precedes(x, z)
  {
    if x.1 == y.1 && y.1 == z.1 {
      StrLessTransitive(x.0, y.0, z.0);
    }
  }

  /** `x` put in front of the first item it precedes. */
  function Insert(x: (Token, nat), s: seq<(Token, nat)>): (r: seq<(Token, nat)>)
    ensures multiset(r) == multiset(s) + multiset{x}
  {
    if s == [] || Precedes(x, s[0]) then [x] + s
    else
      assert s == [s[0]] + s[1..];
      [s[0]] + Insert(x, s[1..])
  }

  /** `sorted(items, key=lambda item: (-item[1], item[0]))` */
  function SortItems(s: seq<(Token, nat)>): (r: seq<(Token, nat)>)
    ensures multiset(r) == multiset(s)
  {
    if s == [] then []
    else
      assert s == [s[0]] + s[1..];
      Insert(s[0], SortItems(s[1..]))
  }

  lemma {:induction false} InsertRanked(x: (Token, nat), s: seq<(Token, nat)>)
    requires Ranked(s)
    requires forall i :: 0 <= i < |s| ==> s[i].0 != x.0
    ensures Ranked(Insert(x, s))
  {
    if s != [] && Precedes(x, s[0]) {
      forall k | 0 <= k < |s| ensures Precedes(x, s[k]) {
        if k > 0 {
          PrecedesTransitive(x, s[0], s[k]);
        }
      }
    } else if s != [] {
      PrecedesTotal(x, s[0]);
      InsertRanked(x, s[1..]);
      var t := Insert(x, s[1..]);
      forall k | 0 <= k < |t| ensures Precedes(s[0], t[k]) {
        assert t[k] in multiset(s[1..]) + multiset{x};
        if t[k] != x {
          var m :| 0 <= m < |s[1..]| && s[1..][m] == t[k];
          assert s[m + 1] == t[k];
        }
      }
    }
  }

  /** The sort ranks items with distinct words. */
  lemma {:induction false} SortItemsRanked(s: seq<(Token, nat)>)
    requires DistinctKeys(s)
    ensures Ranked(SortItems(s))
  {
    if s != [] {
      SortItemsRanked(s[1..]);
      var t := SortItems(s[1..]);
      forall i | 0 <= i < |t| ensures t[i].0 != s[0].0 {
        assert t[i] in multiset(s[1..]);
        var m :| 0 <= m < |s[1..]| && s[1..][m] == t[i];
        assert s[m + 1] == t[i];
      }
      InsertRanked(s[0], t);
    }
  }

  /**
   * The ranking is unique: two ranked arrangements of the same items are
   * equal, so any correct sort, Python's included, gives this one.
   */
  lemma {:induction false} RankedUnique(a: seq<(Token, nat)>, b: seq<(Token, nat)>)
    requires Ranked(a) && Ranked(b) && multiset(a) == multiset(b)
    ensures a == b
  {
    if a != [] {
      assert a[0] in multiset(b);
      assert b != [];
      assert b[0] in multiset(a);
      if a[0] != b[0] {
        var p :| 0 <= p < |b| && b[p] == a[0];
        var q :| 0 <= q < |a| && a[q] == b[0];
        assert Precedes(b[0], a[0]);
        assert Precedes(a[0], b[0]);
        PrecedesAsymmetric(a[0], b[0]);
        assert false;
      }
      assert a == [a[0]] + a[1..] && b == [b[0]] + b[1..];
      assert multiset(a) == multiset{a[0]} + multiset(a[1..]);
      assert multiset(b) == multiset{b[0]} + multiset(b[1..]);
      forall v ensures multiset(a[1..])[v] == multiset(b[1..])[v] {
        assert multiset(a)[v] == multiset{a[0]}[v] + multiset(a[1..])[v];
        assert multiset(b)[v] == multiset{b[0]}[v] + multiset(b[1..])[v];
      }
      assert multiset(a[1..]) == multiset(b[1..]);
      RankedUnique(a[1..], b[1..]);
    }
  }

  /** `filter(lambda item: item[1] > cutoff, items)` */
  function Above(s: seq<(Token, nat)>, cutoff: int): (r: seq<(Token, nat)>)
    ensures forall x :: x in r <==> x in s && x.1 > cutoff
    ensures IsSubsequence(r, s)
  {
    if s == [] then []
    else if s[0].1 > cutoff then [s[0]] + Above(s[1..], cutoff)
    else
      var r := Above(s[1..], cutoff);
      SubsequenceOfTail(r, s);
      r
  }

  lemma {:induction false} AboveRanked(s: seq<(Token, nat)>, cutoff: int)
    requires Ranked(s)
    ensures Ranked(Above(s, cutoff))
  {
    if s != [] {
      AboveRanked(s[1..], cutoff);
      var t := Above(s[1..], cutoff);
      forall k | 0 <= k < |t| ensures Precedes(s[0], t[k]) {
        assert t[k] in s[1..];
        var m :| 0 <= m < |s[1..]| && s[1..][m] == t[k];
        assert s[m + 1] == t[k];
      }
    }
  }

  /** `{word: idx for idx, (word, freq) in enumerate(items)}` */
  function Enumerate(s: seq<(Token, nat)>): seq<(Token, nat)> {
    seq(|s|, i requires 0 <= i < |s| => (s[i].0, i))
  }

  /** The items `make_vocab` keeps: all of them ranked, filtered when the cutoff is non-zero. */
  function Kept(ranked: seq<(Token, nat)>, cutoff: int): seq<(Token, nat)> {
    if cutoff != 0 then Above(ranked, cutoff) else ranked
  }

  /** `make_vocab(data, cutoff)`: the kept words, ranked, each mapped to its rank. */
  function Vocabulary(data: Flat, cutoff: int): seq<(Token, nat)> {
    Enumerate(Kept(SortItems(Counts(data)), cutoff))
  }

  /** The counts are those of the data, the words distinct, and the kept items ranked. */
  lemma KeptFacts(data: Flat, cutoff: int)
    ensures DistinctKeys(Counts(data))
    ensures Ranked(Kept(SortItems(Counts(data)), cutoff))
    ensures forall x :: x in Kept(SortItems(Counts(data)), cutoff) <==>
      x in Counts(data) && (cutoff == 0 || x.1 > cutoff)
  {
    TallyFacts(AllTokens(data));
    SortItemsRanked(Counts(data));
    AboveRanked(SortItems(Counts(data)), cutoff);
    assert forall x :: x in SortItems(Counts(data)) <==> x in multiset(Counts(data));
  }

  /** Every count the counter holds is the word's number of occurrences. */
  lemma CountsEntry(data: Flat, x: (Token, nat))
    requires x in Counts(data)
    ensures x.1 == Occurrences(data, x.0) && x.0 in AllTokens(data)
  {
    TallyFacts(AllTokens(data));
    var i :| 0 <= i < |Counts(data)| && Counts(data)[i] == x;
    CountOfEntry(Counts(data), i);
    assert x.0 in Keys(Counts(data));
  }

  /** A word that occurs has its number of occurrences among the counts. */
  lemma CountsIndex(data: Flat, w: Token) returns (i: nat)
    requires w in AllTokens(data)
    ensures i < |Counts(data)| && Counts(data)[i] == (w, Occurrences(data, w))
  {
    TallyFacts(AllTokens(data));
    i := IndexOf(Counts(data), w);
    CountOfEntry(Counts(data), i);
  }

  /** `make_vocab` numbers its words 0, 1, ..., n - 1, each word once. */
  lemma VocabularyIndices(data: Flat, cutoff: int)
    ensures forall i :: 0 <= i < |Vocabulary(data, cutoff)| ==> Vocabulary(data, cutoff)[i].1 == i
    ensures DistinctKeys(Vocabulary(data, cutoff))
  {
    var kept := Kept(SortItems(Counts(data)), cutoff);
    KeptFacts(data, cutoff);
    forall i, j | 0 <= i < j < |kept| ensures kept[i].0 != kept[j].0 {
      PrecedesAsymmetric(kept[i], kept[j]);
      if kept[i].0 == kept[j].0 {
        CountsEntry(data, kept[i]);
        CountsEntry(data, kept[j]);
      }
    }
  }

  /** A word of the vocabulary occurs in the data, more than `cutoff` times when the cutoff is non-zero. */
  lemma VocabularyOnlyFrequent(data: Flat, cutoff: int, w: Token)
    requires w in Keys(Vocabulary(data, cutoff))
    ensures w in AllTokens(data) && (cutoff == 0 || Occurrences(data, w) > cutoff)
  {
    var kept := Kept(SortItems(Counts(data)), cutoff);
    var vocab := Vocabulary(data, cutoff);
    KeptFacts(data, cutoff);
    var i :| 0 <= i < |vocab| && vocab[i].0 == w;
    assert kept[i] in kept;
    CountsEntry(data, kept[i]);
  }

  /** A word that occurs in the data, more than `cutoff` times when the cutoff is non-zero, is in the vocabulary. */
  lemma VocabularyAllFrequent(data: Flat, cutoff: int, w: Token)
    requires w in AllTokens(data) && (cutoff == 0 || Occurrences(data, w) > cutoff)
    ensures w in Keys(Vocabulary(data, cutoff))
  {
    var counts := Counts(data);
    var kept := Kept(SortItems(counts), cutoff);
    var vocab := Vocabulary(data, cutoff);
    var i := CountsIndex(data, w);
    KeptFacts(data, cutoff);
    assert counts[i] in counts;
    assert counts[i] in kept;
    var k :| 0 <= k < |kept| && kept[k] == counts[i];
    assert vocab[k].0 == w;
    KeyAt(vocab, k);
  }

  /**
   * A word is in the vocabulary exactly when it occurs in the data and,
   * with a non-zero cutoff, occurs more than `cutoff` times.
   */
  lemma VocabularyMembers(data: Flat, cutoff: int, w: Token)
    ensures w in Keys(Vocabulary(data, cutoff)) <==>
      w in AllTokens(data) && (cutoff == 0 || Occurrences(data, w) > cutoff)
  {
    if w in Keys(Vocabulary(data, cutoff)) {
      VocabularyOnlyFrequent(data, cutoff, w);
    }
    if w in AllTokens(data) && (cutoff == 0 || Occurrences(data, w) > cutoff) {
      VocabularyAllFrequent(data, cutoff, w);
    }
  }

  /** The vocabulary is ordered by descending frequency, ties by ascending word. */
  lemma VocabularyOrder(data: Flat, cutoff: int)
    ensures forall i, j :: 0 <= i < j < |Vocabulary(data, cutoff)| ==>
      var v, w := Vocabulary(data, cutoff)[i].0, Vocabulary(data, cutoff)[j].0;
      Occurrences(data, v) > Occurrences(data, w) ||
      (Occurrences(data, v) == Occurrences(data, w) && StrLess(v, w))
  {
    var kept := Kept(SortItems(Counts(data)), cutoff);
    KeptFacts(data, cutoff);
    forall i, j | 0 <= i < j < |kept|
      ensures Occurrences(data, kept[i].0) > Occurrences(data, kept[j].0) ||
        (Occurrences(data, kept[i].0) == Occurrences(data, kept[j].0) && StrLess(kept[i].0, kept[j].0))
    {
      CountsEntry(data, kept[i]);
      CountsEntry(data, kept[j]);
    }
  }

  /** `make_vocab(data, cutoff)`, counting the data with `count_frequencies`. */
  method MakeVocab(data: Flat, cutoff: int) returns (vocab: seq<(Token, nat)>)
    ensures vocab == Vocabulary(data, cutoff)
    ensures DistinctKeys(vocab)
    ensures forall i :: 0 <= i < |vocab| ==> vocab[i].1 == i
  {
    var frequencies := CountFrequencies(data);
    var ranked := SortItems(frequencies);
    if cutoff != 0 {
      ranked := Above(ranked, cutoff);
    }
    vocab := Enumerate(ranked);
    VocabularyIndices(data, cutoff);
  }

  /** `[(word if word in vocab else unk_token) for word in line]` */
  function UnkLine(line: Utterance, vocab: seq<(Token, nat)>, unkToken: Token): Utterance {
    seq(|line|, j requires 0 <= j < |line| => if line[j] in Keys(vocab) then line[j] else unkToken)
  }

  /** The result of `unk(data, vocab, unk_token)`. */
  function Unked(data: Flat, vocab: seq<(Token, nat)>, unkToken: Token): Flat {
    seq(|data|, i requires 0 <= i < |data| => (data[i].0, UnkLine(data[i].1, vocab, unkToken)))
  }

  /** `unk(data, vocab, unk_token)`: the lines appended one by one. */
  method Unk(data: Flat, vocab: seq<(Token, nat)>, unkToken: Token) returns (unkedData: Flat)
    ensures unkedData == Unked(data, vocab, unkToken)
  {
    unkedData := [];
    for i := 0 to |data|
      invariant unkedData == Unked(data[..i], vocab, unkToken)
    {
      var (filename, line) := data[i];
      var unkedLine := UnkLine(line, vocab, unkToken);
      unkedData := unkedData + [(filename, unkedLine)];
    }
    assert data[..|data|] == data;
  }

  /**
   * Unking keeps the number of lines, every file name and every line
   * length; a word stays exactly when it is in the vocabulary, and any
   * other word becomes the unknown token.
   */
  lemma UnkedShape(data: Flat, vocab: seq<(Token, nat)>, unkToken: Token)
    ensures |Unked(data, vocab, unkToken)| == |data|
    ensures forall i :: 0 <= i < |data| ==>
      Unked(data, vocab, unkToken)[i].0 == data[i].0 && |Unked(data, vocab, unkToken)[i].1| == |data[i].1|
    ensures forall i, j :: 0 <= i < |data| && 0 <= j < |data[i].1| ==>
      var w := Unked(data, vocab, unkToken)[i].1[j];
      (w == data[i].1[j] <==> data[i].1[j] in Keys(vocab) || data[i].1[j] == unkToken) &&
      (w in Keys(vocab) || w == unkToken)
  {
  }

  /** Unking twice with the same vocabulary is unking once. */
  lemma UnkedIdempotent(data: Flat, vocab: seq<(Token, nat)>, unkToken: Token)
    ensures Unked(Unked(data, vocab, unkToken), vocab, unkToken) == Unked(data, vocab, unkToken)
  {
    var once := Unked(data, vocab, unkToken);
    forall i | 0 <= i < |data| ensures UnkLine(once[i].1, vocab, unkToken) == once[i].1 {
    }
  }

  /** Data whose words are all in the vocabulary is left as it is. */
  lemma UnkedKnown(data: Flat, vocab: seq<(Token, nat)>, unkToken: Token)
    requires forall i, j :: 0 <= i < |data| && 0 <= j < |data[i].1| ==> data[i].1[j] in Keys(vocab)
    ensures Unked(data, vocab, unkToken) == data
  {
    forall i | 0 <= i < |data| ensures UnkLine(data[i].1, vocab, unkToken) == data[i].1 {
    }
  }

  /** A line's word is one of the data's tokens. */
  lemma InAllTokens(data: Flat, i: nat, j: nat)
    requires i < |data| && j < |data[i].1|
    ensures data[i].1[j] in AllTokens(data)
  {
    assert data == data[..i] + [data[i]] + data[i + 1..];
    ConcatMapAppend(data[..i] + [data[i]], data[i + 1..], LineOf);
    ConcatMapAppend(data[..i], [data[i]], LineOf);
    ConcatMapOne(data[i], LineOf);
  }

  /** With cutoff 0 the data's own vocabulary covers it: unking the data it was built from changes nothing. */
  lemma UnkedOwnVocabulary(data: Flat, unkToken: Token)
    ensures Unked(data, Vocabulary(data, 0), unkToken) == data
  {
    forall i, j | 0 <= i < |data| && 0 <= j < |data[i].1| ensures data[i].1[j] in Keys(Vocabulary(data, 0)) {
      InAllTokens(data, i, j);
      VocabularyMembers(data, 0, data[i].1[j]);
    }
    UnkedKnown(data, Vocabulary(data, 0), unkToken);
  }
}
