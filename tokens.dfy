/**
 * Token clean-up of the text datasets: dropping one-token utterances and
 * underscores (`clean_and_listify`), and splitting possessives and
 * contractions off their words (`split_possesives_and_contractions`,
 * `split_line`, `split_data`).
 */
module Tokens {
  import opened Seqs
  import opened Dicts
  import opened Corpus
  import opened Text

  /** `s.replace("_", " ")` */
  function SpaceUnderscores(s: string): (r: string)
    ensures |r| == |s|
    ensures forall j :: 0 <= j < |s| ==> r[j] == if s[j] == '_' then ' ' else s[j]
  {
    seq(|s|, j requires 0 <= j < |s| => if s[j] == '_' then ' ' else s[j])
  }

  /** A token `clean_and_listify` can produce: a word without underscores. */
  predicate IsClean(w: string) {
    IsWord(w) && forall j :: 0 <= j < |w| ==> w[j] != '_'
  }

  /** `" ".join(utt).replace("_", " ").split()` */
  function Clean(utt: Utterance): (r: Utterance)
    ensures forall i :: 0 <= i < |r| ==> IsClean(r[i])
  {
    var s := SpaceUnderscores(Join(" ", utt));
    var r := Words(s);
    WordsAvoid(s, '_');
    r
  }

  /** `clean_and_listify(data)`: utterances of more than one token, cleaned, with their file ids. */
  function CleanAndListify(data: Flat): (r: Flat)
    ensures forall i, j :: 0 <= i < |r| && 0 <= j < |r[i].1| ==> IsClean(r[i].1[j])
  {
    if data == [] then []
    else
      var rest := CleanAndListify(data[1..]);
      var r := if |data[0].1| > 1 then [(data[0].0, Clean(data[0].1))] + rest else rest;
      assert forall i :: 0 <= i < |rest| ==> rest[i] in r;
      r
  }

  /** The entries `clean_and_listify` keeps, before they are cleaned. */
  function LongUtterances(data: Flat): Flat {
    if data == [] then []
    else if |data[0].1| > 1 then [data[0]] + LongUtterances(data[1..])
    else LongUtterances(data[1..])
  }

  /** A character that `s` lacks is in none of its words. */
  lemma {:induction false} WordsAvoid(s: string, c: char)
    requires forall k :: 0 <= k < |s| ==> s[k] != c
    ensures forall i, j :: 0 <= i < |Words(s)| && 0 <= j < |Words(s)[i]| ==> Words(s)[i][j] != c
    decreases |s|
  {
    if s != [] {
      if IsSpace(s[0]) {
        WordsAvoid(s[1..], c);
        assert Words(s) == Words(s[1..]);
      } else {
        var e := WordEnd(s);
        var w := Words(s[e..]);
        WordsAvoid(s[e..], c);
        assert Words(s) == [s[..e]] + w;
        forall i, j | 0 <= i < |Words(s)| && 0 <= j < |Words(s)[i]| ensures Words(s)[i][j] != c {
          if i > 0 {
            assert Words(s)[i] == w[i - 1];
          }
        }
      }
    }
  }

  /**
   * `clean_and_listify` keeps, in order and with their file ids, exactly
   * the utterances of more than one token, and cleans each of them.
   */
  lemma {:induction false} CleanAndListifyKeeps(data: Flat)
    ensures |CleanAndListify(data)| == |LongUtterances(data)|
    ensures forall i :: 0 <= i < |LongUtterances(data)| ==>
      CleanAndListify(data)[i] == (LongUtterances(data)[i].0, Clean(LongUtterances(data)[i].1))
  {
    if data != [] {
      CleanAndListifyKeeps(data[1..]);
      var rest, long := CleanAndListify(data[1..]), LongUtterances(data[1..]);
      if |data[0].1| > 1 {
        var x := (data[0].0, Clean(data[0].1));
        assert CleanAndListify(data) == [x] + rest;
        assert LongUtterances(data) == [data[0]] + long;
        forall i | 1 <= i < |LongUtterances(data)|
          ensures CleanAndListify(data)[i] == (LongUtterances(data)[i].0, Clean(LongUtterances(data)[i].1))
        {
          assert CleanAndListify(data)[i] == rest[i - 1] && LongUtterances(data)[i] == long[i - 1];
        }
      }
    }
  }

  /** The kept entries are the entries of more than one token, in their order. */
  lemma {:induction false} LongUtterancesFilter(data: Flat)
    ensures IsSubsequence(LongUtterances(data), data)
    ensures forall i :: 0 <= i < |LongUtterances(data)| ==> |LongUtterances(data)[i].1| > 1
    ensures forall e :: e in data && |e.1| > 1 ==> e in LongUtterances(data)
  {
    if data != [] {
      LongUtterancesFilter(data[1..]);
      var rest := LongUtterances(data[1..]);
      if |data[0].1| > 1 {
        assert LongUtterances(data) == [data[0]] + rest;
        assert LongUtterances(data)[1..] == rest;
      } else {
        SubsequenceOfTail(rest, data);
      }
      forall e | e in data && |e.1| > 1 ensures e in LongUtterances(data) {
        if e != data[0] {
          assert e in data[1..];
        }
      }
    }
  }

  /** Replacing underscores and joining with spaces can be done in either order. */
  lemma {:induction false} SpaceUnderscoresJoin(utt: Utterance)
    ensures SpaceUnderscores(Join(" ", utt)) == Join(" ", seq(|utt|, i requires 0 <= i < |utt| => SpaceUnderscores(utt[i])))
  {
    var parts := seq(|utt|, i requires 0 <= i < |utt| => SpaceUnderscores(utt[i]));
    if |utt| > 1 {
      SpaceUnderscoresJoin(utt[1..]);
      var tail := seq(|utt| - 1, i requires 0 <= i < |utt| - 1 => SpaceUnderscores(utt[1..][i]));
      assert parts[1..] == tail;
      SpaceUnderscoresAppend(utt[0] + " ", Join(" ", utt[1..]));
      SpaceUnderscoresAppend(utt[0], " ");
    }
  }

  lemma SpaceUnderscoresAppend(a: string, b: string)
    ensures SpaceUnderscores(a + b) == SpaceUnderscores(a) + SpaceUnderscores(b)
  {
  }

  /**
   * A token with a character other than an underscore or white space stays
   * at least one token after cleaning, so an utterance of such tokens keeps
   * at least its number of tokens.
   */
  lemma CleanKeepsCount(utt: Utterance)
    requires forall i :: 0 <= i < |utt| ==> exists j :: 0 <= j < |utt[i]| && utt[i][j] != '_' && !IsSpace(utt[i][j])
    ensures |Clean(utt)| >= |utt|
  {
    var parts := seq(|utt|, i requires 0 <= i < |utt| => SpaceUnderscores(utt[i]));
    SpaceUnderscoresJoin(utt);
    WordsOfJoin(parts);
    forall i | 0 <= i < |parts| ensures |Words(parts[i])| >= 1 {
      var j :| 0 <= j < |utt[i]| && utt[i][j] != '_' && !IsSpace(utt[i][j]);
      WordsNotEmpty(parts[i], j);
    }
    ConcatMapAtLeastOne(parts, Words);
  }

  /** Text with a character that is not white space has a word. */
  lemma {:induction false} WordsNotEmpty(s: string, j: nat)
    requires j < |s| && !IsSpace(s[j])
    ensures |Words(s)| >= 1
    decreases |s|
  {
    if IsSpace(s[0]) {
      WordsNotEmpty(s[1..], j - 1);
    }
  }

  lemma {:induction false} ConcatMapAtLeastOne<T, U>(s: seq<T>, f: T -> seq<U>)
    requires forall i :: 0 <= i < |s| ==> |f(s[i])| >= 1
    ensures |ConcatMap(s, f)| >= |s|
  {
    if s != [] {
      ConcatMapAtLeastOne(s[1..], f);
    }
  }

  /** Tokens that are already clean come out of cleaning unchanged. */
  lemma CleanOfClean(utt: Utterance)
    requires forall i :: 0 <= i < |utt| ==> IsClean(utt[i])
    ensures Clean(utt) == utt
  {
    var parts := seq(|utt|, i requires 0 <= i < |utt| => SpaceUnderscores(utt[i]));
    SpaceUnderscoresJoin(utt);
    forall i | 0 <= i < |utt| ensures parts[i] == utt[i] {
      assert forall j :: 0 <= j < |utt[i]| ==> SpaceUnderscores(utt[i])[j] == utt[i][j];
    }
    assert parts == utt;
    WordsJoinWords(utt);
  }

  /** The length test comes before the clean-up: an utterance of two underscores is kept, and cleaned to nothing. */
  lemma CleanMayEmpty()
    ensures CleanAndListify([("f", ["_", "_"])]) == [("f", [])]
  {
    assert SpaceUnderscores(Join(" ", ["_", "_"])) == "   ";
    assert Words("   ") == [];
  }

  /** One rewriting rule of `split_possesives_and_contractions`. */
  datatype Rule =
    | Suffix(suffix: string, cut: nat, add: string)  // `if word.endswith(suffix): return word[:-cut] + add`
    | Whole(word: string, replacement: string)       // `if word == word: return replacement`

  /** `word.endswith(suffix)` */
  predicate EndsWith(word: string, suffix: string) {
    |suffix| <= |word| && word[|word| - |suffix|..] == suffix
  }

  predicate Matches(rule: Rule, word: string) {
    match rule
    case Suffix(suffix, cut, _) => EndsWith(word, suffix) && cut <= |word|
    case Whole(w, _) => word == w
  }

  function Fire(rule: Rule, word: string): string
    requires Matches(rule, word)
  {
    match rule
    case Suffix(_, cut, add) => word[..|word| - cut] + add
    case Whole(_, replacement) => replacement
  }

  /** The rule `split_possesives_and_contractions` tries `k`-th. */
  function RuleAt(k: nat): Rule
    requires k < 22
  {
    match k
    case 0 => Suffix("'s", 2, " 's")
    case 1 => Whole("can't", "can n't")
    case 2 => Suffix("n't", 3, " n't")
    case 3 => Suffix("'re", 3, " 're")
    case 4 => Suffix("'m", 2, " 'm")
    case 5 => Suffix("'d", 2, " 'd")
    case 6 => Suffix("'ll", 3, " 'll")
    case 7 => Suffix("'ve", 3, " 've")
    case 8 => Suffix("s'", 1, " '")
    case 9 => Suffix("'r", 2, " are")
    case 10 => Suffix("'has", 4, " has")
    case 11 => Suffix("'is", 3, " is")
    case 12 => Suffix("'did", 4, " did")
    case 13 => Whole("wanna", "want to")
    case 14 => Whole("hafta", "have to")
    case 15 => Whole("gonna", "going to")
    case 16 => Whole("okay", "ok")
    case 17 => Whole("y'all", "you all")
    case 18 => Whole("c'mere", "come here")
    case 19 => Whole("I'ma", "I am going to")
    case 20 => Whole("what'cha", "what are you")
    case 21 => Whole("don'tcha", "do you not")
  }

  /** The rules of `split_possesives_and_contractions`, in the order they are tried. */
  const Rules: seq<Rule> := [
    RuleAt(0), RuleAt(1), RuleAt(2), RuleAt(3), RuleAt(4), RuleAt(5), RuleAt(6), RuleAt(7),
    RuleAt(8), RuleAt(9), RuleAt(10), RuleAt(11), RuleAt(12), RuleAt(13), RuleAt(14), RuleAt(15),
    RuleAt(16), RuleAt(17), RuleAt(18), RuleAt(19), RuleAt(20), RuleAt(21)
  ]

  /** The first rule of `rules` that matches `word` rewrites it; with none matching, the word is returned unchanged. */
  function FirstMatch(rules: seq<Rule>, word: string): string {
    if rules == [] then word
    else if Matches(rules[0], word) then Fire(rules[0], word)
    else FirstMatch(rules[1..], word)
  }

  /** The rule at `i` rewrites the word when it matches and no rule before it does. */
  lemma {:induction false} FirstMatchAt(rules: seq<Rule>, word: string, i: nat)
    requires i < |rules| && Matches(rules[i], word)
    requires forall k :: 0 <= k < i ==> !Matches(rules[k], word)
    ensures FirstMatch(rules, word) == Fire(rules[i], word)
  {
    if i > 0 {
      assert !Matches(rules[0], word);
      assert rules[1..][i - 1] == rules[i];
      forall k | 0 <= k < i - 1 ensures !Matches(rules[1..][k], word) {
        assert rules[1..][k] == rules[k + 1];
      }
      FirstMatchAt(rules[1..], word, i - 1);
    }
  }

  /** With no rule matching, the word is kept. */
  lemma {:induction false} FirstMatchNone(rules: seq<Rule>, word: string)
    requires forall k :: 0 <= k < |rules| ==> !Matches(rules[k], word)
    ensures FirstMatch(rules, word) == word
  {
    if rules != [] {
      assert !Matches(rules[0], word);
      forall k | 0 <= k < |rules| - 1 ensures !Matches(rules[1..][k], word) {
        assert rules[1..][k] == rules[k + 1];
      }
      FirstMatchNone(rules[1..], word);
    }
  }

  /**
   * `r` is what an if-chain of `rules` returns for `word`: the rewriting by
   * the first rule that matches, or the word itself when none does.
   */
  predicate FirstRuleRewrites(rules: seq<Rule>, word: string, r: string) {
    && (forall i :: 0 <= i < |rules| && Matches(rules[i], word) && (forall k :: 0 <= k < i ==> !Matches(rules[k], word)) ==>
         r == Fire(rules[i], word))
    && ((forall k :: 0 <= k < |rules| ==> !Matches(rules[k], word)) ==> r == word)
  }

  /** `FirstMatch` is the if-chain of its rules. */
  lemma FirstMatchSpec(rules: seq<Rule>, word: string)
    ensures FirstRuleRewrites(rules, word, FirstMatch(rules, word))
  {
    forall i | 0 <= i < |rules| && Matches(rules[i], word) && (forall k :: 0 <= k < i ==> !Matches(rules[k], word))
      ensures FirstMatch(rules, word) == Fire(rules[i], word)
    {
      FirstMatchAt(rules, word, i);
    }
    if forall k :: 0 <= k < |rules| ==> !Matches(rules[k], word) {
      FirstMatchNone(rules, word);
    }
  }

  /**
   * `split_possesives_and_contractions(word)`: the first rule of `Rules`
   * that matches the word rewrites it; a word no rule matches comes back
   * unchanged.
   */
  function SplitPossessivesAndContractions(word: string): (r: string)
    ensures FirstRuleRewrites(Rules, word, r)
  {
    FirstMatchSpec(Rules, word);
    FirstMatch(Rules, word)
  }

  /** The example of the source: a possessive loses its "'s" to a token of its own. */
  lemma RewritePossessive()
    ensures SplitPossessivesAndContractions("camel's") == "camel 's"
  {
    FirstMatchAt(Rules, "camel's", 0);
  }

  /** A contraction loses its "n't" to a token of its own. */
  lemma RewriteContraction()
    ensures SplitPossessivesAndContractions("don't") == "do n't"
  {
    var dont := "don't";
    assert !Matches(Rules[0], dont) && !Matches(Rules[1], dont) && Matches(Rules[2], dont);
    FirstMatchAt(Rules, dont, 2);
    assert Rules[2] == Suffix("n't", 3, " n't");
    assert dont[..|dont| - 3] == "do";
    assert "do" + " n't" == "do n't";
  }

  /** Every rule but the four colloquial whole-word ones needs an apostrophe in the word it matches. */
  lemma RuleKinds(k: nat)
    requires k < |Rules| && !(13 <= k <= 16)
    ensures Rules[k].Suffix? ==> '\'' in Rules[k].suffix
    ensures Rules[k].Whole? ==> '\'' in Rules[k].word
  {
  }

  /** A word without an apostrophe does not end with a suffix that holds one. */
  lemma ApostropheSuffix(word: string, suffix: string)
    requires '\'' in suffix && '\'' !in word
    ensures !EndsWith(word, suffix)
  {
    if |suffix| <= |word| {
      var j :| 0 <= j < |suffix| && suffix[j] == '\'';
      assert word[|word| - |suffix|..][j] == word[|word| - |suffix| + j];
    }
  }

  /** A word without an apostrophe matches neither a suffix nor a whole word that holds one. */
  lemma NoApostropheNoMatch(word: string, k: nat)
    requires '\'' !in word && k < |Rules| && !(13 <= k <= 16)
    ensures !Matches(Rules[k], word)
  {
    RuleKinds(k);
    if Rules[k].Suffix? {
      ApostropheSuffix(word, Rules[k].suffix);
    }
  }

  /**
   * A word without an apostrophe is left alone, except for the four
   * colloquial forms the whole-word rules spell out.
   */
  lemma NoApostrophe(word: string)
    requires '\'' !in word
    ensures SplitPossessivesAndContractions(word) ==
      if word == "wanna" then "want to"
      else if word == "hafta" then "have to"
      else if word == "gonna" then "going to"
      else if word == "okay" then "ok"
      else word
  {
    forall k | 0 <= k < |Rules| && !(13 <= k <= 16) ensures !Matches(Rules[k], word) {
      NoApostropheNoMatch(word, k);
    }
    assert Rules[13] == Whole("wanna", "want to") && Rules[14] == Whole("hafta", "have to");
    assert Rules[15] == Whole("gonna", "going to") && Rules[16] == Whole("okay", "ok");
    if word == "wanna" {
      FirstMatchAt(Rules, word, 13);
    } else if word == "hafta" {
      FirstMatchAt(Rules, word, 14);
    } else if word == "gonna" {
      FirstMatchAt(Rules, word, 15);
    } else if word == "okay" {
      FirstMatchAt(Rules, word, 16);
    } else {
      FirstMatchNone(Rules, word);
    }
  }

  /** A colloquial form is spelled out in full. */
  lemma RewriteGonna()
    ensures SplitPossessivesAndContractions("gonna") == "going to"
  {
    NoApostrophe("gonna");
  }

  /**
   * Rule order decides: "can't" also ends with "n't", and the third rule
   * would give "ca n't"; the second rule, tried first, gives "can n't".
   */
  lemma CantTakesTheFirstRule()
    ensures Matches(Rules[2], "can't") && Fire(Rules[2], "can't") == "ca n't"
    ensures SplitPossessivesAndContractions("can't") == "can n't"
  {
    assert !Matches(Rules[0], "can't") && Matches(Rules[1], "can't");
    FirstMatchAt(Rules, "can't", 1);
    assert Rules[2] == Suffix("n't", 3, " n't");
    assert "can't"[..2] == "ca" && "ca" + " n't" == "ca n't";
  }

  /** `[split_possesives_and_contractions(word) for word in line]` */
  function Rewritten(line: Utterance): (r: seq<string>)
    ensures |r| == |line|
  {
    seq(|line|, i requires 0 <= i < |line| => SplitPossessivesAndContractions(line[i]))
  }

  /** `split_line(line)`: every word rewritten, then everything split on white space again. */
  function SplitLine(line: Utterance): (r: Utterance)
    ensures forall i :: 0 <= i < |r| ==> IsWord(r[i])
  {
    Words(Join(" ", Rewritten(line)))
  }

  /** The split of a word's rewriting. */
  function RewriteWords(word: string): Utterance {
    Words(SplitPossessivesAndContractions(word))
  }

  /** `split_line` works word by word: the tokens of each rewritten word, one word after another. */
  lemma SplitLineByWord(line: Utterance)
    ensures SplitLine(line) == ConcatMap(line, RewriteWords)
  {
    WordsOfJoin(Rewritten(line));
    ConcatMapRewritten(line);
  }

  lemma {:induction false} ConcatMapRewritten(line: Utterance)
    ensures ConcatMap(Rewritten(line), Words) == ConcatMap(line, RewriteWords)
  {
    if line != [] {
      ConcatMapRewritten(line[1..]);
      assert Rewritten(line)[1..] == Rewritten(line[1..]);
    }
  }

  /** A line of words that no rule matches comes out of `split_line` unchanged. */
  lemma SplitLineNoMatch(line: Utterance)
    requires forall i :: 0 <= i < |line| ==> IsWord(line[i])
    requires forall i, k :: 0 <= i < |line| && 0 <= k < |Rules| ==> !Matches(Rules[k], line[i])
    ensures SplitLine(line) == line
  {
    var rewritten := Rewritten(line);
    forall i | 0 <= i < |line| ensures rewritten[i] == line[i] {
      FirstMatchNone(Rules, line[i]);
    }
    assert rewritten == line;
    WordsJoinWords(line);
  }

  /** `split_data(data)`: every line passed through `split_line`, file ids and number of entries kept. */
  function SplitData(data: Flat): (r: Flat)
    ensures |r| == |data| && Keys(r) == Keys(data)
    ensures forall i, j :: 0 <= i < |r| && 0 <= j < |r[i].1| ==> IsWord(r[i].1[j])
  {
    var r := seq(|data|, i requires 0 <= i < |data| => (data[i].0, SplitLine(data[i].1)));
    assert forall i :: 0 <= i < |data| ==> Keys(r)[i] == Keys(data)[i];
    r
  }
}
