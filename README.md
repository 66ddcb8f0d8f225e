# CHILDES corpus splitting and token post-processing, in Dafny

This project models two files of a CHILDES language-model data pipeline.

`data/CHILDES/CHILDES_xml_Processing.py` holds the in-memory splitting logic. It starts from a
mapping of transcript file ids to the utterances of every speaker except the target child. An
utterance is a list of tokens. The steps are:

1. Pick out the participants to keep.
2. Separate the treebank transcripts from the rest.
3. Hold out every k-th treebank file after a stable sort by question count.
4. Merge the remaining files with the non-treebank files.
5. Deal the files in batches of `sum(split_ratio)` into valid, test and train.
6. Remix the held-out pairs into test, moving a tail of test into valid at a change of file.
7. Regroup every dataset by file, optionally shuffling the file order.

`data/CHILDES/CHILDES_txt_Processing.py` holds the token post-processing:

- listifying text into token lines and back;
- dropping one-token utterances and underscores;
- rewriting possessives and contractions by an ordered list of rules;
- counting word frequencies;
- building the ranked vocabulary with its cutoff;
- replacing unknown words by `<unk>`.

How the model represents the program:

- **Dicts.** A Python dict is a sequence of (key, value) pairs with distinct keys, because the
  pipeline depends on insertion order throughout (module `Dicts`). Assignment appends a new key and
  keeps an existing key in place. `pop` removes the entry. `{**a, **b}` keeps `a`'s order.
- **Sorting.** `sorted` is a stable insertion sort on an integer key (module `Sorting`).
  `reverse=True` is the sort on the negated key, because Python keeps `reverse=True` sorts stable.
- **Negative indexing and slicing.** Python's rules for these are written out in module `PyLists`,
  and `remix_held_out` uses them directly.
- **Randomness.** `random.shuffle` is a parameter. For a batch of `split` it is an arrangement of
  the batch's positions. For the final `shuffle` it is a permutation of the list of files.
  Every property holds for every such arrangement.
- **Imperative code.** Functions that work by loops and in-place updates are methods with loop
  invariants. They are proved against a specification function whose properties are proved as
  lemmas: `hold_out`, `split`, `remix_held_out`, `data_to_files_to_utterances`,
  `get_non_target_child_participants`, `is_treebank_file`, `count_frequencies`, `unk`,
  `clean_and_unk` and the dict comprehension ending `process_childes_xml`.
- **Pure code.** Comprehensions, sorts and if-chains are functions.

Behaviour of the code that is easy to misread:

- **Order of the splits.** The default `split_ratio` is declared valid, test, train
  (`CHILDES_xml_Processing.py:147`), so a short final batch fills valid first, not train.
- **What the remix scan compares against.** The scan compares against the file of `test[-reshuffle_size]`
  captured before the loop (line 183), not against the last pair of test. It therefore always steps
  at least once: with two single-utterance files at the end of test and four excluded pairs, one
  pair moves to valid, not two.
- **When the remix scan runs off test.** The scan is not reported as a precondition failure. It
  follows Python: `test[-0]` is `test[0]`, so a scan that reaches 0 wraps round to the front of
  test. Only a read past either end raises `IndexError`. See "## Findings".

## Model

| member | source | states |
|---|---|---|
| Participants.GetNonTargetChildParticipants | data/CHILDES/CHILDES_xml_Processing.py:76-92 | the ids of every participant that is neither "Target_Child" nor "Child", in visiting order, followed by the "Child" ids exactly when some participant is "Target_Child" |
| Participants.IdsWhereMembers | data/CHILDES/CHILDES_xml_Processing.py:84-89 | an id is collected exactly when some participant with that id has a role of the kind collected |
| Participants.NonTargetChildMembership | data/CHILDES/CHILDES_xml_Processing.py:84-91 | an id is returned iff its participant is neither a target child nor a child, or is a "Child" in a transcript that has a "Target_Child" |
| Treebank.Contains | data/CHILDES/CHILDES_xml_Processing.py:105 | the scan answers true exactly when the name occurs in the file id at some position (Python's `in` on strings) |
| Treebank.IsTreebankFile | data/CHILDES/CHILDES_xml_Processing.py:103-107 | the early-return loop answers true iff one of Brown, Soderstrom, Valian, Suppes, HSLLD/HV1 occurs in the file id |
| Treebank.FilesWhere | data/CHILDES/CHILDES_xml_Processing.py:112-113 | a comprehension keeps exactly the entries on the wanted side, unchanged and in dict order |
| Treebank.FilesWhereSplit | data/CHILDES/CHILDES_xml_Processing.py:111-114 | the two sides together hold every input entry exactly once |
| Treebank.SplitTreebank | data/CHILDES/CHILDES_xml_Processing.py:111-114 | treebank files on the left, the others on the right, each in input order; together they hold every input entry exactly once and unchanged |
| Pipeline.TreebankSides | data/CHILDES/CHILDES_xml_Processing.py:242 | both sides of the treebank split are dicts, and no file id is on both sides |
| HoldOut.CountQuestions | data/CHILDES/CHILDES_xml_Processing.py:118-119 | at most the number of utterances; zero iff no utterance ends in '?', all iff every utterance does |
| HoldOut.SortDictByNumberOfQuestions | data/CHILDES/CHILDES_xml_Processing.py:124-125 | a reordering of the same entries that stays a dict |
| HoldOut.SortDictByNumberOfQuestionsOrdered | data/CHILDES/CHILDES_xml_Processing.py:124-125 | question counts never decrease along the sorted dict |
| HoldOut.SortDictByNumberOfQuestionsStable | data/CHILDES/CHILDES_xml_Processing.py:124-125 | files with the same question count keep their input order |
| HoldOut.StridedSplit | data/CHILDES/CHILDES_xml_Processing.py:137-139 | the positions that are multiples of k and the others share out the entries |
| HoldOut.StridedCount | data/CHILDES/CHILDES_xml_Processing.py:137-138 | exactly ceil(n / abs(k)) of the positions 0 .. n-1 are multiples of k |
| HoldOut.HoldOut | data/CHILDES/CHILDES_xml_Processing.py:133-140 | the pop-and-insert loop leaves in `excluded` exactly the sorted files at positions i with i % k == 0, in order, and every other file in `included` |
| HoldOut.StridedPartition | data/CHILDES/CHILDES_xml_Processing.py:133-140 | the two halves of a dict share out its entries, share no key, and the taken half has ceil(n / abs(k)) entries |
| HoldOut.HoldOutPartition | data/CHILDES/CHILDES_xml_Processing.py:133-140 | included and excluded share out the input's files unchanged, no file is in both, and ceil(n / abs(k)) files are excluded |
| Sorting.SortBy | data/CHILDES/CHILDES_xml_Processing.py:125 | the sort is a permutation of its input with keys in non-decreasing order |
| Sorting.SortByStable | data/CHILDES/CHILDES_xml_Processing.py:171 | elements with equal keys keep their input order |
| Splitter.SortDictByValueLength | data/CHILDES/CHILDES_xml_Processing.py:170-171 | a reordering of the same entries with utterance counts non-increasing, still a dict |
| Splitter.SortDictByValueLengthStable | data/CHILDES/CHILDES_xml_Processing.py:170-171 | files with equally many utterances keep their input order |
| Splitter.PreBounds | data/CHILDES/CHILDES_xml_Processing.py:160-165 | with non-negative weights the running offset `count_` stays between 0 and `sum(ratio)` |
| Splitter.DealIdx | data/CHILDES/CHILDES_xml_Processing.py:155-166 | from the batch at `count` on, a split is only dealt positions from `count` up to the end of the file list |
| Splitter.ExtendWithFiles | data/CHILDES/CHILDES_xml_Processing.py:162-164 | the inner loop appends the pairs of the chosen files, file after file, each file's utterances in order |
| Splitter.DealBatch | data/CHILDES/CHILDES_xml_Processing.py:160-165 | each split in ratio order gets the pairs of the files at its window `indices[count_:count_+ratio]`; names and order of the splits are kept |
| Splitter.SplitBatch | data/CHILDES/CHILDES_xml_Processing.py:155-166 | one round of the while loop moves `count` forward to the next batch within the file list and keeps what each split will end up with unchanged |
| Splitter.Split | data/CHILDES/CHILDES_xml_Processing.py:145-167 | one list per split in the declared ratio order, under distinct names as the ratio dict has them; split j holds the pairs of the files dealt to it, batch after batch |
| SplitFacts.WindowsAll | data/CHILDES/CHILDES_xml_Processing.py:160-165 | the windows of one batch, in ratio order, tile its whole index list |
| SplitFacts.SplitCoversInput | data/CHILDES/CHILDES_xml_Processing.py:150-167 | whatever the shuffle, the splits together hold every input pair exactly as often as the input does, so as many pairs as the input has utterances |
| SplitFacts.DealtOnce | data/CHILDES/CHILDES_xml_Processing.py:155-166 | no file is dealt twice to one split, nor to two different splits |
| SplitFacts.SplitKeepsFilesWhole | data/CHILDES/CHILDES_xml_Processing.py:150-167 | each split holds each of its files as one run of pairs, and no file id occurs in two splits |
| SplitFacts.NoShuffleWindows | data/CHILDES/CHILDES_xml_Processing.py:153-166 | without shuffling, split j gets exactly the sorted positions whose offset inside their batch of `sum(ratio)` lies in `[Pre_j, Pre_j + ratio_j)`, so a short final batch reaches only the splits declared first |
| Pipeline.DefaultDealable | data/CHILDES/CHILDES_xml_Processing.py:147-153 | the default ratio {valid: 5, test: 5, train: 90} deals every file list, for every batch shuffle |
| PyLists.UptoFrom | data/CHILDES/CHILDES_xml_Processing.py:186 | `s[:x] + s[x:]` is `s` for every integer x, negative or zero included |
| PyLists.AtFrom | data/CHILDES/CHILDES_xml_Processing.py:183-186 | for 0 < x <= len(s), `s[-x]` is the first element of `s[-x:]`, which has x elements |
| Remix.Remix | data/CHILDES/CHILDES_xml_Processing.py:178-186 | when no IndexError: the sizes add up, new valid starts with valid, new test ends with the excluded pairs in dict order, and what was cut from test is exactly what was moved; with no excluded pairs all of test moves to valid and new test is empty |
| Remix.RemixHeldOut | data/CHILDES/CHILDES_xml_Processing.py:178-186 | the method with its decrementing scan loop computes `Remix`, raising IndexError exactly where Python would |
| Remix.RemixKeepsPairs | data/CHILDES/CHILDES_xml_Processing.py:178-186 | no pair is lost or made up: the new lists hold the pairs of valid, test and the excluded files |
| Remix.ScanStops | data/CHILDES/CHILDES_xml_Processing.py:183-185 | the scan stops at the first size, counting down, whose pair is readable and from another file than the one captured; when it raises, every readable pair from the start down was from that file |
| Remix.RemixIndexError | data/CHILDES/CHILDES_xml_Processing.py:181-185 | IndexError iff there are excluded pairs and test is shorter than half of them, or test is empty or all from one file |
| Remix.RemixCutsAtFileChange | data/CHILDES/CHILDES_xml_Processing.py:183-186 | with excluded pairs, at least one pair of test moves to valid, and the cut between the part that stays and the part that moves is a change of file id |
| Remix.RemixKeepsTestFilesWhole | data/CHILDES/CHILDES_xml_Processing.py:177-186 | when test lists each file as one run, the remix splits no file between the new valid and the new test: a file of the new valid is in old valid or test, a file of the new test is in old test or excluded, and a file on both sides was already in valid or excluded |
| Remix.RemixWrapsToFront | data/CHILDES/CHILDES_xml_Processing.py:183-186 | on a test of two files and two excluded pairs, the code as written moves all of test to valid while the corrected version moves nothing |
| Remix.RemixCorrected | data/CHILDES/CHILDES_xml_Processing.py:174-186 | the intended remix: IndexError iff half the excluded pairs exceed test; otherwise at most that many pairs of test move, the cut is at a change of file, sizes add up, and nothing moves when there are no excluded pairs |
| Dicts.Put | data/CHILDES/CHILDES_xml_Processing.py:193-195 | `d[k] = v`: an existing key keeps its place, a new key goes last, keys stay distinct, `d[k]` reads v and no other entry changes |
| Dicts.Remove | data/CHILDES/CHILDES_xml_Processing.py:139 | `pop` removes exactly the entry of that key |
| Dicts.GetRemoveAt | data/CHILDES/CHILDES_xml_Processing.py:139 | looking up and popping an entry leaves the entries before and after it, in order |
| Dicts.Dedup | data/CHILDES/CHILDES_xml_Processing.py:189-196 | the distinct elements in order of first occurrence: every element appears, each once |
| Regroup.Group | data/CHILDES/CHILDES_xml_Processing.py:189-196 | one entry per file in order of first occurrence, holding that file's utterances in their order, never empty |
| Regroup.AddUtteranceKeeps | data/CHILDES/CHILDES_xml_Processing.py:191-195 | one round of the loop, in either branch, keeps the dict in step with the pairs read so far |
| Regroup.DataToFilesToUtterances | data/CHILDES/CHILDES_xml_Processing.py:189-196 | the loop builds the regrouped dict `Group` |
| Regroup.GroupUtts | data/CHILDES/CHILDES_xml_Processing.py:189-196 | in the regrouped dict every file holds exactly its utterances in the data, in order |
| Corpus.Flatten | data/CHILDES/CHILDES_xml_Processing.py:199-204 | every pair of the flat list carries the id of one of the mapping's files |
| Corpus.FlattenSize | data/CHILDES/CHILDES_xml_Processing.py:199-204 | the flat list holds as many pairs as the mapping holds utterances |
| Corpus.FlattenContiguous | data/CHILDES/CHILDES_xml_Processing.py:199-204 | flattening a dict gives a list in which each file's pairs form one run |
| Corpus.NoSharedFiles | data/CHILDES/CHILDES_xml_Processing.py:177 | two flat lists share no file exactly when the sets of their file ids are disjoint |
| Corpus.CutBetweenFiles | data/CHILDES/CHILDES_xml_Processing.py:177 | cutting a list whose files form runs at a change of file id leaves no file on both sides |
| Corpus.FlattenApart | data/CHILDES/CHILDES_xml_Processing.py:199-204 | the flattenings of two dicts with no key in common share no file |
| Regroup.UttsOfFlatten | data/CHILDES/CHILDES_xml_Processing.py:204 | in the flattening of a dict, file f's utterances are `m[f]` in order |
| Regroup.FilesToUtterancesToData | data/CHILDES/CHILDES_xml_Processing.py:199-204 | flattening loses no utterance and keeps each file's utterances; regrouping the flattening and flattening again gives it back |
| Regroup.RegroupPerm | data/CHILDES/CHILDES_xml_Processing.py:189-204 | regroup-then-flatten is a permutation of the data with files in first-occurrence order, each file's utterances in order and each file in one run |
| Regroup.RegroupIdentity | data/CHILDES/CHILDES_xml_Processing.py:189-204 | regroup-then-flatten returns the data unchanged iff each file's pairs already form one run |
| Regroup.ArrangedFiles | data/CHILDES/CHILDES_xml_Processing.py:209-212 | listing the regrouped files in any order keeps the pairs, each file's utterance order and each file in one run |
| Regroup.ShuffledFacts | data/CHILDES/CHILDES_xml_Processing.py:207-212 | for every arrangement, `shuffle` gives a permutation of the data with each file's utterances in order and in one run; with `shuffling=False` it is the plain regrouping |
| Regroup.Shuffle | data/CHILDES/CHILDES_xml_Processing.py:207-212 | the method computes the regroup, optional rearrangement and flatten of `shuffle` |
| Dicts.Merge | data/CHILDES/CHILDES_xml_Processing.py:250 | `{**a, **b}` of two dicts is a dict |
| Dicts.MergeDisjoint | data/CHILDES/CHILDES_xml_Processing.py:250 | merging dicts with no key in common lists the second after the first |
| Pipeline.MergeApart | data/CHILDES/CHILDES_xml_Processing.py:250 | `{**not_treebank, **included_treebank}` is the non-treebank files followed by the included treebank files |
| Pipeline.HeldOutPairs | data/CHILDES/CHILDES_xml_Processing.py:242-250 | the merged files' pairs and the excluded files' pairs are together exactly the input's pairs |
| Pipeline.HeldOutTreebank | data/CHILDES/CHILDES_xml_Processing.py:242-245 | every excluded pair comes from a treebank file |
| Pipeline.SplitThree | data/CHILDES/CHILDES_xml_Processing.py:253 | valid, test and train from `split(included)` share out the pairs of `included` |
| Pipeline.DealtApart | data/CHILDES/CHILDES_xml_Processing.py:242-253 | the dealt valid, test and train and the excluded pairs share no file pairwise, and test lists each file as one run |
| Pipeline.DealFiles | data/CHILDES/CHILDES_xml_Processing.py:242-253 | train, valid and test are the three parts `split` deals from the merged files; with the excluded pairs they hold the input's pairs exactly once; the excluded pairs are all treebank pairs; no file is split between any two of valid, test, train and the excluded pairs |
| Pipeline.ShuffleAll | data/CHILDES/CHILDES_xml_Processing.py:272-274 | the closing comprehension shuffles each dataset under its own name, in order |
| Pipeline.ShuffledAllFacts | data/CHILDES/CHILDES_xml_Processing.py:272-274 | after the final shuffles every dataset keeps its name and its pairs, and lists each file as one run |
| Pipeline.RemixedApart | data/CHILDES/CHILDES_xml_Processing.py:177-186 | after the remix and the final shuffles, no file has pairs in two of train, valid and test |
| Pipeline.Assemble | data/CHILDES/CHILDES_xml_Processing.py:258-274 | from the dealt splits, the remix and the final shuffles, the four datasets meet the promise `WellSplit` states: named train, valid, test and excluded in that order, train+valid+test holding every input pair once, excluded pairs being treebank pairs also in test, no file in two of train, valid and test, and every file one run |
| Pipeline.ProcessChildesXml | data/CHILDES/CHILDES_xml_Processing.py:237-275 | without splitting, one "train" list of every pair with each file in one run; with splitting, train, valid, test and excluded in that order, where train+valid+test hold every input pair once, excluded pairs are treebank pairs that are also in test, no file has pairs in two of train, valid and test, and every file is one run; IndexError exactly when splitting and the remix of the dealt valid and test raises: there are excluded pairs and the dealt test is shorter than half of them, empty, or all of one file |
| Text.Words | data/CHILDES/CHILDES_txt_Processing.py:9 | `str.split()` yields non-empty tokens without white space |
| Text.SplitLines | data/CHILDES/CHILDES_txt_Processing.py:9 | `str.splitlines()` yields lines without line boundaries |
| Text.Listify | data/CHILDES/CHILDES_txt_Processing.py:8-9 | one token list per line, every token non-empty and free of white space |
| Text.WordsJoinWords | data/CHILDES/CHILDES_txt_Processing.py:20 | tokens joined by spaces split back into the same tokens |
| Text.JoinWordsOneLine | data/CHILDES/CHILDES_txt_Processing.py:20 | a space-joined line has no line boundary, and is empty iff it has no tokens |
| Text.SplitLinesOfJoin | data/CHILDES/CHILDES_txt_Processing.py:21 | newline-joined lines split back into the same lines, except that an empty last line is lost |
| Text.Unlistify | data/CHILDES/CHILDES_txt_Processing.py:19-21 | for tokens as `split()` produces them, `listify_data` of the text gives data back, minus an empty last line |
| Text.ListifyUnlistify | data/CHILDES/CHILDES_txt_Processing.py:8-21 | `listify_data(unlistify_data(data))` equals data iff data is empty or its last line is not |
| Tokens.SpaceUnderscores | data/CHILDES/CHILDES_txt_Processing.py:36 | `replace("_", " ")` turns exactly the underscores into spaces and keeps the length |
| Tokens.Clean | data/CHILDES/CHILDES_txt_Processing.py:36 | cleaned tokens are non-empty, without white space and without underscores |
| Tokens.CleanAndListify | data/CHILDES/CHILDES_txt_Processing.py:35-37 | every output token is clean |
| Tokens.CleanAndListifyKeeps | data/CHILDES/CHILDES_txt_Processing.py:35-37 | the output is the utterances of more than one token, in order and with their file ids, each cleaned |
| Tokens.LongUtterancesFilter | data/CHILDES/CHILDES_txt_Processing.py:36 | exactly the entries with more than one token are kept, in order |
| Tokens.CleanKeepsCount | data/CHILDES/CHILDES_txt_Processing.py:36 | tokens that each hold a character other than '_' or white space give at least as many tokens after cleaning |
| Tokens.CleanOfClean | data/CHILDES/CHILDES_txt_Processing.py:36 | cleaning is the identity on clean tokens, so cleaning twice is cleaning once |
| Tokens.CleanMayEmpty | data/CHILDES/CHILDES_txt_Processing.py:36 | the length test comes before cleaning: `["_", "_"]` is kept and cleaned to no tokens |
| Tokens.SplitPossessivesAndContractions | data/CHILDES/CHILDES_txt_Processing.py:51-103 | the first rule of the table, in source order, that matches the word rewrites it (a suffix rule cuts its characters off the end and appends its replacement, a whole-word rule replaces the word); a word no rule matches comes back unchanged |
| Tokens.FirstMatchAt | data/CHILDES/CHILDES_txt_Processing.py:51-103 | the first matching rule, in source order, rewrites the word |
| Tokens.FirstMatchNone | data/CHILDES/CHILDES_txt_Processing.py:103 | with no rule matching the word is returned unchanged |
| Tokens.RewritePossessive | data/CHILDES/CHILDES_txt_Processing.py:52-53 | "camel's" becomes "camel 's" |
| Tokens.RewriteContraction | data/CHILDES/CHILDES_txt_Processing.py:56-57 | "don't" becomes "do n't" |
| Tokens.CantTakesTheFirstRule | data/CHILDES/CHILDES_txt_Processing.py:54-57 | "can't" also matches the "n't" rule (which would give "ca n't"), but the earlier rule gives "can n't" |
| Tokens.RewriteGonna | data/CHILDES/CHILDES_txt_Processing.py:82-83 | "gonna" becomes "going to" |
| Tokens.NoApostrophe | data/CHILDES/CHILDES_txt_Processing.py:51-103 | a word without an apostrophe is unchanged, except that wanna, hafta, gonna and okay are spelled out |
| Tokens.SplitLine | data/CHILDES/CHILDES_txt_Processing.py:105-107 | `split_line` yields non-empty tokens without white space |
| Tokens.SplitLineByWord | data/CHILDES/CHILDES_txt_Processing.py:105-107 | `split_line` is the concatenation of each word's rewriting split into tokens |
| Tokens.SplitLineNoMatch | data/CHILDES/CHILDES_txt_Processing.py:105-107 | a line of tokens that no rule matches comes out unchanged |
| Tokens.SplitData | data/CHILDES/CHILDES_txt_Processing.py:109-110 | the number of entries and every file name are kept, and every token is non-empty and free of white space |
| Vocab.BumpFacts | data/CHILDES/CHILDES_txt_Processing.py:127 | counting one token adds one to its count and to the total and leaves every other count alone |
| Vocab.TallyFacts | data/CHILDES/CHILDES_txt_Processing.py:124-128 | tallying tokens gives every word its number of occurrences, holds exactly the words that occur, and the counts sum to the number of tokens |
| Vocab.CountFrequencies | data/CHILDES/CHILDES_txt_Processing.py:124-128 | the loop maps every word to its number of occurrences over all lines, holds exactly the words that occur, and its counts sum to the number of tokens |
| Vocab.StrLessTotal | data/CHILDES/CHILDES_txt_Processing.py:133 | Python's string order compares any two different words |
| Vocab.StrLessTransitive | data/CHILDES/CHILDES_txt_Processing.py:133 | Python's string order is transitive |
| Vocab.SortItemsRanked | data/CHILDES/CHILDES_txt_Processing.py:133 | sorting by `(-count, word)` ranks the items strictly: counts descending, ties by word ascending |
| Vocab.RankedUnique | data/CHILDES/CHILDES_txt_Processing.py:133 | two ranked arrangements of the same items are equal, so any correct sort gives this one |
| Vocab.Above | data/CHILDES/CHILDES_txt_Processing.py:134-135 | the filter keeps exactly the items with count above the cutoff, in order |
| Vocab.AboveRanked | data/CHILDES/CHILDES_txt_Processing.py:134-135 | filtering a ranked list keeps it ranked |
| Vocab.VocabularyIndices | data/CHILDES/CHILDES_txt_Processing.py:136 | the vocabulary numbers its words 0 .. n-1 in order, each word once |
| Vocab.VocabularyMembers | data/CHILDES/CHILDES_txt_Processing.py:131-136 | a word is in the vocabulary iff it occurs in the data and, with a non-zero cutoff, more than cutoff times |
| Vocab.VocabularyOrder | data/CHILDES/CHILDES_txt_Processing.py:131-136 | vocabulary words come by descending frequency, ties by ascending word |
| Vocab.MakeVocab | data/CHILDES/CHILDES_txt_Processing.py:131-136 | computes the vocabulary from `count_frequencies`; its indices are 0 .. n-1 and its words distinct |
| Vocab.Unk | data/CHILDES/CHILDES_txt_Processing.py:138-143 | the loop appends each unked line in turn and computes `Unked` |
| Vocab.UnkedShape | data/CHILDES/CHILDES_txt_Processing.py:138-143 | unking keeps the number of lines, every file name and every line length; a token stays iff it is in the vocabulary (or is already the unknown token), any other becomes the unknown token |
| Vocab.UnkedIdempotent | data/CHILDES/CHILDES_txt_Processing.py:141 | unking twice with one vocabulary is unking once |
| Vocab.UnkedKnown | data/CHILDES/CHILDES_txt_Processing.py:141 | data whose tokens are all in the vocabulary is left unchanged |
| Vocab.UnkedOwnVocabulary | data/CHILDES/CHILDES_txt_Processing.py:131-143 | with cutoff 0, unking data against its own vocabulary changes nothing |
| TextDatasets.PrepareAll | data/CHILDES/CHILDES_txt_Processing.py:151-154 | the two comprehensions keep every split's name and place |
| TextDatasets.PrepareAllGet | data/CHILDES/CHILDES_txt_Processing.py:151-158 | looking a split up after the two comprehensions, as line 158 does for "train", gives that split cleaned and split |
| TextDatasets.CleanAndUnk | data/CHILDES/CHILDES_txt_Processing.py:149-169 | KeyError iff there is no "train"; otherwise every split keeps its name and place and is cleaned and split, and when unking exactly train, valid and test are unked against the vocabulary of the prepared train split; the word list is that vocabulary's words, preceded by the unknown token when unking |
| TextDatasets.UnkedTokensListed | data/CHILDES/CHILDES_txt_Processing.py:161-165 | when unking, every token of an unked split is in the returned word list |

## Left out

- Input and output are not modelled: reading and writing files (`read_data`, `write_data`),
  `preprocess`, `copy_directory`, `find_replace`, `read_corpora`, the command line of `main.py`,
  and every `print`.
- `map_files_to_non_target_child_utterances` and `get_utterances_filtered_by_participants` are not
  modelled. They are thin calls into an nltk `CHILDESCorpusReader`, which is not part of this model.
  The pipeline takes their result as its input: a dict of file ids to utterances, none of them empty
  (`AllNonEmpty`), as line 98 guarantees.
- Participants.GetNonTargetChildParticipants: takes the list of participant dicts the corpus reader
  returns for a transcript, each dict as the sequence of its values in key order, instead of the
  reader and a file id.
- `random.seed` and the random number generator are not modelled. Each `random.shuffle` is a
  caller-supplied arrangement, and every property is proved for all arrangements. A fixed seed
  therefore does not determine the output in the model.
- `CHILDES_Treebank_Processing` and `CHILDES_Treebank_txt_Processing`, imported by `main.py`, are
  not part of this model.
- Remix.Half: `int(excluded_size/2)` goes through float division; the model takes integer floor
  division, which agrees for every size below 2^53.
- HoldOut.HoldOut: `exclude_every_kth == 0` on a non-empty mapping raises ZeroDivisionError in
  Python; the model requires a non-zero k instead of modelling that error.
- Splitter.Split: requires non-negative ratio weights, and a positive `sum(ratio)` when there are
  files. Negative weights give slices with negative bounds, which are not modelled. A zero or
  negative sum makes the `while` loop of the source never end.
- Pipeline.ProcessChildesXml: `split` is called with its default `shuffling=True` whatever the
  `shuffling` flag is. Only the final per-dataset `shuffle` uses the flag. The model does the same,
  so the batch arrangement is always a parameter.
- Text.IsSpace and Text.IsLineBreak list the characters that `str.isspace()` and
  `str.splitlines()` treat as white space and line boundaries in current Python 3. Changes to
  those sets in other Unicode versions are not followed.
- Vocab.StrLess: Python's string comparison is modelled as code-point order on `seq<char>`. There
  is no Unicode normalisation.
- `Counter` is modelled as an insertion-ordered dict of counts. Its order never shows, because
  `make_vocab` sorts it and `Vocab.RankedUnique` shows that the sorted order is unique.

## Findings

| source | as written | input that shows it | evidently intended | confidence | as-written member | corrected member |
|---|---|---|---|---|---|---|
| data/CHILDES/CHILDES_xml_Processing.py:183-186 | the scan decrements `reshuffle_size` down to 0 when the last file of `test` ends the list, and `test[-0]` reads `test[0]`; with 0 the slices `test[-0:]` and `test[:-0]` move all of `test` into `valid` | `test = [("a", ["hi"]), ("b", ["yo"])]`, `excluded = {"x": [["one"], ["two"]]}`: all of `test` goes to `valid` and the new `test` holds only the excluded pairs | move at most `int(excluded_size/2)` pairs of `test`, cutting at a change of file and moving nothing when `reshuffle_size` is 0 | high (not executed) | Remix.RemixWrapsToFront | Remix.RemixCorrected |

`Remix.Remix` is the remix as written and is what `Pipeline.ProcessChildesXml` uses, because the
pipeline's outputs depend on that behaviour. `Remix.RemixCorrected` states and proves the intended
cut. `Tokens.CleanMayEmpty`, an utterance cleaned down to no tokens, is stated as the code's
behaviour and is not claimed as a finding.
