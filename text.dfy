/**
 * The text primitives the token post-processing is built from: Python's
 * `str.split()` with no argument, `str.splitlines()` and `str.join`, and
 * the two helpers made of them, `listify_data` and `unlistify_data`.
 */
module Text {
  import opened Seqs

  /** `c.isspace()`: the characters `str.split()` with no argument breaks on. */
  predicate IsSpace(c: char) {
    var n := c as int;
    || 9 <= n <= 13 || 28 <= n <= 32
    || n == 133 || n == 160 || n == 5760 || 8192 <= n <= 8202
    || n == 8232 || n == 8233 || n == 8239 || n == 8287 || n == 12288
  }

  /** The line boundaries of `str.splitlines()`; `"\r\n"` is one boundary made of two of them. */
  predicate IsLineBreak(c: char) {
    var n := c as int;
    10 <= n <= 13 || 28 <= n <= 30 || n == 133 || n == 8232 || n == 8233
  }

  /** A token as `str.split()` produces it: non-empty and without white space. */
  predicate IsWord(w: string) {
    w != [] && forall j :: 0 <= j < |w| ==> !IsSpace(w[j])
  }

  /** Text without any line boundary. */
  predicate IsOneLine(s: string) {
    forall j :: 0 <= j < |s| ==> !IsLineBreak(s[j])
  }

  /** Where the word at the start of `s` ends: the first white space, or the end of `s`. */
  function WordEnd(s: string): (e: nat)
    ensures e <= |s|
    ensures forall j :: 0 <= j < e ==> !IsSpace(s[j])
    ensures e < |s| ==> IsSpace(s[e])
  {
    if s == [] || IsSpace(s[0]) then 0 else 1 + WordEnd(s[1..])
  }

  /** Where the line at the start of `s` ends: the first line boundary, or the end of `s`. */
  function LineEnd(s: string): (e: nat)
    ensures e <= |s|
    ensures forall j :: 0 <= j < e ==> !IsLineBreak(s[j])
    ensures e < |s| ==> IsLineBreak(s[e])
  {
    if s == [] || IsLineBreak(s[0]) then 0 else 1 + LineEnd(s[1..])
  }

  /** `s.split()`: the maximal runs of non-white-space characters, in order. */
  function Words(s: string): (r: seq<string>)
    ensures forall i :: 0 <= i < |r| ==> IsWord(r[i])
    decreases |s|
  {
    if s == [] then []
    else if IsSpace(s[0]) then Words(s[1..])
    else
      var e := WordEnd(s);
      [s[..e]] + Words(s[e..])
  }

  /**
   * `s.splitlines()`: the text between line boundaries; a boundary at the
   * very end does not start another, empty, line.
   */
  function SplitLines(s: string): (r: seq<string>)
    ensures forall i :: 0 <= i < |r| ==> IsOneLine(r[i])
    decreases |s|
  {
    if s == [] then []
    else
      var e := LineEnd(s);
      if e == |s| then [s]
      else
        var width := if s[e] == '\r' && e + 1 < |s| && s[e + 1] == '\n' then 2 else 1;
        [s[..e]] + SplitLines(s[e + width..])
  }

  /** `sep.join(parts)` */
  function Join(sep: string, parts: seq<string>): string {
    if parts == [] then []
    else if |parts| == 1 then parts[0]
    else parts[0] + sep + Join(sep, parts[1..])
  }

  /** `listify_data(raw_string)`: every line of the text as its list of tokens. */
  function Listify(raw: string): (r: seq<seq<string>>)
    ensures |r| == |SplitLines(raw)|
    ensures forall i, j :: 0 <= i < |r| && 0 <= j < |r[i]| ==> IsWord(r[i][j])
  {
    var lines := SplitLines(raw);
    seq(|lines|, i requires 0 <= i < |lines| => Words(lines[i]))
  }

  /**
   * `unlistify_data(data)`: tokens joined by a space, lines by a newline.
   * For tokens as `split()` produces them, `listify_data` reads the text
   * back as `data`, less an empty last line, which only leaves a trailing
   * newline that `splitlines()` drops.
   */
  function Unlistify(data: seq<seq<string>>): (r: string)
    ensures AllWords(data) ==>
      Listify(r) == if data != [] && data[|data| - 1] == [] then data[..|data| - 1] else data
  {
    ListifyJoinedLines(data);
    Join("\n", JoinedLines(data))
  }

  /** `[" ".join(line) for line in data]` */
  function JoinedLines(data: seq<seq<string>>): (r: seq<string>)
    ensures |r| == |data|
  {
    seq(|data|, i requires 0 <= i < |data| => Join(" ", data[i]))
  }

  /** Every line of `data` is a list of tokens as `str.split()` produces them. */
  predicate AllWords(data: seq<seq<string>>) {
    forall i, j :: 0 <= i < |data| && 0 <= j < |data[i]| ==> IsWord(data[i][j])
  }

  /** A word is split into itself. */
  lemma WordsOfWord(w: string)
    requires IsWord(w)
    ensures Words(w) == [w]
  {
    assert WordEnd(w) == |w|;
    assert w[..|w|] == w && w[|w|..] == [];
  }

  /** Splitting text joined at a space splits each side on its own. */
  lemma {:induction false} WordsAtSpace(x: string, y: string)
    ensures Words(x + " " + y) == Words(x) + Words(y)
    decreases |x|
  {
    var s := x + " " + y;
    if x == [] {
      assert s[1..] == y;
    } else if IsSpace(x[0]) {
      assert s[1..] == x[1..] + " " + y;
      WordsAtSpace(x[1..], y);
    } else {
      var e := WordEnd(x);
      WordEndAt(x, y);
      assert s[..e] == x[..e];
      assert s[e..] == x[e..] + " " + y;
      WordsAtSpace(x[e..], y);
    }
  }

  /** A word ends no later than a space that follows it. */
  lemma WordEndAt(x: string, y: string)
    ensures WordEnd(x + " " + y) == WordEnd(x)
  {
    var s := x + " " + y;
    assert s[|x|] == ' ';
    forall j | 0 <= j < |x| ensures s[j] == x[j] {
    }
  }

  /** Splitting a space-joined list splits every part on its own and concatenates the results. */
  lemma {:induction false} WordsOfJoin(parts: seq<string>)
    ensures Words(Join(" ", parts)) == ConcatMap(parts, Words)
  {
    if parts == [] {
    } else if |parts| == 1 {
      assert parts[1..] == [];
    } else {
      WordsAtSpace(parts[0], Join(" ", parts[1..]));
      WordsOfJoin(parts[1..]);
    }
  }

  /** Tokens joined by spaces split back into the same tokens. */
  lemma {:induction false} WordsJoinWords(ws: seq<string>)
    requires forall i :: 0 <= i < |ws| ==> IsWord(ws[i])
    ensures Words(Join(" ", ws)) == ws
  {
    WordsOfJoin(ws);
    ConcatMapWords(ws);
  }

  lemma {:induction false} ConcatMapWords(ws: seq<string>)
    requires forall i :: 0 <= i < |ws| ==> IsWord(ws[i])
    ensures ConcatMap(ws, Words) == ws
  {
    if ws != [] {
      WordsOfWord(ws[0]);
      ConcatMapWords(ws[1..]);
      assert ws == [ws[0]] + ws[1..];
    }
  }

  /** Tokens joined by spaces make one line, empty exactly when there are no tokens. */
  lemma {:induction false} JoinWordsOneLine(ws: seq<string>)
    requires forall i :: 0 <= i < |ws| ==> IsWord(ws[i])
    ensures IsOneLine(Join(" ", ws))
    ensures Join(" ", ws) == [] <==> ws == []
  {
    if |ws| > 1 {
      JoinWordsOneLine(ws[1..]);
      var s := Join(" ", ws);
      assert s == ws[0] + " " + Join(" ", ws[1..]);
      forall j | 0 <= j < |s| ensures !IsLineBreak(s[j]) {
        if j < |ws[0]| {
          assert s[j] == ws[0][j];
        } else if j > |ws[0]| {
          assert s[j] == Join(" ", ws[1..])[j - |ws[0]| - 1];
        }
      }
    }
  }

  /** A line followed by a newline is split off as the first line. */
  lemma SplitLinesStep(l: string, rest: string)
    requires IsOneLine(l)
    ensures SplitLines(l + "\n" + rest) == [l] + SplitLines(rest)
  {
    var s := l + "\n" + rest;
    assert s[|l|] == '\n';
    assert LineEnd(s) == |l|;
    assert s[..|l|] == l && s[|l| + 1..] == rest;
  }

  /** A single line splits into itself, or into nothing when it is empty. */
  lemma SplitOneLine(l: string)
    requires IsOneLine(l)
    ensures SplitLines(l) == if l == [] then [] else [l]
  {
    if l != [] {
      assert LineEnd(l) == |l|;
    }
  }

  /**
   * Lines joined by newlines split back into the same lines, except that an
   * empty last line is lost: the newline before it ends the text.
   */
  lemma {:induction false} SplitLinesOfJoin(lines: seq<string>)
    requires forall i :: 0 <= i < |lines| ==> IsOneLine(lines[i])
    ensures SplitLines(Join("\n", lines)) == if lines != [] && lines[|lines| - 1] == [] then lines[..|lines| - 1] else lines
  {
    if lines == [] {
      assert Join("\n", lines) == [];
    } else if |lines| == 1 {
      assert Join("\n", lines) == lines[0];
      SplitOneLine(lines[0]);
    } else {
      var l, rest := lines[0], lines[1..];
      assert lines == [l] + rest;
      var tail := Join("\n", rest);
      assert Join("\n", lines) == l + "\n" + tail;
      SplitLinesStep(l, tail);
      SplitLinesOfJoin(rest);
      assert SplitLines(Join("\n", lines)) == [l] + SplitLines(tail);
      PrependBeforeLast(l, rest);
    }
  }

  /** Putting a line in front does not change whether the last line is dropped. */
  lemma PrependBeforeLast(l: string, rest: seq<string>)
    requires rest != []
    ensures [l] + (if rest[|rest| - 1] == [] then rest[..|rest| - 1] else rest)
      == var lines := [l] + rest; if lines[|lines| - 1] == [] then lines[..|lines| - 1] else lines
  {
    var lines := [l] + rest;
    assert lines[|lines| - 1] == rest[|rest| - 1];
    assert lines[..|lines| - 1] == [l] + rest[..|rest| - 1];
  }

  /** Splitting the joined lines and then each line's tokens gives the lines back, less an empty last one. */
  lemma ListifyJoinedLines(data: seq<seq<string>>)
    ensures AllWords(data) ==>
      Listify(Join("\n", JoinedLines(data))) == if data != [] && data[|data| - 1] == [] then data[..|data| - 1] else data
  {
    if AllWords(data) {
      var lines := JoinedLines(data);
      forall i | 0 <= i < |data| ensures IsOneLine(lines[i]) && (lines[i] == [] <==> data[i] == []) {
        JoinWordsOneLine(data[i]);
      }
      SplitLinesOfJoin(lines);
      var back := SplitLines(Join("\n", lines));
      var n := |back|;
      forall i | 0 <= i < n ensures Words(back[i]) == data[i] {
        WordsJoinWords(data[i]);
      }
    }
  }

  /**
   * `listify_data(unlistify_data(data)) == data` for tokens as `split()`
   * produces them exactly when the last line is not empty.
   */
  lemma ListifyUnlistify(data: seq<seq<string>>)
    requires AllWords(data)
    ensures Listify(Unlistify(data)) == data <==> data == [] || data[|data| - 1] != []
  {
    if data != [] && data[|data| - 1] == [] {
      assert |data[..|data| - 1]| < |data|;
    }
  }
}
