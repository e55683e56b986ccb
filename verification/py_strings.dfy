/** The parts of Python's `str` behaviour the decoder relies on: splitting on
    whitespace (`split()`, `split(maxsplit=1)`), splitting on one character
    (`split(sep)`), `join`, `replace`, `strip`, `startswith`/`endswith` and
    `splitlines`.

    The functions carry only quantifier-free contracts; what holds of every
    character of a result is stated by the `...Spec` lemmas next to them. */
module PyStrings {

  /** Characters for which Python's `str.isspace()` holds. */
  predicate IsSpace(c: char) {
    || c == ' '
    || '\t' <= c <= '\r'
    || '\U{1C}' <= c <= '\U{1F}'
    || c == '\U{85}' || c == '\U{A0}' || c == '\U{1680}'
    || '\U{2000}' <= c <= '\U{200A}'
    || c == '\U{2028}' || c == '\U{2029}' || c == '\U{202F}' || c == '\U{205F}' || c == '\U{3000}'
  }

  predicate NoSpace(s: string) {
    forall i :: 0 <= i < |s| ==> !IsSpace(s[i])
  }

  /** A token that `str.split()` can produce: non-empty, without whitespace. */
  predicate IsWord(w: string) {
    |w| > 0 && NoSpace(w)
  }

  predicate AllWords(ws: seq<string>) {
    forall i :: 0 <= i < |ws| ==> IsWord(ws[i])
  }

  /** `s.startswith(prefix)`, compared character by character. */
  predicate StartsWith(s: string, prefix: string) {
    |prefix| == 0 || (|s| > 0 && s[0] == prefix[0] && StartsWith(s[1..], prefix[1..]))
  }

  /** `s.endswith(suffix)`, compared character by character from the end. */
  predicate EndsWith(s: string, suffix: string) {
    |suffix| == 0 || (|s| > 0 && s[|s| - 1] == suffix[|suffix| - 1] && EndsWith(s[..|s| - 1], suffix[..|suffix| - 1]))
  }

  /** Length of the leading run of non-whitespace characters. */
  function WordLength(s: string): (k: nat)
    ensures k <= |s|
    ensures k < |s| ==> IsSpace(s[k])
  {
    if |s| == 0 || IsSpace(s[0]) then 0 else 1 + WordLength(s[1..])
  }

  /** `s.lstrip()` */
  function LStrip(s: string): (r: string)
    ensures |r| <= |s|
    ensures |r| > 0 ==> !IsSpace(r[0])
  {
    if |s| > 0 && IsSpace(s[0]) then LStrip(s[1..]) else s
  }

  /** `s.rstrip()` */
  function RStrip(s: string): (r: string)
    ensures |r| <= |s|
    ensures |r| > 0 ==> !IsSpace(r[|r| - 1])
  {
    if |s| > 0 && IsSpace(s[|s| - 1]) then RStrip(s[..|s| - 1]) else s
  }

  /** `s.strip()` */
  function Strip(s: string): string {
    RStrip(LStrip(s))
  }

  /** `s.split()`: the maximal runs of non-whitespace characters, in order. */
  function Words(s: string): seq<string>
    decreases |s|
  {
    if |s| == 0 then []
    else if IsSpace(s[0]) then Words(s[1..])
    else
      var k := WordLength(s);
      [s[..k]] + Words(s[k..])
  }

  /** `sep.join(parts)` */
  function Join(parts: seq<string>, sep: string): string {
    if |parts| == 0 then ""
    else if |parts| == 1 then parts[0]
    else parts[0] + sep + Join(parts[1..], sep)
  }

  /** `s.split(maxsplit=1)`: the first word and, if anything but whitespace
      follows it, the remainder with its leading whitespace removed (trailing
      whitespace is kept). */
  function SplitOnce(s: string): (parts: seq<string>)
    ensures |parts| <= 2
    ensures |parts| == 2 ==> |parts[1]| > 0 && !IsSpace(parts[1][0])
  {
    var t := LStrip(s);
    if |t| == 0 then []
    else
      var k := WordLength(t);
      var rest := LStrip(t[k..]);
      if |rest| == 0 then [t[..k]] else [t[..k], rest]
  }

  /** Index of the first `c` in `s`, or `|s|` when there is none. */
  function IndexOf(s: string, c: char): (k: nat)
    ensures k <= |s|
    ensures k < |s| ==> s[k] == c
  {
    if |s| == 0 || s[0] == c then 0 else 1 + IndexOf(s[1..], c)
  }

  /** `s.split(sep)` for a one-character separator: always at least one
      piece, possibly empty ones. */
  function SplitOn(s: string, sep: char): (parts: seq<string>)
    ensures |parts| >= 1
    decreases |s|
  {
    var k := IndexOf(s, sep);
    if k == |s| then [s] else [s[..k]] + SplitOn(s[k + 1..], sep)
  }

  /** `s.replace(x, y)` for single characters. */
  function Replace(s: string, x: char, y: char): (r: string)
    ensures |r| == |s|
  {
    if |s| == 0 then "" else [if s[0] == x then y else s[0]] + Replace(s[1..], x, y)
  }

  /** `[w.replace(x, y) for w in ws]` */
  function ReplaceAll(ws: seq<string>, x: char, y: char): (rs: seq<string>)
    ensures |rs| == |ws|
  {
    seq(|ws|, i requires 0 <= i < |ws| => Replace(ws[i], x, y))
  }

  /** The line boundaries of Python's `str.splitlines()`. */
  predicate IsLineBreak(c: char) {
    || c == '\n' || c == '\r' || c == '\U{0B}' || c == '\U{0C}'
    || '\U{1C}' <= c <= '\U{1E}'
    || c == '\U{85}' || c == '\U{2028}' || c == '\U{2029}'
  }

  predicate NoLineBreak(s: string) {
    forall i :: 0 <= i < |s| ==> !IsLineBreak(s[i])
  }

  /** Index of the first line boundary, or `|s|`. */
  function LineLength(s: string): (k: nat)
    ensures k <= |s|
    ensures k < |s| ==> IsLineBreak(s[k])
  {
    if |s| == 0 || IsLineBreak(s[0]) then 0 else 1 + LineLength(s[1..])
  }

  /** `s.splitlines()`: `\r\n` counts as one boundary, and a final boundary
      does not start an empty last line. */
  function SplitLines(s: string): seq<string>
    decreases |s|
  {
    if |s| == 0 then []
    else
      var k := LineLength(s);
      if k == |s| then [s]
      else
        var next := if s[k] == '\r' && k + 1 < |s| && s[k + 1] == '\n' then k + 2 else k + 1;
        [s[..k]] + SplitLines(s[next..])
  }

  /** Every line followed by `eol`: a text file as an editor writes it. */
  function Terminated(lines: seq<string>, eol: string): string {
    if |lines| == 0 then "" else lines[0] + eol + Terminated(lines[1..], eol)
  }

  // ---------------------------------------------------------------------
  // What holds of every character

  /** `startswith` holds exactly when the string begins with the prefix. */
  lemma {:induction false} StartsWithSpec(s: string, prefix: string)
    ensures StartsWith(s, prefix) <==> |prefix| <= |s| && s[..|prefix|] == prefix
    decreases |prefix|
  {
    if |prefix| > 0 && |s| > 0 {
      StartsWithSpec(s[1..], prefix[1..]);
      if |prefix| <= |s| && s[..|prefix|] == prefix {
        assert s[1..][..|prefix| - 1] == s[..|prefix|][1..];
      }
      if StartsWith(s, prefix) {
        assert s[..|prefix|] == [s[0]] + s[1..][..|prefix| - 1];
      }
    }
  }

  /** `endswith` holds exactly when the string ends with the suffix. */
  lemma {:induction false} EndsWithSpec(s: string, suffix: string)
    ensures EndsWith(s, suffix) <==> |suffix| <= |s| && s[|s| - |suffix|..] == suffix
    decreases |suffix|
  {
    if |suffix| > 0 && |s| > 0 {
      var s', t' := s[..|s| - 1], suffix[..|suffix| - 1];
      EndsWithSpec(s', t');
      if |suffix| <= |s| && s[|s| - |suffix|..] == suffix {
        assert s'[|s'| - |t'|..] == s[|s| - |suffix|..][..|t'|];
      }
      if EndsWith(s, suffix) {
        assert s[|s| - |suffix|..] == s'[|s'| - |t'|..] + [s[|s| - 1]];
      }
    }
  }

  /** The leading run found by `WordLength` is free of whitespace. */
  lemma {:induction false} WordLengthSpec(s: string)
    ensures forall i :: 0 <= i < WordLength(s) ==> !IsSpace(s[i])
    decreases |s|
  {
    if |s| > 0 && !IsSpace(s[0]) {
      WordLengthSpec(s[1..]);
    }
  }

  /** `WordLength` is the index of the first whitespace character. */
  lemma WordLengthIs(s: string, k: nat)
    requires k <= |s|
    requires forall i :: 0 <= i < k ==> !IsSpace(s[i])
    requires k < |s| ==> IsSpace(s[k])
    ensures WordLength(s) == k
  {
    WordLengthSpec(s);
  }

  /** `lstrip` removes a prefix of whitespace only. */
  lemma {:induction false} LStripSpec(s: string)
    ensures LStrip(s) == s[|s| - |LStrip(s)|..]
    ensures forall i :: 0 <= i < |s| - |LStrip(s)| ==> IsSpace(s[i])
    decreases |s|
  {
    if |s| > 0 && IsSpace(s[0]) {
      LStripSpec(s[1..]);
    }
  }

  /** `rstrip` removes a suffix of whitespace only. */
  lemma {:induction false} RStripSpec(s: string)
    ensures RStrip(s) == s[..|RStrip(s)|]
    ensures forall i :: |RStrip(s)| <= i < |s| ==> IsSpace(s[i])
    decreases |s|
  {
    if |s| > 0 && IsSpace(s[|s| - 1]) {
      RStripSpec(s[..|s| - 1]);
    }
  }

  /** Every token of `split()` is a word. */
  lemma {:induction false} WordsSpec(s: string)
    ensures AllWords(Words(s))
    decreases |s|
  {
    if |s| > 0 {
      if IsSpace(s[0]) {
        WordsSpec(s[1..]);
      } else {
        WordLengthSpec(s);
        WordsSpec(s[WordLength(s)..]);
      }
    }
  }

  /** No character before `IndexOf` is the one looked for. */
  lemma {:induction false} IndexOfSpec(s: string, c: char)
    ensures forall i :: 0 <= i < IndexOf(s, c) ==> s[i] != c
    decreases |s|
  {
    if |s| > 0 && s[0] != c {
      IndexOfSpec(s[1..], c);
    }
  }

  /** No piece of `split(sep)` contains `sep`. */
  lemma {:induction false} SplitOnSpec(s: string, sep: char)
    ensures forall i :: 0 <= i < |SplitOn(s, sep)| ==> sep !in SplitOn(s, sep)[i]
    decreases |s|
  {
    IndexOfSpec(s, sep);
    var k := IndexOf(s, sep);
    if k < |s| {
      SplitOnSpec(s[k + 1..], sep);
    }
  }

  /** `replace` changes exactly the occurrences of `x`, into `y`. */
  lemma {:induction false} ReplaceSpec(s: string, x: char, y: char)
    ensures forall i :: 0 <= i < |s| ==> Replace(s, x, y)[i] == (if s[i] == x then y else s[i])
    decreases |s|
  {
    if |s| > 0 {
      ReplaceSpec(s[1..], x, y);
    }
  }

  /** The boundary found by `LineLength` is the first one. */
  lemma {:induction false} LineLengthSpec(s: string)
    ensures forall i :: 0 <= i < LineLength(s) ==> !IsLineBreak(s[i])
    decreases |s|
  {
    if |s| > 0 && !IsLineBreak(s[0]) {
      LineLengthSpec(s[1..]);
    }
  }

  /** No line of `splitlines()` contains a line boundary. */
  lemma {:induction false} SplitLinesSpec(s: string)
    ensures forall i :: 0 <= i < |SplitLines(s)| ==> NoLineBreak(SplitLines(s)[i])
    decreases |s|
  {
    if |s| > 0 {
      LineLengthSpec(s);
      var k := LineLength(s);
      if k < |s| {
        var next := if s[k] == '\r' && k + 1 < |s| && s[k + 1] == '\n' then k + 2 else k + 1;
        SplitLinesSpec(s[next..]);
      }
    }
  }

  lemma NoSpaceConcat(a: string, b: string)
    requires NoSpace(a) && NoSpace(b)
    ensures NoSpace(a + b)
  {
    assert forall i :: 0 <= i < |a + b| ==> (a + b)[i] == if i < |a| then a[i] else b[i - |a|];
  }

  /** Words joined by a separator without whitespace form one word. */
  lemma {:induction false} JoinIsWord(parts: seq<string>, sep: string)
    requires |parts| > 0 && AllWords(parts) && NoSpace(sep)
    ensures IsWord(Join(parts, sep))
    decreases |parts|
  {
    if |parts| > 1 {
      JoinIsWord(parts[1..], sep);
      NoSpaceConcat(parts[0], sep);
      NoSpaceConcat(parts[0] + sep, Join(parts[1..], sep));
    }
  }

  // ---------------------------------------------------------------------
  // Round trips

  /** A word followed by whitespace (or nothing) is split off as one token. */
  lemma WordsOfWordThen(w: string, t: string)
    requires IsWord(w)
    requires |t| == 0 || IsSpace(t[0])
    ensures Words(w + t) == [w] + Words(t)
  {
    var s := w + t;
    assert forall i :: 0 <= i < |w| ==> s[i] == w[i];
    assert |t| > 0 ==> s[|w|] == t[0];
    WordLengthIs(s, |w|);
    assert s[..|w|] == w;
    assert s[|w|..] == t;
  }

  /** `split()` undoes `' '.join` of words. */
  lemma {:induction false} WordsOfJoin(ws: seq<string>)
    requires AllWords(ws)
    ensures Words(Join(ws, " ")) == ws
    decreases |ws|
  {
    if |ws| == 1 {
      WordsOfWordThen(ws[0], "");
      assert ws[0] + "" == ws[0];
    } else if |ws| > 1 {
      var rest := Join(ws[1..], " ");
      WordsOfWordThen(ws[0], " " + rest);
      assert ws[0] + " " + rest == ws[0] + (" " + rest);
      assert (" " + rest)[1..] == rest;
      WordsOfJoin(ws[1..]);
    }
  }

  /** Leading whitespace does not change `split()`. */
  lemma {:induction false} WordsOfLStrip(s: string)
    ensures Words(LStrip(s)) == Words(s)
    decreases |s|
  {
    if |s| > 0 && IsSpace(s[0]) {
      WordsOfLStrip(s[1..]);
    }
  }

  /** `split(maxsplit=1)` agrees with `split()`: the same first word, and the
      remainder splits into the remaining words. */
  lemma SplitOnceAgreesWithWords(s: string)
    ensures |SplitOnce(s)| == (if |Words(s)| < 2 then |Words(s)| else 2)
    ensures |SplitOnce(s)| > 0 ==> SplitOnce(s)[0] == Words(s)[0]
    ensures |SplitOnce(s)| == 2 ==> Words(SplitOnce(s)[1]) == Words(s)[1..]
  {
    var t := LStrip(s);
    WordsOfLStrip(s);
    if |t| > 0 {
      var k := WordLength(t);
      var rest := LStrip(t[k..]);
      WordsOfLStrip(t[k..]);
      assert Words(t) == [t[..k]] + Words(rest);
    }
  }

  /** Two words separated by one space split once into exactly those words. */
  lemma SplitOnceOfTwoWords(a: string, b: string)
    requires IsWord(a) && IsWord(b)
    ensures SplitOnce(a + " " + b) == [a, b]
  {
    var s := a + " " + b;
    assert LStrip(s) == s;
    assert forall i :: 0 <= i < |a| ==> s[i] == a[i];
    assert s[|a|] == ' ';
    WordLengthIs(s, |a|);
    assert s[..|a|] == a;
    assert s[|a|..] == " " + b;
    assert LStrip(" " + b) == b;
  }

  /** Pieces of `split(sep)` joined by `sep` give back the string. */
  lemma {:induction false} JoinSplitOn(s: string, sep: char)
    ensures Join(SplitOn(s, sep), [sep]) == s
    decreases |s|
  {
    var k := IndexOf(s, sep);
    if k < |s| {
      JoinSplitOn(s[k + 1..], sep);
      assert s == s[..k] + [sep] + s[k + 1..];
    }
  }

  /** `IndexOf` is the index of the first occurrence. */
  lemma IndexOfIs(s: string, c: char, k: nat)
    requires k <= |s|
    requires forall i :: 0 <= i < k ==> s[i] != c
    requires k < |s| ==> s[k] == c
    ensures IndexOf(s, c) == k
  {
    IndexOfSpec(s, c);
  }

  /** `split(sep)` undoes `sep.join` of pieces free of `sep`. */
  lemma {:induction false} SplitOnJoin(parts: seq<string>, sep: char)
    requires |parts| >= 1
    requires forall i :: 0 <= i < |parts| ==> sep !in parts[i]
    ensures SplitOn(Join(parts, [sep]), sep) == parts
    decreases |parts|
  {
    var s := Join(parts, [sep]);
    var p := parts[0];
    if |parts| == 1 {
      IndexOfIs(s, sep, |s|);
    } else {
      var rest := Join(parts[1..], [sep]);
      assert s == p + [sep] + rest;
      assert forall i :: 0 <= i < |p| ==> s[i] == p[i];
      IndexOfIs(s, sep, |p|);
      assert s[..|p|] == p;
      assert s[|p| + 1..] == rest;
      SplitOnJoin(parts[1..], sep);
    }
  }

  /** Replacing a character by another leaves the length of the leading word
      unchanged when neither character is whitespace. */
  lemma {:induction false} WordLengthOfReplace(s: string, x: char, y: char)
    requires !IsSpace(x) && !IsSpace(y)
    ensures WordLength(Replace(s, x, y)) == WordLength(s)
    decreases |s|
  {
    if |s| > 0 && !IsSpace(s[0]) {
      assert Replace(s, x, y)[1..] == Replace(s[1..], x, y);
      WordLengthOfReplace(s[1..], x, y);
    }
  }

  lemma ReplaceSlice(s: string, x: char, y: char, i: nat, j: nat)
    requires i <= j <= |s|
    ensures Replace(s, x, y)[i..j] == Replace(s[i..j], x, y)
  {
    ReplaceSpec(s, x, y);
    ReplaceSpec(s[i..j], x, y);
  }

  /** Replacing one non-whitespace character by another commutes with
      `split()`: replacing before splitting or in every token after it gives
      the same tokens. */
  lemma {:induction false} WordsOfReplace(s: string, x: char, y: char)
    requires !IsSpace(x) && !IsSpace(y)
    ensures Words(Replace(s, x, y)) == ReplaceAll(Words(s), x, y)
    decreases |s|
  {
    if |s| > 0 {
      if IsSpace(s[0]) {
        WordsOfReplace(s[1..], x, y);
        WordsOfReplaceSpace(s, x, y);
      } else {
        WordsOfReplace(s[WordLength(s)..], x, y);
        WordsOfReplaceWord(s, x, y);
      }
    }
  }

  /** The step of `WordsOfReplace` over leading whitespace. */
  lemma WordsOfReplaceSpace(s: string, x: char, y: char)
    requires !IsSpace(x) && !IsSpace(y) && |s| > 0 && IsSpace(s[0])
    requires Words(Replace(s[1..], x, y)) == ReplaceAll(Words(s[1..]), x, y)
    ensures Words(Replace(s, x, y)) == ReplaceAll(Words(s), x, y)
  {
    var r := Replace(s, x, y);
    ReplaceSlice(s, x, y, 1, |s|);
    ReplaceSlice(s, x, y, 0, 1);
    assert s[1..|s|] == s[1..] && r[1..|s|] == r[1..];
    assert r[..1] == Replace(s[..1], x, y) && r[0] == r[..1][0];
  }

  /** The step of `WordsOfReplace` over a leading word. */
  lemma WordsOfReplaceWord(s: string, x: char, y: char)
    requires !IsSpace(x) && !IsSpace(y) && |s| > 0 && !IsSpace(s[0])
    requires Words(Replace(s[WordLength(s)..], x, y)) == ReplaceAll(Words(s[WordLength(s)..]), x, y)
    ensures Words(Replace(s, x, y)) == ReplaceAll(Words(s), x, y)
  {
    var r := Replace(s, x, y);
    var k := WordLength(s);
    WordLengthOfReplace(s, x, y);
    ReplaceSlice(s, x, y, 0, k);
    ReplaceSlice(s, x, y, k, |s|);
    var word, rest := s[..k], s[k..];
    assert s[k..|s|] == rest && r[k..|s|] == r[k..];
    assert Words(s) == [word] + Words(rest);
    assert Words(r) == [r[..k]] + Words(r[k..]);
    ReplaceAllCons(word, Words(rest), x, y);
  }

  lemma ReplaceAllCons(w: string, ws: seq<string>, x: char, y: char)
    ensures ReplaceAll([w] + ws, x, y) == [Replace(w, x, y)] + ReplaceAll(ws, x, y)
  {
    var a := ReplaceAll([w] + ws, x, y);
    var b := [Replace(w, x, y)] + ReplaceAll(ws, x, y);
    forall i | 0 <= i < |a|
      ensures a[i] == b[i]
    {
      if i > 0 {
        assert ([w] + ws)[i] == ws[i - 1];
      }
    }
  }

  /** A line free of boundaries followed by `eol` is split off as one line. */
  lemma SplitLinesOfLineThen(line: string, eol: string, t: string)
    requires NoLineBreak(line)
    requires eol == "\n" || eol == "\r\n"
    ensures SplitLines(line + eol + t) == [line] + SplitLines(t)
  {
    var s := line + eol + t;
    LineLengthSpec(s);
    var k := LineLength(s);
    assert forall i :: 0 <= i < |line| ==> s[i] == line[i];
    assert s[|line|] == eol[0];
    assert k == |line|;
    assert s[..k] == line;
    assert s[k + |eol|..] == t;
  }

  /** A non-empty sequence followed by another is its head followed by
      the rest of both. */
  lemma ConsAppend<T>(xs: seq<T>, ys: seq<T>)
    requires |xs| > 0
    ensures xs + ys == [xs[0]] + (xs[1..] + ys)
  {
  }

  /** Lines each ended by `eol`, followed by any text, split into those
      lines followed by the split of that text. */
  lemma {:induction false} SplitLinesOfTerminatedThen(lines: seq<string>, eol: string, tail: string)
    requires eol == "\n" || eol == "\r\n"
    requires forall i :: 0 <= i < |lines| ==> NoLineBreak(lines[i])
    ensures SplitLines(Terminated(lines, eol) + tail) == lines + SplitLines(tail)
    decreases |lines|
  {
    if |lines| == 0 {
      assert Terminated(lines, eol) + tail == tail;
    } else {
      var rest := Terminated(lines[1..], eol) + tail;
      assert Terminated(lines, eol) + tail == lines[0] + eol + rest by {
        var t := Terminated(lines[1..], eol);
        assert Terminated(lines, eol) == lines[0] + eol + t;
        assert (lines[0] + eol + t) + tail == lines[0] + eol + (t + tail);
      }
      assert NoLineBreak(lines[0]);
      SplitLinesOfLineThen(lines[0], eol, rest);
      assert forall i :: 0 <= i < |lines[1..]| ==> lines[1..][i] == lines[i + 1];
      SplitLinesOfTerminatedThen(lines[1..], eol, tail);
      ConsAppend(lines, SplitLines(tail));
    }
  }

  /** Round trip: lines without breaks, each ended by `\n` or each by
      `\r\n`, split back into exactly those lines. */
  lemma SplitLinesOfTerminated(lines: seq<string>, eol: string)
    requires eol == "\n" || eol == "\r\n"
    requires forall i :: 0 <= i < |lines| ==> NoLineBreak(lines[i])
    ensures SplitLines(Terminated(lines, eol)) == lines
  {
    SplitLinesOfTerminatedThen(lines, eol, "");
    assert Terminated(lines, eol) + "" == Terminated(lines, eol);
    assert lines + [] == lines;
  }

  /** A non-empty line without a line break is split into itself. */
  lemma SplitLinesOfLine(line: string)
    requires line != "" && NoLineBreak(line)
    ensures SplitLines(line) == [line]
  {
    assert LineLength(line) == |line|;
  }

  /** Round trip for a file whose last line has no line break: lines ended
      by `eol`, then a non-empty last line, split back into those lines and
      the last one. */
  lemma SplitLinesOfUnterminated(lines: seq<string>, eol: string, last: string)
    requires eol == "\n" || eol == "\r\n"
    requires forall i :: 0 <= i < |lines| ==> NoLineBreak(lines[i])
    requires last != "" && NoLineBreak(last)
    ensures SplitLines(Terminated(lines, eol) + last) == lines + [last]
  {
    SplitLinesOfTerminatedThen(lines, eol, last);
    SplitLinesOfLine(last);
  }



}
