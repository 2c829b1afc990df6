/**
 Surgical edits (omnicode/pipelines/edit.py): a window of lines is cut out, rewritten
 elsewhere, and spliced back over the same line range.
 */
module SnippetSplice {
  import opened Sequences
  import opened TextLines

  /** Lines kept around a symbol for context. */
  const PADDING := 3

  /** `xs[:k]` and `xs[k:]` with Python's clamping. */
  function Before<T>(xs: seq<T>, k: nat): seq<T> {
    if k <= |xs| then xs[..k] else xs
  }

  function From<T>(xs: seq<T>, k: nat): seq<T> {
    if k <= |xs| then xs[k..] else []
  }

  /** The padded window of a symbol, as 0-based bounds: the first line and the one past the last. */
  function Window(total: nat, symbolStart: nat, symbolEnd: nat): (nat, nat)
    requires symbolStart >= 1
  {
    (if symbolStart - 1 > PADDING then symbolStart - 1 - PADDING else 0,
     if symbolEnd + PADDING < total then symbolEnd + PADDING else total)
  }

  /**
   The window never leaves the file and holds what the file has of the symbol. It is empty
   exactly when the file is, or ends before the padding of a symbol reported past its end.
   */
  lemma WindowHoldsSymbol(total: nat, symbolStart: nat, symbolEnd: nat)
    requires 1 <= symbolStart <= symbolEnd
    ensures var (s, e) := Window(total, symbolStart, symbolEnd);
      && s <= symbolStart - 1 && e <= total && (symbolEnd <= e || e == total)
      && (s < e <==> total > 0 && symbolStart <= total + PADDING)
    ensures symbolEnd <= total ==>
      var (s, e) := Window(total, symbolStart, symbolEnd);
      (s == symbolStart - 1 - PADDING || s == 0) && (e == symbolEnd + PADDING || e == total)
  {
  }

  /** A line of the file is in the window exactly when it is in the symbol or at most `PADDING` lines away from it. */
  lemma WindowIsPadded(total: nat, symbolStart: nat, symbolEnd: nat, line: nat)
    requires 1 <= symbolStart <= symbolEnd && line < total
    ensures var (s, e) := Window(total, symbolStart, symbolEnd);
      s <= line < e <==> symbolStart - 1 - PADDING <= line < symbolEnd + PADDING
  {
  }

  function Snippet(original: string, s: nat, e: nat): string
    requires s <= e <= |SplitLines(original)|
  {
    Join(SplitLines(original)[s..e])
  }

  /** The lines a snippet contributes: its last line gets the newline the file needs there. */
  function SnippetLines(snippet: string, needsNewline: bool): seq<string> {
    var lines := SplitKeep(snippet);
    var n := |lines| - 1;
    if lines != [] && needsNewline && !EndsWithNewline(lines[n]) then lines[..n] + [lines[n] + "\n"] else lines
  }

  /** `_splice_snippet`: lines are numbered from 1, both ends included. */
  function Splice(original: string, snippet: string, startLine: int, endLine: nat): string {
    var lines := SplitKeep(original);
    var s: nat := if startLine > 1 then startLine - 1 else 0;
    var e := if endLine < |lines| then endLine else |lines|;
    var needsNewline := e < |lines| || (lines != [] && EndsWithNewline(lines[|lines| - 1]));
    Flatten(Before(lines, s) + SnippetLines(snippet, needsNewline) + From(lines, e))
  }

  /** Replacing the lines `s` up to `e` of a text with a window there. */
  function Replaced(original: string, snippet: string, s: nat, e: nat): string {
    Splice(original, snippet, s + 1, e)
  }

  // ------------------------------------------------------------ the snippet splits back

  /** The lines of a snippet whose lines are `front` and, unless empty, `last`. */
  function Restored(front: seq<string>, last: string, needsNewline: bool): seq<string> {
    if last == "" then front else front + [if needsNewline then last + "\n" else last]
  }

  lemma RestoredCons(line: string, front: seq<string>, last: string)
    ensures [line] + Restored(front, last, false) == Restored([line] + front, last, false)
  {
    ConcatAssociates([line], front, [last]);
  }

  lemma SplitJoinStep(line: string, front: seq<string>, last: string, rest: seq<string>)
    requires IsLine(line) && EndsWithNewline(line) && rest != []
    requires SplitKeep(Join(ChopAll(rest))) == Restored(front, last, false)
    ensures SplitKeep(Join(ChopAll([line] + rest))) == Restored([line] + front, last, false)
  {
    ChopLine(line);
    assert ([line] + rest)[1..] == rest;
    SplitStep(Chop(line), Join(ChopAll(rest)));
    RestoredCons(line, front, last);
  }

  lemma SplitJoinOne(line: string)
    requires IsLine(line)
    ensures SplitKeep(Join(ChopAll([line]))) == Restored([], Chop(line), false)
  {
    ChopLine(line);
    if Chop(line) != "" {
      SplitLast(Chop(line));
    }
  }

  /** Joining the lines of a window and splitting again gives the window, but for its last line's newline. */
  lemma {:induction false} SplitJoin(front: seq<string>, line: string)
    requires AreLines(front + [line])
    ensures SplitKeep(Join(ChopAll(front + [line]))) == Restored(front, Chop(line), false)
  {
    var window := front + [line];
    assert IsLine(window[0]);
    if front == [] {
      assert window == [line];
      SplitJoinOne(line);
    } else {
      var rest := front[1..] + [line];
      HeadAndTail(front);
      assert window == [front[0]] + rest && window[1..] == rest;
      assert AreLines(rest);
      SplitJoin(front[1..], line);
      SplitJoinStep(front[0], front[1..], Chop(line), rest);
    }
  }

  lemma Adjusted(front: seq<string>, last: string, needsNewline: bool, snippet: string)
    requires SplitKeep(snippet) == Restored(front, last, false)
    requires !EndsWithNewline(last) && (front == [] || EndsWithNewline(front[|front| - 1]))
    ensures SnippetLines(snippet, needsNewline) == Restored(front, last, needsNewline)
  {
    if last != "" {
      assert (front + [last])[..|front|] == front;
    }
  }

  lemma FlattenSnoc(lines: seq<string>, line: string)
    ensures Flatten(lines + [line]) == Flatten(lines) + line
  {
    FlattenAppend(lines, [line]);
    assert line + "" == line;
  }

  /** Lines that `join` and `splitlines` turn into each other, but for the newline of the last one. */
  ghost predicate Survives(front: seq<string>, line: string) {
    && line != "" && !EndsWithNewline(Chop(line))
    && line == (if EndsWithNewline(line) then Chop(line) + "\n" else Chop(line))
    && SplitKeep(Join(ChopAll(front + [line]))) == Restored(front, Chop(line), false)
    && (front == [] || EndsWithNewline(front[|front| - 1]))
  }

  lemma LinesSurvive(front: seq<string>, line: string)
    requires AreLines(front + [line])
    ensures Survives(front, line)
  {
    var window := front + [line];
    SplitJoin(front, line);
    assert window[|front|] == line && IsLine(window[|front|]);
    ChopLine(line);
    assert front != [] ==> window[|front| - 1] == front[|front| - 1];
  }

  /** A window survives the trip exactly when its last line is not empty and its final newline is restored. */
  lemma WindowBack(front: seq<string>, line: string, needsNewline: bool)
    requires Survives(front, line)
    ensures Flatten(SnippetLines(Join(ChopAll(front + [line])), needsNewline)) == Flatten(front + [line])
      <==> Chop(line) != "" && needsNewline == EndsWithNewline(line)
  {
    var last := Chop(line);
    Adjusted(front, last, needsNewline, Join(ChopAll(front + [line])));
    FlattenSnoc(front, line);
    FlattenSnoc(front, if needsNewline then last + "\n" else last);
  }

  // ------------------------------------------------------------ splicing into a split text

  /** Whether a snippet put before `after` at the end of `text` must end in a newline. */
  predicate NeedsNewline(text: string, after: seq<string>) {
    after != [] || EndsWithNewline(text)
  }

  lemma ThreeParts(before: seq<string>, middle: seq<string>, after: seq<string>)
    ensures var lines := before + middle + after;
      lines[..|before|] == before && lines[|before| + |middle|..] == after
  {
  }

  /** Splicing between the lines of `before` and `after`. */
  lemma SpliceParts(text: string, before: seq<string>, middle: seq<string>, after: seq<string>, snippet: string)
    requires SplitKeep(text) == before + middle + after
    ensures Replaced(text, snippet, |before|, |before| + |middle|) ==
      Flatten(before) + Flatten(SnippetLines(snippet, NeedsNewline(text, after))) + Flatten(after)
  {
    if text != "" {
      LastLine(text);
    }
    ThreeParts(before, middle, after);
    FlattenThree(before, SnippetLines(snippet, NeedsNewline(text, after)), after);
  }

  lemma ThreeWays(lines: seq<string>, s: nat, e: nat)
    requires s < e <= |lines|
    ensures lines[s..e] == lines[s..e - 1] + [lines[e - 1]]
    ensures lines == lines[..s] + lines[s..e] + lines[e..]
    ensures lines[..s] == lines[0..s] && lines[e..] == lines[e..|lines|]
  {
  }

  // ------------------------------------------------------------ replacing a window

  lemma SameMiddle(a: string, x: string, y: string, b: string)
    ensures a + x + b == a + y + b <==> x == y
  {
    if a + x + b == a + y + b {
      assert |x| == |y|;
      assert x == (a + x + b)[|a|..|a| + |x|];
      assert y == (a + y + b)[|a|..|a| + |y|];
    }
  }

  /** The text of a snippet ends as its last line does, newline added when it is needed. */
  lemma AdjustedEnd(snippet: string, needsNewline: bool)
    ensures var text := Flatten(SnippetLines(snippet, needsNewline));
      if snippet == "" then text == "" else EndsWithNewline(text) == (needsNewline || EndsWithNewline(snippet))
  {
    if snippet != "" {
      var lines := SplitKeep(snippet);
      var n := |lines| - 1;
      LastLine(snippet);
      assert lines == lines[..n] + [lines[n]];
      FlattenEnds(lines[..n], lines[n]);
      FlattenEnds(lines[..n], lines[n] + "\n");
    }
  }

  /** Lines that split back into themselves. */
  ghost predicate Splits(lines: seq<string>) {
    SplitKeep(Flatten(lines)) == lines
  }

  lemma SplitThree(before: seq<string>, x: string, after: seq<string>)
    requires Splits(before) && Splits(after)
    requires Ended(Flatten(before)) && !Meets(Flatten(before), x + Flatten(after))
    requires after == [] || x == "" || EndsWithNewline(x)
    ensures SplitKeep(Flatten(before) + x + Flatten(after)) == before + SplitKeep(x) + after
  {
    var a, b := Flatten(before), Flatten(after);
    ConcatAssociates(a, x, b);
    SplitAppend(a, x + b);
    if after == [] {
      assert x + b == x && SplitKeep(x) + [] == SplitKeep(x);
    } else {
      SplitAppend(x, b);
    }
    ConcatAssociates(before, SplitKeep(x), after);
  }

  /** What a replacement puts in place of a window. */
  function Middle(text: string, replacement: string, after: seq<string>): seq<string> {
    SplitKeep(Flatten(SnippetLines(replacement, NeedsNewline(text, after))))
  }

  /**
   Whether a replacement keeps apart from the line before the window, seen before the splice: that
   line must not end in a return that a newline, of the replacement or after it, completes.
   */
  predicate Apart(original: string, replacement: string, s: nat, e: nat)
    requires s < e <= |SplitKeep(original)|
  {
    var lines := SplitKeep(original);
    s == 0 || !Meets(lines[s - 1], if replacement == "" then Flatten(lines[e..]) else replacement)
  }

  lemma {:induction false} FlattenLast(lines: seq<string>)
    requires lines != [] && lines[|lines| - 1] != ""
    ensures var last := lines[|lines| - 1];
      Flatten(lines) != "" && Flatten(lines)[|Flatten(lines)| - 1] == last[|last| - 1]
  {
    var n := |lines| - 1;
    assert lines == lines[..n] + [lines[n]];
    FlattenSnoc(lines[..n], lines[n]);
  }

  /** The text before a window ends as the line before it does. */
  lemma BeforeWindow(text: string, s: nat, x: string)
    requires s < |SplitKeep(text)|
    ensures Ended(Flatten(SplitKeep(text)[..s]))
    ensures Meets(Flatten(SplitKeep(text)[..s]), x) <==> s > 0 && Meets(SplitKeep(text)[s - 1], x)
  {
    var lines := SplitKeep(text);
    if s > 0 {
      LinesApart(text, s);
      LinesOfText(text, s - 1);
      FlattenLast(lines[..s]);
    }
  }

  lemma SnippetStart(snippet: string, needsNewline: bool, after: string)
    ensures var x := Flatten(SnippetLines(snippet, needsNewline));
      if snippet == "" then x + after == after else x + after != "" && (x + after)[0] == snippet[0]
  {
    SnippetText(snippet, needsNewline);
    if snippet == "" {
      assert "" + after == after;
    }
  }

  /** Apart, the replacement's lines, split on their own, stand between the untouched ones. */
  lemma FrameAt(original: string, replacement: string, s: nat, e: nat)
    requires s < e <= |SplitKeep(original)| && Apart(original, replacement, s, e)
    ensures var lines := SplitKeep(original);
      SplitKeep(Replaced(original, replacement, s, e)) ==
        lines[..s] + Middle(original, replacement, lines[e..]) + lines[e..]
  {
    var lines, needs := SplitKeep(original), NeedsNewline(original, SplitKeep(original)[e..]);
    var x := Flatten(SnippetLines(replacement, needs));
    SpliceBetween(original, replacement, s, e);
    AdjustedEnd(replacement, needs);
    SnippetStart(replacement, needs, Flatten(lines[e..]));
    BeforeWindow(original, s, x + Flatten(lines[e..]));
    FirstLinesSplit(original, s);
    LastLinesSplit(original, e);
    SplitThree(lines[..s], x, lines[e..]);
  }

  // ------------------------------------------------------------ a return that meets a newline

  lemma {:induction false} ReturnSize(body: string)
    requires NoBreaks(body)
    ensures LineSize(body + "\r" + "\n") == |body| + 2
  {
    var line := body + "\r" + "\n";
    if body != "" {
      assert line[1..] == body[1..] + "\r" + "\n";
      ReturnSize(body[1..]);
    }
  }

  lemma ChopReturn(line: string)
    requires line != "" && line[|line| - 1] == '\r'
    ensures line == Chop(line) + "\r"
  {
  }

  lemma OneReturn(body: string)
    requires NoBreaks(body)
    ensures SplitKeep(body + "\r" + "\n") == [body + "\r" + "\n"]
  {
    var line := body + "\r" + "\n";
    ReturnSize(body);
    assert line[..|line|] == line && line[|line|..] == "";
  }

  lemma FrontAndLine(text: string, s: nat)
    requires 0 < s <= |SplitKeep(text)|
    ensures Flatten(SplitKeep(text)[..s]) == Flatten(SplitKeep(text)[..s - 1]) + SplitKeep(text)[s - 1]
  {
    var lines := SplitKeep(text);
    assert lines[..s] == lines[..s - 1] + [lines[s - 1]];
    FlattenSnoc(lines[..s - 1], lines[s - 1]);
  }

  lemma OneLineMore(a: string, line: string)
    requires Ended(a) && !Meets(a, line) && SplitKeep(line) == [line]
    ensures |SplitKeep(a + line)| == |SplitKeep(a)| + 1
  {
    SplitAppend(a, line);
  }

  /** What starts as a line of the text does keeps apart from the lines before that line. */
  lemma KeepsApart(text: string, i: nat, x: string)
    requires i < |SplitKeep(text)| && x != "" && SplitKeep(text)[i] != "" && x[0] == SplitKeep(text)[i][0]
    ensures Ended(Flatten(SplitKeep(text)[..i])) && !Meets(Flatten(SplitKeep(text)[..i]), x)
  {
    BeforeWindow(text, i, x);
    if i > 0 {
      LinesApart(text, i);
    }
  }

  /** A newline after a return is part of the line before it. */
  lemma LineGrows(text: string, s: nat)
    requires 0 < s < |SplitKeep(text)| && Meets(SplitKeep(text)[s - 1], "\n")
    ensures |SplitKeep(Flatten(SplitKeep(text)[..s]) + "\n")| == s
  {
    var line, a := SplitKeep(text)[s - 1], Flatten(SplitKeep(text)[..s - 1]);
    LinesOfText(text, s - 1);
    ChopReturn(line);
    OneReturn(Chop(line));
    KeepsApart(text, s - 1, line + "\n");
    OneLineMore(a, line + "\n");
    FirstLinesSplit(text, s - 1);
    FrontAndLine(text, s);
    ConcatAssociates(a, line, "\n");
  }

  lemma TakenIn(a: string, rest: string)
    ensures var changed := a + "\n" + rest;
      var n := |SplitKeep(a + "\n")|;
      n <= |SplitKeep(changed)| && Flatten(SplitKeep(changed)[..n]) == a + "\n"
  {
    SplitAppend(a + "\n", rest);
    FlattenSplit(a + "\n");
    var first := SplitKeep(a + "\n");
    assert (first + SplitKeep(rest))[..|first|] == first;
  }

  lemma NewlineFirst(a: string, x: string, b: string)
    requires x + b != "" && (x + b)[0] == '\n'
    ensures a + x + b == a + "\n" + (x + b)[1..]
  {
    ConcatAssociates(a, x, b);
    ConcatAssociates(a, "\n", (x + b)[1..]);
    assert x + b == "\n" + (x + b)[1..];
  }

  /** The last line before the window ends in a return, and goes on with a newline in the changed text. */
  ghost predicate Met(original: string, changed: string, s: nat) {
    && 0 < s < |SplitKeep(original)| && s <= |SplitKeep(changed)| && Meets(SplitKeep(original)[s - 1], "\n")
    && Flatten(SplitKeep(changed)[..s]) == Flatten(SplitKeep(original)[..s]) + "\n"
  }

  /** Where a return meets a newline, the line before the window takes the newline in. */
  lemma MetFrame(original: string, replacement: string, s: nat, e: nat)
    requires s < e <= |SplitKeep(original)| && !Apart(original, replacement, s, e)
    ensures Met(original, Replaced(original, replacement, s, e), s)
  {
    var lines, needs := SplitKeep(original), NeedsNewline(original, SplitKeep(original)[e..]);
    var x, a, b := Flatten(SnippetLines(replacement, needs)), Flatten(lines[..s]), Flatten(lines[e..]);
    SpliceBetween(original, replacement, s, e);
    SnippetStart(replacement, needs, b);
    NewlineFirst(a, x, b);
    TakenIn(a, (x + b)[1..]);
    LineGrows(original, s);
  }

  lemma RestOfText(text: string, s: nat)
    requires s < |SplitKeep(text)|
    ensures var rest := Flatten(SplitKeep(text)[s..]);
      text == Flatten(SplitKeep(text)[..s]) + rest && rest != "" && SplitKeep(text)[s] != "" &&
        rest[0] == SplitKeep(text)[s][0]
  {
    var lines := SplitKeep(text);
    LinesOfText(text, s);
    FlattenSplit(text);
    assert lines == lines[..s] + lines[s..];
    FlattenAppend(lines[..s], lines[s..]);
  }

  lemma DifferAfter(a: string, y: string, z: string, rest: string)
    requires rest != "" && rest[0] != '\n'
    ensures a + "\n" + y + z != a + rest
  {
    assert (a + "\n" + y + z)[|a|] == '\n' && (a + rest)[|a|] == rest[0];
  }

  /** Then nothing spliced in after those lines gives the text back. */
  lemma NeverGivenBack(original: string, changed: string, snippet: string, s: nat, t: nat)
    requires Met(original, changed, s) && s <= t <= |SplitKeep(changed)|
    ensures Replaced(changed, snippet, s, t) != original
  {
    LinesApart(original, s);
    RestOfText(original, s);
    SpliceBetween(changed, snippet, s, t);
    var after := SplitKeep(changed)[t..];
    DifferAfter(
      Flatten(SplitKeep(original)[..s]), Flatten(SnippetLines(snippet, NeedsNewline(changed, after))), Flatten(after),
      Flatten(SplitKeep(original)[s..]));
  }

  // ------------------------------------------------------------ the results, on line numbers

  lemma SnippetOfWindow(original: string, s: nat, e: nat)
    requires s < e <= |SplitKeep(original)|
    ensures Snippet(original, s, e) == Join(ChopAll(SplitKeep(original)[s..e]))
    ensures SplitLines(original)[e - 1] == Chop(SplitKeep(original)[e - 1])
  {
    var lines := SplitKeep(original);
    var a, w, b := lines[..s], lines[s..e], lines[e..];
    ThreeWays(lines, s, e);
    ChopAllAppend(a + w, b);
    ChopAllAppend(a, w);
    ChopAllAppend(lines[s..e - 1], [lines[e - 1]]);
  }

  /** How many lines stand in place of the window `s` to `e` once the text has changed. */
  function NewLines(original: string, changed: string, s: nat, e: nat): int {
    |SplitKeep(changed)| - s - (|SplitKeep(original)| - e)
  }

  /** In any text, and for any snippet, all text before and after the window stays. */
  lemma SpliceKeepsText(original: string, snippet: string, s: nat, e: nat)
    requires s <= e <= |SplitKeep(original)|
    ensures var lines := SplitKeep(original);
      original == Flatten(lines[..s]) + Flatten(lines[s..e]) + Flatten(lines[e..])
    ensures var lines := SplitKeep(original);
      Replaced(original, snippet, s, e) ==
        Flatten(lines[..s]) + Flatten(SnippetLines(snippet, NeedsNewline(original, lines[e..]))) + Flatten(lines[e..])
  {
    var lines := SplitKeep(original);
    CutInThree(lines, s, e);
    FlattenSplit(original);
    FlattenThree(lines[..s], lines[s..e], lines[e..]);
    SpliceBetween(original, snippet, s, e);
  }

  lemma SpliceBetween(original: string, snippet: string, s: nat, e: nat)
    requires s <= e <= |SplitKeep(original)|
    ensures var lines := SplitKeep(original);
      Replaced(original, snippet, s, e) ==
        Flatten(lines[..s]) + Flatten(SnippetLines(snippet, NeedsNewline(original, lines[e..]))) + Flatten(lines[e..])
  {
    var lines := SplitKeep(original);
    CutInThree(lines, s, e);
    assert |lines[..s]| == s && |lines[..s]| + |lines[s..e]| == e;
    SpliceParts(original, lines[..s], lines[s..e], lines[e..], snippet);
  }

  ghost predicate AllPlain(lines: seq<string>) {
    forall i | 0 <= i < |lines| :: Plain(lines[i])
  }

  /** What is known of any stretch of lines of a text. */
  ghost predicate Lines(window: seq<string>) {
    && (forall i | 0 <= i < |window| :: window[i] != "" && NoBreaks(Chop(window[i])))
    && (forall i | 0 <= i < |window| - 1 :: Chop(window[i]) != window[i])
  }

  lemma WindowIsLines(text: string, s: nat, e: nat)
    requires s <= e <= |SplitKeep(text)|
    ensures Lines(SplitKeep(text)[s..e])
  {
    var window := SplitKeep(text)[s..e];
    forall i | 0 <= i < |window|
      ensures window[i] != "" && NoBreaks(Chop(window[i])) && (i < |window| - 1 ==> Chop(window[i]) != window[i])
    {
      LinesOfText(text, s + i);
    }
  }

  lemma PlainAreLines(window: seq<string>)
    requires Lines(window) && AllPlain(window)
    ensures AreLines(window)
  {
    forall i | 0 <= i < |window|
      ensures IsLine(window[i]) && (i < |window| - 1 ==> EndsWithNewline(window[i]))
    {
      PlainLine(window[i]);
    }
  }

  /** A snippet holds no boundary but newlines, whatever the window's were. */
  lemma {:induction false} SnippetNewlines(window: seq<string>)
    requires forall i | 0 <= i < |window| :: NoBreaks(Chop(window[i]))
    ensures NewlineOnly(Join(ChopAll(window)))
  {
    if window != [] {
      NoBreaksNewlineOnly(Chop(window[0]));
      if |window| > 1 {
        SnippetNewlines(window[1..]);
        NewlineOnlyAppend(Chop(window[0]), "\n");
        NewlineOnlyAppend(Chop(window[0]) + "\n", Join(ChopAll(window[1..])));
      }
    }
  }

  lemma SnippetText(snippet: string, needsNewline: bool)
    ensures var text := Flatten(SnippetLines(snippet, needsNewline)); text == snippet || text == snippet + "\n"
  {
    FlattenSplit(snippet);
    var lines := SplitKeep(snippet);
    if lines != [] {
      var n := |lines| - 1;
      assert lines == lines[..n] + [lines[n]];
      FlattenSnoc(lines[..n], lines[n]);
      FlattenSnoc(lines[..n], lines[n] + "\n");
    }
  }

  lemma OddLine(line: string)
    requires line != "" && NoBreaks(Chop(line)) && !Plain(line)
    ensures !NewlineOnly(line)
  {
    PlainLine(line);
    var i :| 0 <= i < |line| && IsBreak(line[i]) && line[i] != '\n';
    assert line == line[..i] + line[i..];
    NewlineOnlyAppend(line[..i], line[i..]);
  }

  lemma {:induction false} OddBoundaryShows(window: seq<string>, i: nat)
    requires i < |window| && !NewlineOnly(window[i])
    ensures !NewlineOnly(Flatten(window))
  {
    NewlineOnlyAppend(window[0], Flatten(window[1..]));
    if i > 0 {
      OddBoundaryShows(window[1..], i - 1);
    }
  }

  /** A snippet never gives back another boundary than the newline. */
  lemma OddBoundaryLost(window: seq<string>, needsNewline: bool)
    requires Lines(window) && !AllPlain(window)
    ensures Flatten(SnippetLines(Join(ChopAll(window)), needsNewline)) != Flatten(window)
  {
    var i :| 0 <= i < |window| && !Plain(window[i]);
    OddLine(window[i]);
    OddBoundaryShows(window, i);
    SnippetNewlines(window);
    NewlineOnlyAppend(Join(ChopAll(window)), "\n");
    SnippetText(Join(ChopAll(window)), needsNewline);
  }

  lemma PlainWindowEnd(text: string, s: nat, e: nat)
    requires s < e <= |SplitKeep(text)| && AllPlain(SplitKeep(text)[s..e])
    ensures EndsWithNewline(SplitKeep(text)[e - 1]) == NeedsNewline(text, SplitKeep(text)[e..])
  {
    var lines := SplitKeep(text);
    assert lines[s..e][e - 1 - s] == lines[e - 1];
    LinesOfText(text, e - 1);
    PlainLine(lines[e - 1]);
    if e == |lines| {
      LastLine(text);
    }
  }

  /** A window that a snippet can give back: plain, and not ending in an empty line. */
  ghost predicate Recovers(original: string, s: nat, e: nat)
    requires s < e <= |SplitLines(original)|
  {
    AllPlain(SplitKeep(original)[s..e]) && SplitLines(original)[e - 1] != ""
  }

  lemma WindowRecovered(original: string, s: nat, e: nat, needs: bool)
    requires s < e <= |SplitKeep(original)|
    ensures Flatten(SnippetLines(Snippet(original, s, e), needs)) == Flatten(SplitKeep(original)[s..e])
      <==> Recovers(original, s, e) && needs == NeedsNewline(original, SplitKeep(original)[e..])
  {
    var lines := SplitKeep(original);
    SnippetOfWindow(original, s, e);
    WindowIsLines(original, s, e);
    if AllPlain(lines[s..e]) {
      PlainAreLines(lines[s..e]);
      ThreeWays(lines, s, e);
      LinesSurvive(lines[s..e - 1], lines[e - 1]);
      PlainWindowEnd(original, s, e);
      WindowBack(lines[s..e - 1], lines[e - 1], needs);
    } else {
      OddBoundaryLost(lines[s..e], needs);
    }
  }

  /**
   In any text, splicing the extracted snippet back changes nothing if and only if the window's
   lines end in newlines, where they end, and the last one is not empty: `join` writes newlines
   only, and `splitlines` loses an empty last line.
   */
  lemma SpliceBackIsIdentity(original: string, s: nat, e: nat)
    requires s < e <= |SplitLines(original)|
    ensures Replaced(original, Snippet(original, s, e), s, e) == original
      <==> AllPlain(SplitKeep(original)[s..e]) && SplitLines(original)[e - 1] != ""
  {
    var lines := SplitKeep(original);
    var snippet := Snippet(original, s, e);
    var x := Flatten(SnippetLines(snippet, NeedsNewline(original, lines[e..])));
    SnippetOfWindow(original, s, e);
    SpliceKeepsText(original, snippet, s, e);
    SameMiddle(Flatten(lines[..s]), x, Flatten(lines[s..e]), Flatten(lines[e..]));
    WindowRecovered(original, s, e, NeedsNewline(original, lines[e..]));
  }

  /** In a text whose only boundary is the newline every window is plain. */
  lemma NewlineOnlyIsPlain(original: string, s: nat, e: nat)
    requires NewlineOnly(original) && s <= e <= |SplitKeep(original)|
    ensures AllPlain(SplitKeep(original)[s..e])
  {
    var lines := SplitKeep(original);
    FlattenSplit(original);
    forall i | 0 <= i < e - s
      ensures Plain(lines[s..e][i])
    {
      LinesOfText(original, s + i);
      if !Plain(lines[s + i]) {
        OddLine(lines[s + i]);
        OddBoundaryShows(lines, s + i);
      }
    }
  }

  /** There, the identity is lost with an empty last line alone. */
  lemma SpliceBackOfNewlines(original: string, s: nat, e: nat)
    requires NewlineOnly(original) && s < e <= |SplitLines(original)|
    ensures Replaced(original, Snippet(original, s, e), s, e) == original <==> SplitLines(original)[e - 1] != ""
  {
    NewlineOnlyIsPlain(original, s, e);
    SpliceBackIsIdentity(original, s, e);
  }

  /** The corner of a window that ends in an empty line: the line is lost. */
  lemma EmptyLineLost()
    ensures SplitLines("a\n\n") == ["a", ""] && Snippet("a\n\n", 0, 2) == "a\n"
    ensures Replaced("a\n\n", Snippet("a\n\n", 0, 2), 0, 2) == "a\n"
  {
    TwoLines();
    SpliceKeepsText("a\n\n", "a\n", 0, 2);
    assert SplitKeep("a\n\n")[..0] == [] && SplitKeep("a\n\n")[2..] == [] &&
      SplitKeep("a\n\n")[0..2] == SplitKeep("a\n\n");
    assert SplitLines("a\n\n")[0..2] == ["a", ""];
    assert ["a", ""][1..] == [""] && "a" + "\n" + "" == "a\n";
    assert Flatten(["a\n"]) == "a\n" + Flatten([]);
    assert "" + "a\n" + "" == "a\n";
  }

  /** In any text, the lines outside the window stay lines of their own, in place, exactly when it is apart. */
  lemma SpliceFrame(original: string, replacement: string, s: nat, e: nat)
    requires s < e <= |SplitLines(original)|
    ensures var lines, changed := SplitKeep(original), Replaced(original, replacement, s, e);
      var m := NewLines(original, changed, s, e);
      (m >= 0 && SplitKeep(changed)[..s] == lines[..s] && SplitKeep(changed)[s + m..] == lines[e..])
      <==> Apart(original, replacement, s, e)
  {
    var lines := SplitKeep(original);
    if Apart(original, replacement, s, e) {
      FrameAt(original, replacement, s, e);
      ThreeParts(lines[..s], Middle(original, replacement, lines[e..]), lines[e..]);
    } else {
      MetFrame(original, replacement, s, e);
    }
  }

  /** What splicing between the lines of a text gives back. */
  lemma GivenBack(original: string, changed: string, s: nat, e: nat, middle: seq<string>, snippet: string)
    requires s < e <= |SplitKeep(original)|
    requires SplitKeep(changed) == SplitKeep(original)[..s] + middle + SplitKeep(original)[e..]
    ensures var x := Flatten(SnippetLines(snippet, NeedsNewline(changed, SplitKeep(original)[e..])));
      Replaced(changed, snippet, s, s + |middle|) == original <==> x == Flatten(SplitKeep(original)[s..e])
  {
    var lines := SplitKeep(original);
    var x := Flatten(SnippetLines(snippet, NeedsNewline(changed, lines[e..])));
    assert |lines[..s]| == s;
    SpliceParts(changed, lines[..s], middle, lines[e..], snippet);
    SpliceKeepsText(original, snippet, s, e);
    SameMiddle(Flatten(lines[..s]), x, Flatten(lines[s..e]), Flatten(lines[e..]));
  }

  /** Splicing the old snippet over the lines that stand in the window's place. */
  lemma UndoAt(original: string, changed: string, s: nat, e: nat, middle: seq<string>)
    requires s < e <= |SplitKeep(original)|
    requires SplitKeep(changed) == SplitKeep(original)[..s] + middle + SplitKeep(original)[e..]
    ensures NewLines(original, changed, s, e) == |middle|
    ensures Replaced(changed, Snippet(original, s, e), s, s + |middle|) == original
      <==> (
        && Recovers(original, s, e)
        && (e < |SplitLines(original)| || EndsWithNewline(changed) == EndsWithNewline(original)))
  {
    GivenBack(original, changed, s, e, middle, Snippet(original, s, e));
    WindowRecovered(original, s, e, NeedsNewline(changed, SplitKeep(original)[e..]));
  }

  /**
   Undo, in any text: splicing the old snippet over the lines a replacement left restores the file
   exactly when the replacement keeps apart from the line before it, the window is plain and does
   not end in an empty line, and, at the end of the file, the final newline is as it was.
   */
  lemma SpliceUndo(original: string, replacement: string, s: nat, e: nat)
    requires s < e <= |SplitLines(original)|
    ensures var changed := Replaced(original, replacement, s, e);
      var m := NewLines(original, changed, s, e);
      (m >= 0 && Replaced(changed, Snippet(original, s, e), s, s + m) == original)
      <==> (
        && Apart(original, replacement, s, e) && Recovers(original, s, e)
        && (e < |SplitLines(original)| || EndsWithNewline(changed) == EndsWithNewline(original)))
  {
    if Apart(original, replacement, s, e) {
      UndoApart(original, replacement, s, e);
    } else {
      UndoMet(original, replacement, s, e);
    }
  }

  lemma UndoApart(original: string, replacement: string, s: nat, e: nat)
    requires s < e <= |SplitLines(original)| && Apart(original, replacement, s, e)
    ensures var changed := Replaced(original, replacement, s, e);
      var m := NewLines(original, changed, s, e);
      m >= 0 && (
        Replaced(changed, Snippet(original, s, e), s, s + m) == original
        <==> (
          && Recovers(original, s, e)
          && (e < |SplitLines(original)| || EndsWithNewline(changed) == EndsWithNewline(original))))
  {
    FrameAt(original, replacement, s, e);
    UndoAt(
      original, Replaced(original, replacement, s, e), s, e, Middle(original, replacement, SplitKeep(original)[e..]));
  }

  lemma UndoMet(original: string, replacement: string, s: nat, e: nat)
    requires s < e <= |SplitLines(original)| && !Apart(original, replacement, s, e)
    ensures var changed := Replaced(original, replacement, s, e);
      var m := NewLines(original, changed, s, e);
      m >= 0 ==> Replaced(changed, Snippet(original, s, e), s, s + m) != original
  {
    MetFrame(original, replacement, s, e);
    NotGivenBack(original, Replaced(original, replacement, s, e), s, e);
  }

  lemma NotGivenBack(original: string, changed: string, s: nat, e: nat)
    requires s < e <= |SplitLines(original)| && Met(original, changed, s)
    ensures var m := NewLines(original, changed, s, e);
      m >= 0 ==> Replaced(changed, Snippet(original, s, e), s, s + m) != original
  {
    var m := NewLines(original, changed, s, e);
    if m >= 0 {
      NeverGivenBack(original, changed, Snippet(original, s, e), s, s + m);
    }
  }

  lemma LastPart(before: string, x: string)
    requires x != ""
    ensures EndsWithNewline(before + x + "") == EndsWithNewline(x)
  {
    assert before + x + "" == before + x;
  }

  /** At the end of the file, a replacement that is not empty decides the final newline unless the file has one. */
  lemma FinalNewline(original: string, replacement: string, s: nat)
    requires s <= |SplitKeep(original)| && replacement != ""
    ensures EndsWithNewline(Replaced(original, replacement, s, |SplitKeep(original)|))
      == (EndsWithNewline(original) || EndsWithNewline(replacement))
  {
    var lines, needs := SplitKeep(original), EndsWithNewline(original);
    assert lines == lines[..s] + lines[s..] + [];
    SpliceParts(original, lines[..s], lines[s..], [], replacement);
    AdjustedEnd(replacement, needs);
    var x := Flatten(SnippetLines(replacement, needs));
    NotEmptied(replacement, needs);
    LastPart(Flatten(lines[..s]), x);
  }

  lemma NotEmptied(snippet: string, needsNewline: bool)
    requires snippet != ""
    ensures Flatten(SnippetLines(snippet, needsNewline)) != ""
  {
    var lines := SplitKeep(snippet);
    var n := |lines| - 1;
    LastLine(snippet);
    assert lines == lines[..n] + [lines[n]];
    FlattenSnoc(lines[..n], lines[n]);
    FlattenSnoc(lines[..n], lines[n] + "\n");
  }

  /** Whether a splice at the end of the file leaves the final newline as it was, seen before the splice. */
  predicate KeepsFinalNewline(original: string, replacement: string, s: nat)
    requires s < |SplitKeep(original)|
  {
    if replacement == "" then (s > 0 && EndsWithNewline(SplitKeep(original)[s - 1])) == EndsWithNewline(original)
    else EndsWithNewline(original) || !EndsWithNewline(replacement)
  }

  /** Deleting the end of a file leaves the lines before it, each with its boundary. */
  lemma DeletedEnd(original: string, s: nat)
    requires s < |SplitKeep(original)|
    ensures EndsWithNewline(Replaced(original, "", s, |SplitKeep(original)|))
      <==> s > 0 && EndsWithNewline(SplitKeep(original)[s - 1])
  {
    DeletedText(original, s);
    EndOfFirst(original, s);
  }

  lemma EndOfFirst(text: string, s: nat)
    requires s < |SplitKeep(text)|
    ensures EndsWithNewline(Flatten(SplitKeep(text)[..s])) <==> s > 0 && EndsWithNewline(SplitKeep(text)[s - 1])
  {
    if s > 0 {
      LinesOfText(text, s - 1);
      FlattenLast(SplitKeep(text)[..s]);
    }
  }

  lemma DeletedText(original: string, s: nat)
    requires s < |SplitKeep(original)|
    ensures Replaced(original, "", s, |SplitKeep(original)|) == Flatten(SplitKeep(original)[..s])
  {
    var lines := SplitKeep(original);
    SpliceBetween(original, "", s, |lines|);
    assert lines[|lines|..] == [];
    assert Flatten(lines[..s]) + "" + "" == Flatten(lines[..s]);
  }

  lemma EndOfFile(original: string, replacement: string, s: nat)
    requires s < |SplitKeep(original)|
    ensures var changed := Replaced(original, replacement, s, |SplitKeep(original)|);
      EndsWithNewline(changed) == EndsWithNewline(original) <==> KeepsFinalNewline(original, replacement, s)
  {
    if replacement == "" {
      DeletedEnd(original, s);
    } else {
      FinalNewline(original, replacement, s);
    }
  }

  /** The undo, with a condition that can be read off before the splice, whatever the text and the replacement. */
  lemma SpliceUndoExactly(original: string, replacement: string, s: nat, e: nat)
    requires s < e <= |SplitLines(original)|
    ensures var changed := Replaced(original, replacement, s, e);
      var m := NewLines(original, changed, s, e);
      (m >= 0 && Replaced(changed, Snippet(original, s, e), s, s + m) == original)
      <==> (
        && Apart(original, replacement, s, e) && Recovers(original, s, e)
        && (e < |SplitLines(original)| || KeepsFinalNewline(original, replacement, s)))
  {
    SpliceUndo(original, replacement, s, e);
    if e == |SplitKeep(original)| {
      EndOfFile(original, replacement, s);
    }
  }

  /** The corner the undo misses: a file of one line without a newline, replaced by a line with one. */
  lemma UndoAddsNewline()
    ensures var changed := Replaced("a", "b\n", 0, 1);
      changed == "b\n" && SplitLines(changed) == ["b"]
      && SplitLines("a") == ["a"] && Replaced(changed, Snippet("a", 0, 1), 0, 1) == "a\n"
  {
    SplitLast("a");
    assert NoBreaks("b");
    SplitStep("b", "");
    assert "b" + "\n" == "b\n" && "b" + "\n" + "" == "b\n";
    OneLine("a", "b\n", "b\n");
    OneLine("b\n", "a", "a\n");
  }

  lemma TwoReturns()
    ensures SplitKeep("a\rb") == ["a\r", "b"] && SplitLines("a\rb") == ["a", "b"]
  {
    var lone := "a\r";
    assert lone[1..] == "\r" && LineSize("\r") == 1 && LineSize(lone) == 2 && lone[..2] == lone && lone[2..] == "";
    SplitLast("b");
    SplitAppend(lone, "b");
    assert lone + "b" == "a\rb" && lone[..1] == "a";
    assert ["a\r", "b"][1..] == ["b"] && Chop(lone) == "a" && Chop("b") == "b";
  }

  /** A replacement whose newline completes the return before the window: no undo takes it out again. */
  lemma ReturnMeetsNewline()
    ensures SplitLines("a\rb") == ["a", "b"]
    ensures var changed := Replaced("a\rb", "\nc", 1, 2);
      var m := NewLines("a\rb", changed, 1, 2);
      !(m >= 0 && Replaced(changed, Snippet("a\rb", 1, 2), 1, 1 + m) == "a\rb")
  {
    TwoReturns();
    assert Meets("a\r", "\nc");
    SpliceUndo("a\rb", "\nc", 1, 2);
  }

  /** A window that ends in a return and a newline loses the return. */
  lemma ReturnLost()
    ensures SplitLines("a\r\n") == ["a"] && Replaced("a\r\n", Snippet("a\r\n", 0, 1), 0, 1) != "a\r\n"
  {
    var line := "a" + "\r" + "\n";
    OneReturn("a");
    assert line == "a\r\n" && line[..1] == "a" && Chop(line) == "a";
    assert [line][0..1][0] == line && !Plain(line);
    SpliceBackIsIdentity(line, 0, 1);
  }

  lemma OneLine(original: string, replacement: string, x: string)
    requires SplitKeep(original) == [original] && SplitKeep(replacement) == [replacement]
    requires x == if EndsWithNewline(original) && !EndsWithNewline(replacement) then replacement + "\n" else replacement
    ensures SplitLines(original) == [Chop(original)] && Snippet(original, 0, 1) == Chop(original)
    ensures Replaced(original, replacement, 0, 1) == x
  {
    SpliceParts(original, [], [original], [], replacement);
    assert [original] == [] + [original] + [];
    assert "" + x + "" == x;
    assert x + "" == x;
  }
}
