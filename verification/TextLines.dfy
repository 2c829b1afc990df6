/** Python's view of text as lines: `splitlines`, `strip`, `join`. */
module TextLines {
  import opened Sequences

  /** The line boundaries of `str.splitlines`; "\r\n" counts as one. */
  predicate IsBreak(c: char) {
    '\n' <= c <= '\r' || '\U{1C}' <= c <= '\U{1E}' || c == '\U{85}' || c == '\U{2028}' || c == '\U{2029}'
  }

  /** `str.isspace` on one character. */
  predicate IsSpace(c: char) {
    || '\t' <= c <= '\r' || '\U{1C}' <= c <= ' ' || c == '\U{85}' || c == '\U{A0}' || c == '\U{1680}'
    || '\U{2000}' <= c <= '\U{200A}' || c == '\U{2028}' || c == '\U{2029}' || c == '\U{202F}' || c == '\U{205F}'
    || c == '\U{3000}'
  }

  /** The size of the line boundary at the start of `s`, 0 if there is none. */
  function BreakSize(s: string): nat
    requires s != ""
  {
    if s[0] == '\r' && |s| > 1 && s[1] == '\n' then 2 else if IsBreak(s[0]) then 1 else 0
  }

  /** The size of the first line with its boundary. */
  function LineSize(s: string): (n: nat)
    requires s != ""
    ensures 1 <= n <= |s|
  {
    if BreakSize(s) > 0 then BreakSize(s)
    else if |s| == 1 then 1
    else 1 + LineSize(s[1..])
  }

  /** `s.splitlines(keepends=True)` */
  function SplitKeep(s: string): (r: seq<string>)
    ensures r == [] <==> s == ""
  {
    if s == "" then [] else [s[..LineSize(s)]] + SplitKeep(s[LineSize(s)..])
  }

  /** A line without its boundary. */
  function Chop(line: string): string {
    var n := |line|;
    if n >= 2 && line[n - 2] == '\r' && line[n - 1] == '\n' then line[..n - 2]
    else if n >= 1 && IsBreak(line[n - 1]) then line[..n - 1]
    else line
  }

  function ChopAll(lines: seq<string>): (r: seq<string>)
    ensures |r| == |lines|
  {
    if lines == [] then [] else [Chop(lines[0])] + ChopAll(lines[1..])
  }

  lemma {:induction false} ChopAllAppend(xs: seq<string>, ys: seq<string>)
    ensures ChopAll(xs + ys) == ChopAll(xs) + ChopAll(ys)
  {
    if xs == [] {
      assert xs + ys == ys;
    } else {
      assert (xs + ys)[1..] == xs[1..] + ys;
      ChopAllAppend(xs[1..], ys);
    }
  }

  /** `s.splitlines()` */
  function SplitLines(s: string): seq<string> {
    ChopAll(SplitKeep(s))
  }

  /** `"".join(lines)` */
  function Flatten(lines: seq<string>): string {
    if lines == [] then "" else lines[0] + Flatten(lines[1..])
  }

  /** `"\n".join(lines)` */
  function Join(lines: seq<string>): string {
    if lines == [] then ""
    else if |lines| == 1 then lines[0]
    else lines[0] + "\n" + Join(lines[1..])
  }

  predicate EndsWithNewline(s: string) {
    s != "" && s[|s| - 1] == '\n'
  }

  /** `s.lstrip()` */
  function StripStart(s: string): string {
    if s != "" && IsSpace(s[0]) then StripStart(s[1..]) else s
  }

  /** `s.rstrip()` */
  function StripEnd(s: string): (r: string)
    ensures |r| <= |s| && r == s[..|r|]
  {
    if s != "" && IsSpace(s[|s| - 1]) then StripEnd(s[..|s| - 1]) else s
  }

  /** `s.strip()` */
  function Strip(s: string): string {
    StripEnd(StripStart(s))
  }

  /** `out` is `s` without the whitespace at its start. */
  predicate TrimsStart(s: string, out: string) {
    var n := |s| - |out|;
    && n >= 0 && out == s[n..] && (forall i: nat | i < n :: IsSpace(s[i]))
    && (out != "" ==> !IsSpace(out[0]))
  }

  /** `out` is `s` without the whitespace at its end. */
  predicate TrimsEnd(s: string, out: string) {
    && out <= s && (forall i: nat | |out| <= i < |s| :: IsSpace(s[i]))
    && (out != "" ==> !IsSpace(out[|out| - 1]))
  }

  lemma {:induction false} StripStartTrims(s: string)
    ensures TrimsStart(s, StripStart(s))
  {
    if s != "" && IsSpace(s[0]) {
      StripStartTrims(s[1..]);
      var out := StripStart(s);
      var n := |s| - |out|;
      assert out == s[n..];
      forall i: nat | i < n ensures IsSpace(s[i]) {
        assert i > 0 ==> s[i] == s[1..][i - 1];
      }
    }
  }

  lemma {:induction false} StripEndTrims(s: string)
    ensures TrimsEnd(s, StripEnd(s))
  {
    if s != "" && IsSpace(s[|s| - 1]) {
      StripEndTrims(s[..|s| - 1]);
    }
  }

  /** `t`, at `i` in `s`, has no whitespace at its ends and nothing else around it. */
  ghost predicate StandsIn(s: string, t: string, i: nat) {
    && i + |t| <= |s| && t == s[i..i + |t|]
    && (forall k: nat | k < i || i + |t| <= k < |s| :: IsSpace(s[k]))
    && (t != "" ==> !IsSpace(t[0]) && !IsSpace(t[|t| - 1]))
  }

  /** `t` is `s` without the whitespace around it. */
  ghost predicate Strips(s: string, t: string) {
    exists i :: StandsIn(s, t, i)
  }

  /** `s.strip()` takes the whitespace around a text away and nothing else. */
  lemma StripsExactly(s: string, t: string)
    ensures Strips(s, t) <==> t == Strip(s)
  {
    var start := StripStart(s);
    var u, i := StripEnd(start), |s| - |start|;
    StripStartTrims(s);
    StripEndTrims(start);
    assert forall k: nat | k < |start| :: start[k] == s[i + k];
    assert StandsIn(s, u, i);
    if Strips(s, t) {
      var j :| StandsIn(s, t, j);
      OneStrip(s, t, j, u, i);
    }
  }

  lemma OneStrip(s: string, t: string, i: nat, u: string, j: nat)
    requires StandsIn(s, t, i) && StandsIn(s, u, j)
    ensures t == u
  {
    assert t != "" ==> t[0] == s[i] && t[|t| - 1] == s[i + |t| - 1];
    assert u != "" ==> u[0] == s[j] && u[|u| - 1] == s[j + |u| - 1];
  }

  lemma NothingToStrip(s: string)
    requires s != "" && !IsSpace(s[0]) && !IsSpace(s[|s| - 1])
    ensures Strip(s) == s
  {
  }

  // ------------------------------------------------------------ splitting and flattening

  lemma {:induction false} FlattenSplit(s: string)
    ensures Flatten(SplitKeep(s)) == s
  {
    if s != "" {
      FlattenSplit(s[LineSize(s)..]);
    }
  }

  lemma {:induction false} FlattenAppend(xs: seq<string>, ys: seq<string>)
    ensures Flatten(xs + ys) == Flatten(xs) + Flatten(ys)
  {
    if xs == [] {
      assert xs + ys == ys;
    } else {
      assert (xs + ys)[1..] == xs[1..] + ys;
      FlattenAppend(xs[1..], ys);
    }
  }

  lemma FlattenThree(before: seq<string>, middle: seq<string>, after: seq<string>)
    ensures Flatten(before + middle + after) == Flatten(before) + Flatten(middle) + Flatten(after)
  {
    FlattenAppend(before + middle, after);
    FlattenAppend(before, middle);
  }

  /** `a` ends and `b` starts with the two halves of "\r\n", which is one boundary. */
  predicate Meets(a: string, b: string) {
    a != "" && a[|a| - 1] == '\r' && b != "" && b[0] == '\n'
  }

  /** No line of `a` goes on after it. */
  predicate Ended(a: string) {
    a == "" || IsBreak(a[|a| - 1])
  }

  lemma {:induction false} LineSizeAppend(a: string, b: string)
    requires a != "" && Ended(a) && !Meets(a, b)
    ensures LineSize(a + b) == LineSize(a)
  {
    if BreakSize(a) == 0 {
      assert |a| > 1;
      assert (a + b)[1..] == a[1..] + b;
      LineSizeAppend(a[1..], b);
    }
  }

  /** Text after a line boundary does not change how the text before it splits, unless the boundary goes on in it. */
  lemma {:induction false} SplitAppend(a: string, b: string)
    requires Ended(a) && !Meets(a, b)
    ensures SplitKeep(a + b) == SplitKeep(a) + SplitKeep(b)
    decreases |a|
  {
    if a == "" {
      assert a + b == b;
    } else {
      var n := LineSize(a);
      LineSizeAppend(a, b);
      assert (a + b)[..n] == a[..n] && (a + b)[n..] == a[n..] + b;
      SplitAppend(a[n..], b);
      ConcatAssociates([a[..n]], SplitKeep(a[n..]), SplitKeep(b));
    }
  }

  lemma {:induction false} FirstLineAlone(s: string)
    requires s != ""
    ensures LineSize(s[..LineSize(s)]) == LineSize(s)
  {
    if BreakSize(s) == 0 && |s| > 1 {
      var n := LineSize(s);
      FirstLineAlone(s[1..]);
      assert s[..n][1..] == s[1..][..n - 1];
    }
  }

  lemma {:induction false} FirstLineEnded(s: string)
    requires s != "" && LineSize(s) < |s|
    ensures var n := LineSize(s); IsBreak(s[n - 1]) && !(s[n - 1] == '\r' && s[n] == '\n')
  {
    if BreakSize(s) == 0 {
      FirstLineEnded(s[1..]);
    }
  }

  /** A first line is a line of its own, and what follows it does not go on with it. */
  lemma FirstLineStands(s: string)
    requires s != ""
    ensures LineSize(s[..LineSize(s)]) == LineSize(s)
    ensures LineSize(s) < |s| ==> Ended(s[..LineSize(s)]) && !Meets(s[..LineSize(s)], s[LineSize(s)..])
  {
    FirstLineAlone(s);
    if LineSize(s) < |s| {
      FirstLineEnded(s);
    }
  }

  lemma {:induction false} LinesApart(s: string, i: nat)
    requires 0 < i < |SplitKeep(s)|
    ensures Ended(SplitKeep(s)[i - 1]) && !Meets(SplitKeep(s)[i - 1], SplitKeep(s)[i])
    decreases i
  {
    var n := LineSize(s);
    if i == 1 {
      FirstLineStands(s);
      assert SplitKeep(s)[1] == s[n..][..LineSize(s[n..])];
    } else {
      LinesApart(s[n..], i - 1);
    }
  }

  /** The first lines of a text joined back split into themselves. */
  lemma {:induction false} FirstLinesSplit(s: string, i: nat)
    requires i <= |SplitKeep(s)|
    ensures SplitKeep(Flatten(SplitKeep(s)[..i])) == SplitKeep(s)[..i]
    decreases i
  {
    if i > 0 {
      var line, rest := s[..LineSize(s)], s[LineSize(s)..];
      FirstLineStands(s);
      FirstLinesSplit(rest, i - 1);
      var others := SplitKeep(rest)[..i - 1];
      assert SplitKeep(s)[..i] == [line] + others;
      assert line[..|line|] == line && line[|line|..] == "" && SplitKeep(line) == [line];
      if i > 1 {
        FirstOfFlatten(rest, i - 1);
        SplitAppend(line, Flatten(others));
      } else {
        assert line + "" == line;
      }
    }
  }

  lemma FirstOfFlatten(s: string, i: nat)
    requires 0 < i <= |SplitKeep(s)|
    ensures Flatten(SplitKeep(s)[..i]) != "" && Flatten(SplitKeep(s)[..i])[0] == s[0]
  {
  }

  /** The last lines of a text joined back split into themselves. */
  lemma {:induction false} LastLinesSplit(s: string, i: nat)
    requires i <= |SplitKeep(s)|
    ensures SplitKeep(Flatten(SplitKeep(s)[i..])) == SplitKeep(s)[i..]
    decreases i
  {
    if i == 0 {
      FlattenSplit(s);
    } else {
      var rest := s[LineSize(s)..];
      LastLinesSplit(rest, i - 1);
      assert SplitKeep(s)[i..] == SplitKeep(rest)[i - 1..];
    }
  }

  // ------------------------------------------------------------ text whose only boundary is "\n"

  predicate NewlineOnly(s: string) {
    s == "" || ((IsBreak(s[0]) ==> s[0] == '\n') && NewlineOnly(s[1..]))
  }

  lemma {:induction false} NewlineOnlyAppend(a: string, b: string)
    ensures NewlineOnly(a + b) <==> NewlineOnly(a) && NewlineOnly(b)
  {
    if a == "" {
      assert a + b == b;
    } else {
      assert (a + b)[1..] == a[1..] + b;
      NewlineOnlyAppend(a[1..], b);
    }
  }

  lemma {:induction false} NoBreaksNewlineOnly(s: string)
    requires NoBreaks(s)
    ensures NewlineOnly(s)
  {
    if s != "" {
      NoBreaksNewlineOnly(s[1..]);
    }
  }

  predicate NoBreaks(s: string) {
    s == "" || (!IsBreak(s[0]) && NoBreaks(s[1..]))
  }

  lemma {:induction false} NoBreakAtEnd(s: string)
    requires NoBreaks(s) && s != ""
    ensures !IsBreak(s[|s| - 1])
  {
    if |s| > 1 {
      NoBreakAtEnd(s[1..]);
    }
  }

  lemma {:induction false} LineSizeIs(a: string, b: string)
    requires NoBreaks(a)
    ensures b != "" && b[0] == '\n' ==> LineSize(a + b) == |a| + 1
    ensures b == "" && a != "" ==> LineSize(a + b) == |a|
  {
    if a == "" {
      assert a + b == b;
    } else {
      assert (a + b)[1..] == a[1..] + b;
      LineSizeIs(a[1..], b);
    }
  }

  lemma SplitStep(line: string, rest: string)
    requires NoBreaks(line)
    ensures SplitKeep(line + "\n" + rest) == [line + "\n"] + SplitKeep(rest)
  {
    LineSizeIs(line, "\n" + rest);
    var s := line + "\n" + rest;
    assert s == line + ("\n" + rest);
    assert s[..|line| + 1] == line + "\n" && s[|line| + 1..] == rest;
  }

  lemma TwoLines()
    ensures SplitKeep("a\n\n") == ["a\n", "\n"] && SplitLines("a\n\n") == ["a", ""]
    ensures SplitKeep("a\n") == ["a\n"] && SplitLines("a\n") == ["a"]
  {
    assert NoBreaks("a") && NoBreaks("");
    SplitStep("a", "\n");
    SplitStep("", "");
    SplitStep("a", "");
    assert "a" + "\n" == "a\n" && "a" + "\n" + "\n" == "a\n\n" && "" + "\n" + "" == "\n" && "" + "\n" == "\n";
    assert "a" + "\n" + "" == "a\n";
  }

  lemma SplitLast(line: string)
    requires NoBreaks(line) && line != ""
    ensures SplitKeep(line) == [line]
  {
    LineSizeIs(line, "");
    assert line + "" == line && line[..|line|] == line && line[|line|..] == "";
  }

  /** A line of newline-only text: no boundary but possibly a final newline. */
  predicate IsLine(line: string) {
    line != "" && NoBreaks(if EndsWithNewline(line) then line[..|line| - 1] else line)
  }

  lemma ChopLine(line: string)
    requires IsLine(line)
    ensures NoBreaks(Chop(line)) && !EndsWithNewline(Chop(line))
    ensures line == if EndsWithNewline(line) then Chop(line) + "\n" else Chop(line)
  {
    var body := if EndsWithNewline(line) then line[..|line| - 1] else line;
    if body != "" {
      NoBreakAtEnd(body);
    }
  }

  /** Lines in the form `SplitKeep` gives: all but the last end in a newline. */
  predicate AreLines(lines: seq<string>) {
    && (forall i | 0 <= i < |lines| :: IsLine(lines[i]))
    && (forall i | 0 <= i < |lines| - 1 :: EndsWithNewline(lines[i]))
  }

  lemma SplitFlattenStep(line: string, rest: seq<string>)
    requires IsLine(line) && EndsWithNewline(line) && SplitKeep(Flatten(rest)) == rest
    ensures SplitKeep(line + Flatten(rest)) == [line] + rest
  {
    ChopLine(line);
    SplitStep(Chop(line), Flatten(rest));
  }

  lemma SplitFlattenLast(line: string)
    requires IsLine(line)
    ensures SplitKeep(line + "") == [line]
  {
    if EndsWithNewline(line) {
      SplitFlattenStep(line, []);
    } else {
      ChopLine(line);
      SplitLast(line);
      assert line + "" == line;
    }
  }

  /** Lines in that form split back into themselves. */
  lemma {:induction false} SplitFlatten(lines: seq<string>)
    requires AreLines(lines)
    ensures SplitKeep(Flatten(lines)) == lines
  {
    if |lines| == 1 {
      SplitFlattenLast(lines[0]);
    } else if |lines| > 1 {
      SplitFlatten(lines[1..]);
      SplitFlattenStep(lines[0], lines[1..]);
    }
  }

  /** Lines joined back end as the last one does. */
  lemma {:induction false} FlattenEnds(front: seq<string>, line: string)
    requires line != ""
    ensures Flatten(front + [line]) == Flatten(front) + line
    ensures EndsWithNewline(Flatten(front + [line])) == EndsWithNewline(line)
  {
    FlattenAppend(front, [line]);
    assert line + "" == line;
  }

  lemma {:induction false} LastLine(s: string)
    requires s != ""
    ensures var lines := SplitKeep(s);
      lines[|lines| - 1] != "" && EndsWithNewline(lines[|lines| - 1]) == EndsWithNewline(s)
    decreases |s|
  {
    var n := LineSize(s);
    if n < |s| {
      LastLine(s[n..]);
    } else {
      assert s[..n] == s && s[n..] == "";
    }
  }

  // ------------------------------------------------------------ lines of any text

  lemma ChopLonger(c: char, line: string)
    requires !IsBreak(c) && line != ""
    ensures Chop([c] + line) == [c] + Chop(line)
  {
  }

  lemma {:induction false} FirstLineNoBreaks(s: string)
    requires s != ""
    ensures NoBreaks(Chop(s[..LineSize(s)]))
  {
    var line := s[..LineSize(s)];
    if BreakSize(s) > 0 {
      assert Chop(line) == "";
    } else if |s| == 1 {
      assert line == s && s[1..] == "";
    } else {
      FirstLineNoBreaks(s[1..]);
      assert line == [s[0]] + s[1..][..LineSize(s[1..])];
      ChopLonger(s[0], s[1..][..LineSize(s[1..])]);
      assert Chop(line)[1..] == Chop(s[1..][..LineSize(s[1..])]);
    }
  }

  /** A line that others follow has a boundary. */
  lemma {:induction false} FirstLineEnds(s: string)
    requires s != "" && LineSize(s) < |s|
    ensures Chop(s[..LineSize(s)]) != s[..LineSize(s)]
  {
    if BreakSize(s) == 0 {
      FirstLineEnds(s[1..]);
      var rest := s[1..][..LineSize(s[1..])];
      assert s[..LineSize(s)] == [s[0]] + rest;
      ChopLonger(s[0], rest);
    }
  }

  /** The lines of any text hold a boundary at their end at most, and all but the last one do. */
  lemma {:induction false} LinesOfText(s: string, i: nat)
    requires i < |SplitKeep(s)|
    ensures var line := SplitKeep(s)[i];
      line != "" && NoBreaks(Chop(line)) && (i < |SplitKeep(s)| - 1 ==> Chop(line) != line)
    decreases i
  {
    var n := LineSize(s);
    if i == 0 {
      FirstLineNoBreaks(s);
      if n < |s| {
        FirstLineEnds(s);
      }
    } else {
      LinesOfText(s[n..], i - 1);
    }
  }

  /** A line whose boundary, if it has one, is a newline. */
  predicate Plain(line: string) {
    line == Chop(line) || line == Chop(line) + "\n"
  }

  lemma PlainLine(line: string)
    requires line != "" && NoBreaks(Chop(line))
    ensures Plain(line) ==> IsLine(line) && (Chop(line) != line <==> EndsWithNewline(line))
    ensures !Plain(line) ==> exists i :: 0 <= i < |line| && IsBreak(line[i]) && line[i] != '\n'
  {
    var n := |line|;
    if Plain(line) {
      if Chop(line) != "" {
        NoBreakAtEnd(Chop(line));
      }
      assert EndsWithNewline(line) ==> line[..n - 1] == Chop(line);
    } else if n >= 2 && line[n - 2] == '\r' && line[n - 1] == '\n' {
      assert IsBreak(line[n - 2]);
    } else {
      assert IsBreak(line[n - 1]) && line == line[..n - 1] + [line[n - 1]];
    }
  }
}
