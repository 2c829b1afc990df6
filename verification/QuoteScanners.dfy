/**
 The hand-written scanners of comment stripping and function folding
 (omnicode/llm/token_manager.py): both walk a text with one quote and escape automaton.
 */
module QuoteScanners {
  import opened Sequences
  import opened TextLines

  // ------------------------------------------------------------ the automaton

  datatype Mode = Code | Single | Double

  datatype State = State(mode: Mode, escape: bool) {
    function Step(c: char): State {
      if escape then State(mode, false)
      else if c == '\\' then State(mode, true)
      else
        match mode
        case Code => State(if c == '\'' then Single else if c == '"' then Double else Code, false)
        case Single => State(if c == '\'' then Code else Single, false)
        case Double => State(if c == '"' then Code else Double, false)
    }
  }

  const START := State(Code, false)

  /** The state in which position `i` is read, when the scan starts at `from`. */
  function StateAt(s: string, from: nat, i: nat): State
    requires from <= i <= |s|
  {
    if i == from then START else StateAt(s, from, i - 1).Step(s[i - 1])
  }

  /** Position `i` holds a character of code: it is in no literal and not escaped. */
  predicate InCode(s: string, from: nat, i: nat)
    requires from <= i < |s|
  {
    StateAt(s, from, i) == START && s[i] != '\\'
  }

  /** The mode inside a literal that `quote` opens. */
  function Inside(quote: char): Mode {
    if quote == '\'' then Single else if quote == '"' then Double else Code
  }

  /** A literal from the quote at `i` to the next one at `j`, without a backslash, is passed over as a whole. */
  lemma {:induction false} LiteralIsPassed(s: string, from: nat, i: nat, j: nat)
    requires from <= i < j < |s| && InCode(s, from, i) && (s[i] == '\'' || s[i] == '"') && s[j] == s[i]
    requires forall k: nat | i < k < j :: s[k] != s[i] && s[k] != '\\'
    ensures forall k: nat | i < k <= j :: StateAt(s, from, k) == State(Inside(s[i]), false)
    ensures forall k: nat | i < k <= j :: !InCode(s, from, k)
    ensures StateAt(s, from, j + 1) == START
  {
    InLiteral(s, from, i, j);
  }

  lemma {:induction false} InLiteral(s: string, from: nat, i: nat, j: nat)
    requires from <= i < j < |s| && InCode(s, from, i) && (s[i] == '\'' || s[i] == '"')
    requires forall k: nat | i < k < j :: s[k] != s[i] && s[k] != '\\'
    ensures forall k: nat | i < k <= j :: StateAt(s, from, k) == State(Inside(s[i]), false)
  {
    if j > i + 1 {
      InLiteral(s, from, i, j - 1);
    }
  }

  /** A backslash and the character after it are no code and leave the scan where it was. */
  lemma EscapeIsPassed(s: string, from: nat, i: nat)
    requires from <= i && i + 1 < |s| && s[i] == '\\' && !StateAt(s, from, i).escape
    ensures !InCode(s, from, i) && !InCode(s, from, i + 1)
    ensures StateAt(s, from, i + 2) == StateAt(s, from, i)
  {
  }

  /** Any other character of code is followed by code. */
  lemma CodeGoesOn(s: string, from: nat, i: nat)
    requires from <= i < |s| && InCode(s, from, i) && s[i] != '\'' && s[i] != '"'
    ensures StateAt(s, from, i + 1) == START
  {
  }

  // ------------------------------------------------------------ finding a comment

  /** A comment marker stands at `i`, outside the literals. */
  predicate MarkerAt(line: string, marker: string, i: nat) {
    && i < |line| && i + |marker| <= |line| && line[i..i + |marker|] == marker
    && InCode(line, 0, i) && line[i] != '\'' && line[i] != '"'
  }

  /** `r` is the position of the first comment marker, or -1 when there is none. */
  ghost predicate FirstMarker(line: string, marker: string, r: int) {
    if r == -1 then forall i: nat :: !MarkerAt(line, marker, i)
    else r >= 0 && MarkerAt(line, marker, r) && forall i: nat | i < r :: !MarkerAt(line, marker, i)
  }

  /** `_find_comment_index` */
  method FindCommentIndex(line: string, marker: string) returns (index: int)
    ensures FirstMarker(line, marker, index)
  {
    var inSingle, inDouble, escape := false, false, false;
    var i := 0;
    while i < |line|
      invariant i <= |line| && !(inSingle && inDouble)
      invariant StateAt(line, 0, i) == State(if inSingle then Single else if inDouble then Double else Code, escape)
      invariant forall j: nat | j < i :: !MarkerAt(line, marker, j)
    {
      var ch := line[i];
      if escape {
        escape := false;
        i := i + 1;
        continue;
      }
      if ch == '\\' {
        escape := true;
        i := i + 1;
        continue;
      }
      if ch == '\'' && !inDouble {
        inSingle := !inSingle;
      } else if ch == '"' && !inSingle {
        inDouble := !inDouble;
      } else if !inSingle && !inDouble && i + |marker| <= |line| && line[i..i + |marker|] == marker {
        return i;
      }
      i := i + 1;
    }
    return -1;
  }

  // ------------------------------------------------------------ finding the closing brace

  /** What the character at `i` adds to the brace depth. */
  function BraceAt(s: string, from: nat, i: nat): int
    requires from <= i < |s|
  {
    if !InCode(s, from, i) then 0 else if s[i] == '{' then 1 else if s[i] == '}' then -1 else 0
  }

  /** The depth of the braces of code between `from` and `i`. */
  function Depth(s: string, from: nat, i: nat): int
    requires from <= i <= |s|
  {
    if i == from then 0 else Depth(s, from, i - 1) + BraceAt(s, from, i - 1)
  }

  /** The positions of `c` in the code between `from` and `i`. */
  function Placed(s: string, from: nat, i: nat, c: char): set<nat>
    requires from <= i <= |s|
  {
    set k: nat | from <= k < i && InCode(s, from, k) && s[k] == c
  }

  /** The depth is the number of opening braces of code without that of the closing ones. */
  lemma {:induction false} DepthCounts(s: string, from: nat, i: nat)
    requires from <= i <= |s|
    ensures Depth(s, from, i) == |Placed(s, from, i, '{')| - |Placed(s, from, i, '}')|
  {
    if i == from {
      assert Placed(s, from, i, '{') == {} && Placed(s, from, i, '}') == {};
    } else {
      DepthCounts(s, from, i - 1);
      OneMorePlaced(s, from, i, '{');
      OneMorePlaced(s, from, i, '}');
    }
  }

  lemma OneMorePlaced(s: string, from: nat, i: nat, c: char)
    requires from < i <= |s|
    ensures |Placed(s, from, i, c)|
         == |Placed(s, from, i - 1, c)| + (if InCode(s, from, i - 1) && s[i - 1] == c then 1 else 0)
  {
    var before, after := Placed(s, from, i - 1, c), Placed(s, from, i, c);
    assert after == if InCode(s, from, i - 1) && s[i - 1] == c then before + {i - 1} else before;
  }

  /** A brace of code at `i` brings the depth back to 0. */
  predicate ClosesAt(code: string, from: nat, i: nat) {
    from <= i < |code| && BraceAt(code, from, i) == -1 && Depth(code, from, i + 1) == 0
  }

  /** `r` is the first position where the depth is back to 0, or -1 when it never is. */
  ghost predicate FirstClose(code: string, from: nat, r: int) {
    if r == -1 then forall i: nat :: !ClosesAt(code, from, i)
    else r >= 0 && ClosesAt(code, from, r) && forall i: nat | i < r :: !ClosesAt(code, from, i)
  }

  /** `_find_matching_brace` */
  method FindMatchingBrace(code: string, braceStart: nat) returns (index: int)
    ensures FirstClose(code, braceStart, index)
  {
    var depth := 0;
    var inSingle, inDouble, escape := false, false, false;
    var i := braceStart;
    while i < |code|
      invariant braceStart <= i && !(inSingle && inDouble)
      invariant i <= |code| ==>
        StateAt(code, braceStart, i) == State(if inSingle then Single else if inDouble then Double else Code, escape)
        && depth == Depth(code, braceStart, i)
      invariant i > |code| ==> i == braceStart
      invariant forall j: nat | braceStart <= j < i :: !ClosesAt(code, braceStart, j)
    {
      var ch := code[i];
      if escape {
        escape := false;
      } else if ch == '\\' {
        escape := true;
      } else if !inSingle && !inDouble {
        if ch == '{' {
          depth := depth + 1;
        } else if ch == '}' {
          depth := depth - 1;
          if depth == 0 {
            return i;
          }
        } else if ch == '\'' {
          inSingle := true;
        } else if ch == '"' {
          inDouble := true;
        }
      } else {
        if inSingle && ch == '\'' {
          inSingle := false;
        } else if inDouble && ch == '"' {
          inDouble := false;
        }
      }
      i := i + 1;
    }
    return -1;
  }

  /** From an opening brace on, the depth stays positive up to the brace that is found. */
  lemma {:induction false} OpenUntilClosed(code: string, from: nat, close: nat, i: nat)
    requires from < |code| && code[from] == '{' && FirstClose(code, from, close)
    requires from < i <= close
    ensures Depth(code, from, i) >= 1
  {
    if i == from + 1 {
      assert StateAt(code, from, from) == START;
    } else {
      OpenUntilClosed(code, from, close, i - 1);
      var before := i - 1;
      assert !ClosesAt(code, from, before);
    }
  }

  // ------------------------------------------------------------ the automaton reads only what it has passed

  lemma {:induction false} StatePrefix(s: string, k: nat, from: nat, i: nat)
    requires from <= i <= k <= |s|
    ensures StateAt(s[..k], from, i) == StateAt(s, from, i)
  {
    if i > from {
      StatePrefix(s, k, from, i - 1);
    }
  }

  /** A marker in the start of a line is one in the line. */
  lemma MarkerInPrefix(line: string, marker: string, k: nat, i: nat)
    requires k <= |line| && MarkerAt(line[..k], marker, i)
    ensures MarkerAt(line, marker, i)
  {
    StatePrefix(line, k, 0, i);
    assert line[..k][i..i + |marker|] == line[i..i + |marker|];
  }

  // ------------------------------------------------------------ stripping comments

  /** The position that `FindCommentIndex` finds, as a function. */
  function CommentIndex(line: string, marker: string, from: nat): (r: int)
    requires from <= |line|
    ensures r == -1 || from <= r < |line|
    decreases |line| - from
  {
    if from == |line| then -1
    else if MarkerAt(line, marker, from) then from
    else CommentIndex(line, marker, from + 1)
  }

  lemma {:induction false} CommentIndexFrom(line: string, marker: string, from: nat)
    requires from <= |line| && forall i: nat | i < from :: !MarkerAt(line, marker, i)
    ensures FirstMarker(line, marker, CommentIndex(line, marker, from))
    decreases |line| - from
  {
    if from < |line| && !MarkerAt(line, marker, from) {
      CommentIndexFrom(line, marker, from + 1);
    }
  }

  lemma OneFirstMarker(line: string, marker: string, r: int)
    requires FirstMarker(line, marker, r)
    ensures r == CommentIndex(line, marker, 0)
  {
    CommentIndexFrom(line, marker, 0);
    var q := CommentIndex(line, marker, 0);
    assert q != -1 ==> MarkerAt(line, marker, q);
    assert r != -1 ==> MarkerAt(line, marker, r);
  }

  /** A line without its comment, unless the comment is to be kept; nothing is left of a comment line. */
  function Shrink(line: string, marker: string, keep: string -> bool): Option<string> {
    var index := CommentIndex(line, marker, 0);
    if index == -1 || keep(line[index..]) then Some(line)
    else if StripEnd(line[..index]) == "" then None
    else Some(StripEnd(line[..index]))
  }

  function ShrinkAll(lines: seq<string>, marker: string, keep: string -> bool): seq<string> {
    if lines == [] then []
    else
      var rest := ShrinkAll(lines[1..], marker, keep);
      var line := Shrink(lines[0], marker, keep);
      if line.Some? then [line.value] + rest else rest
  }

  function Stripped(code: string, marker: string, keep: string -> bool): string {
    Join(ShrinkAll(SplitLines(code), marker, keep))
  }

  lemma {:induction false} ShrinkAllAppend(xs: seq<string>, ys: seq<string>, marker: string, keep: string -> bool)
    ensures ShrinkAll(xs + ys, marker, keep) == ShrinkAll(xs, marker, keep) + ShrinkAll(ys, marker, keep)
  {
    if xs == [] {
      assert xs + ys == ys;
    } else {
      assert (xs + ys)[1..] == xs[1..] + ys;
      ShrinkAllAppend(xs[1..], ys, marker, keep);
    }
  }

  lemma ShrinkSnoc(lines: seq<string>, i: nat, marker: string, keep: string -> bool)
    requires i < |lines|
    ensures var line := Shrink(lines[i], marker, keep);
      var out := ShrinkAll(lines[..i], marker, keep);
      ShrinkAll(lines[..i + 1], marker, keep) == if line.Some? then out + [line.value] else out
  {
    assert lines[..i + 1] == lines[..i] + [lines[i]];
    ShrinkAllAppend(lines[..i], [lines[i]], marker, keep);
  }

  lemma NoMarkerInPrefix(line: string, marker: string, k: nat)
    requires k <= |line| && (CommentIndex(line, marker, 0) == -1 || k <= CommentIndex(line, marker, 0))
    ensures CommentIndex(line[..k], marker, 0) == -1
  {
    CommentIndexFrom(line, marker, 0);
    CommentIndexFrom(line[..k], marker, 0);
    var i := CommentIndex(line[..k], marker, 0);
    if i != -1 {
      MarkerInPrefix(line, marker, k, i);
    }
  }

  lemma ShrunkStays(line: string, marker: string, keep: string -> bool)
    requires Shrink(line, marker, keep).Some?
    ensures var out := Shrink(line, marker, keep).value; Shrink(out, marker, keep) == Some(out)
  {
    var index, out := CommentIndex(line, marker, 0), Shrink(line, marker, keep).value;
    if out != line {
      NoMarkerInPrefix(line, marker, |out|);
      assert out == line[..|out|];
    }
  }

  /** The comment of the line starts at `r` and is not one to be kept. */
  ghost predicate CommentAt(line: string, marker: string, keep: string -> bool, r: int) {
    FirstMarker(line, marker, r) && r != -1 && !keep(line[r..])
  }

  /** The line is left as it is: it has no comment, or one to be kept. */
  ghost predicate Clean(line: string, marker: string, keep: string -> bool) {
    exists r :: FirstMarker(line, marker, r) && (r == -1 || keep(line[r..]))
  }

  ghost predicate AllClean(lines: seq<string>, marker: string, keep: string -> bool) {
    forall k | 0 <= k < |lines| :: Clean(lines[k], marker, keep)
  }

  /** What a line comes out as: itself, or what stands before its comment without the whitespace at the end. */
  ghost predicate ComesOutAs(line: string, marker: string, keep: string -> bool, out: string) {
    || (Clean(line, marker, keep) && out == line)
    || (out != "" && exists r :: CommentAt(line, marker, keep, r) && TrimsEnd(line[..r], out))
  }

  /** Nothing but whitespace stands before the comment of the line. */
  ghost predicate Vanishes(line: string, marker: string, keep: string -> bool) {
    exists r :: CommentAt(line, marker, keep, r) && TrimsEnd(line[..r], "")
  }

  /** Line by line and in order: `out` is what the lines come out as, without those that vanish. */
  ghost predicate ComeOutAs(lines: seq<string>, marker: string, keep: string -> bool, out: seq<string>) {
    if lines == [] then out == []
    else if Vanishes(lines[0], marker, keep) then ComeOutAs(lines[1..], marker, keep, out)
    else out != [] && ComesOutAs(lines[0], marker, keep, out[0]) && ComeOutAs(lines[1..], marker, keep, out[1..])
  }

  lemma FirstMarkerExists(line: string, marker: string) returns (r: int)
    ensures FirstMarker(line, marker, r) && r == CommentIndex(line, marker, 0)
  {
    CommentIndexFrom(line, marker, 0);
    r := CommentIndex(line, marker, 0);
  }

  lemma ShrinkMeaning(line: string, marker: string, keep: string -> bool)
    ensures Shrink(line, marker, keep) == None <==> Vanishes(line, marker, keep)
    ensures Shrink(line, marker, keep).Some? ==>
      ComesOutAs(line, marker, keep, Shrink(line, marker, keep).value)
      && Clean(Shrink(line, marker, keep).value, marker, keep)
  {
    var r := FirstMarkerExists(line, marker);
    forall q | FirstMarker(line, marker, q) ensures q == r {
      OneFirstMarker(line, marker, q);
    }
    if r != -1 {
      StripEndTrims(line[..r]);
    }
    if Shrink(line, marker, keep).Some? {
      var out := Shrink(line, marker, keep).value;
      ShrunkStays(line, marker, keep);
      var again := FirstMarkerExists(out, marker);
    }
  }

  lemma {:induction false} ShrinkAllMeaning(lines: seq<string>, marker: string, keep: string -> bool)
    ensures ComeOutAs(lines, marker, keep, ShrinkAll(lines, marker, keep))
    ensures AllClean(ShrinkAll(lines, marker, keep), marker, keep)
  {
    if lines != [] {
      ShrinkAllMeaning(lines[1..], marker, keep);
      ShrinkMeaning(lines[0], marker, keep);
      var rest := ShrinkAll(lines[1..], marker, keep);
      var left := Shrink(lines[0], marker, keep);
      if left.Some? {
        assert ([left.value] + rest)[1..] == rest;
      }
    }
  }

  /** `_strip_hash_family` with "#", `_strip_sql` with "--"; `keep` tells the comments to preserve. */
  method StripComments(code: string, marker: string, keep: string -> bool) returns (out: string)
    ensures out == Stripped(code, marker, keep)
    ensures exists left :: (
      out == Join(left) && ComeOutAs(SplitLines(code), marker, keep, left) && AllClean(left, marker, keep))
  {
    var lines, outLines := SplitLines(code), [];
    for i := 0 to |lines|
      invariant outLines == ShrinkAll(lines[..i], marker, keep)
    {
      ShrinkSnoc(lines, i, marker, keep);
      var line := lines[i];
      var index := FindCommentIndex(line, marker);
      OneFirstMarker(line, marker, index);
      if index >= 0 && !keep(line[index..]) {
        line := StripEnd(line[..index]);
        if line == "" {
          continue;
        }
      }
      outLines := outLines + [line];
    }
    assert lines[..|lines|] == lines;
    ShrinkAllMeaning(lines, marker, keep);
    return Join(outLines);
  }

  // ------------------------------------------------------------ stripping twice

  /** On lists of lines stripping is idempotent. */
  lemma {:induction false} ShrinkAllTwice(lines: seq<string>, marker: string, keep: string -> bool)
    ensures var out := ShrinkAll(lines, marker, keep); ShrinkAll(out, marker, keep) == out
  {
    if lines != [] {
      ShrinkAllTwice(lines[1..], marker, keep);
      if Shrink(lines[0], marker, keep).Some? {
        ShrunkStays(lines[0], marker, keep);
        var out := ShrinkAll(lines, marker, keep);
        assert out[1..] == ShrinkAll(lines[1..], marker, keep);
      }
    }
  }

  predicate NoneBreak(lines: seq<string>) {
    lines == [] || (NoBreaks(lines[0]) && NoneBreak(lines[1..]))
  }

  lemma {:induction false} PrefixNoBreaks(s: string, k: nat)
    requires NoBreaks(s) && k <= |s|
    ensures NoBreaks(s[..k])
  {
    if k > 0 {
      PrefixNoBreaks(s[1..], k - 1);
      assert s[..k][1..] == s[1..][..k - 1];
    }
  }

  lemma {:induction false} LinesNoBreaks(s: string)
    ensures NoneBreak(SplitLines(s))
    decreases |s|
  {
    if s != "" {
      FirstLineNoBreaks(s);
      LinesNoBreaks(s[LineSize(s)..]);
      var lines := SplitLines(s);
      assert lines[1..] == SplitLines(s[LineSize(s)..]);
    }
  }

  lemma {:induction false} ShrinkNoBreaks(lines: seq<string>, marker: string, keep: string -> bool)
    requires NoneBreak(lines)
    ensures NoneBreak(ShrinkAll(lines, marker, keep))
  {
    if lines != [] {
      ShrinkNoBreaks(lines[1..], marker, keep);
      var rest, line := ShrinkAll(lines[1..], marker, keep), Shrink(lines[0], marker, keep);
      if line.Some? {
        assert line.value == lines[0][..|line.value|];
        PrefixNoBreaks(lines[0], |line.value|);
        assert ([line.value] + rest)[1..] == rest;
      }
    }
  }

  /** Lines without an empty last one. */
  function Trimmed(lines: seq<string>): seq<string>
    requires lines != []
  {
    var n := |lines| - 1;
    if lines[n] == "" then lines[..n] else lines
  }

  lemma TrimmedCons(line: string, rest: seq<string>)
    requires rest != []
    ensures Trimmed([line] + rest) == [line] + Trimmed(rest)
  {
    var n := |rest| - 1;
    assert ([line] + rest)[n + 1] == rest[n];
    assert ([line] + rest)[..n + 1] == [line] + rest[..n];
  }

  /** Joined lines split back, but for an empty last line. */
  lemma {:induction false} JoinSplit(lines: seq<string>)
    requires NoneBreak(lines) && lines != []
    ensures SplitLines(Join(lines)) == Trimmed(lines)
  {
    if |lines| == 1 {
      JoinSplitOne(lines[0]);
      assert lines == [lines[0]];
    } else {
      JoinSplit(lines[1..]);
      SplitStep(lines[0], Join(lines[1..]));
      ChopWhole(lines[0]);
      JoinSplitStep(lines[0], lines[1..]);
      HeadAndTail(lines);
      TrimmedCons(lines[0], lines[1..]);
    }
  }

  lemma JoinSplitOne(line: string)
    requires NoBreaks(line)
    ensures SplitLines(line) == Trimmed([line])
  {
    if line != "" {
      SplitLast(line);
      ChopWhole(line);
    }
  }

  lemma ChopWhole(line: string)
    requires NoBreaks(line)
    ensures Chop(line) == line && Chop(line + "\n") == line
  {
    var long := line + "\n";
    assert long[..|line|] == line && long[|line|] == '\n';
    if line != "" {
      NoBreakAtEnd(line);
      assert long[|line| - 1] == line[|line| - 1];
    }
  }

  lemma JoinSplitStep(line: string, rest: seq<string>)
    requires rest != [] && Chop(line + "\n") == line
    requires SplitKeep(line + "\n" + Join(rest)) == [line + "\n"] + SplitKeep(Join(rest))
    ensures SplitLines(Join([line] + rest)) == [line] + SplitLines(Join(rest))
  {
    assert ([line] + rest)[1..] == rest;
    var kept := [line + "\n"] + SplitKeep(Join(rest));
    assert kept[1..] == SplitKeep(Join(rest));
  }

  lemma {:induction false} JoinEnds(lines: seq<string>)
    requires NoneBreak(lines) && lines != []
    ensures EndsWithNewline(Join(lines)) <==> |lines| > 1 && lines[|lines| - 1] == ""
    ensures Join(lines) == "" ==> |lines| == 1
  {
    if |lines| > 1 {
      JoinEnds(lines[1..]);
      var text, rest := Join(lines), Join(lines[1..]);
      assert text == lines[0] + "\n" + rest;
      if rest == "" {
        assert text[|text| - 1] == '\n';
      }
    } else if lines[0] != "" {
      NoBreakAtEnd(lines[0]);
    }
  }

  lemma {:induction false} ShrinkFront(lines: seq<string>, marker: string, keep: string -> bool, n: nat)
    requires n <= |lines| && ShrinkAll(lines, marker, keep) == lines
    ensures ShrinkAll(lines[..n], marker, keep) == lines[..n]
  {
    ShrinkAllAppend(lines[..n], lines[n..], marker, keep);
    assert lines == lines[..n] + lines[n..];
    ShrinkShorter(lines[..n], marker, keep);
    ShrinkShorter(lines[n..], marker, keep);
    var front := ShrinkAll(lines[..n], marker, keep);
    assert front == (front + ShrinkAll(lines[n..], marker, keep))[..n];
  }

  lemma {:induction false} ShrinkShorter(lines: seq<string>, marker: string, keep: string -> bool)
    ensures |ShrinkAll(lines, marker, keep)| <= |lines|
  {
    if lines != [] {
      ShrinkShorter(lines[1..], marker, keep);
    }
  }

  /** The lines that leave something behind, as they were. */
  function Kept(lines: seq<string>, marker: string, keep: string -> bool): seq<string> {
    if lines == [] then []
    else
      var rest := Kept(lines[1..], marker, keep);
      if Shrink(lines[0], marker, keep).Some? then [lines[0]] + rest else rest
  }

  /** A line leaves an empty one behind exactly when it is empty. */
  lemma EmptyStaysEmpty(line: string, marker: string, keep: string -> bool)
    ensures Shrink(line, marker, keep) == Some("") <==> line == ""
  {
  }

  lemma {:induction false} KeptMatches(lines: seq<string>, marker: string, keep: string -> bool)
    ensures var kept, out := Kept(lines, marker, keep), ShrinkAll(lines, marker, keep);
      |kept| == |out| && (kept != [] ==> (kept[|kept| - 1] == "" <==> out[|out| - 1] == ""))
  {
    if lines != [] {
      var kept, out := Kept(lines[1..], marker, keep), ShrinkAll(lines[1..], marker, keep);
      KeptMatches(lines[1..], marker, keep);
      EmptyStaysEmpty(lines[0], marker, keep);
      var left := Shrink(lines[0], marker, keep);
      if left.Some? {
        assert ShrinkAll(lines, marker, keep) == [left.value] + out;
        assert Kept(lines, marker, keep) == [lines[0]] + kept;
      }
    }
  }

  /** `join` and `splitlines` keep these lines: the last of several is not empty. */
  predicate EndsSolid(lines: seq<string>) {
    |lines| <= 1 || lines[|lines| - 1] != ""
  }

  lemma SolidAlike(lines: seq<string>, marker: string, keep: string -> bool)
    ensures EndsSolid(Kept(lines, marker, keep)) <==> EndsSolid(ShrinkAll(lines, marker, keep))
  {
    KeptMatches(lines, marker, keep);
  }

  lemma SameAgainExactly(out: seq<string>, marker: string, keep: string -> bool)
    requires NoneBreak(out) && ShrinkAll(out, marker, keep) == out
    ensures Stripped(Join(out), marker, keep) == Join(out) <==> EndsSolid(out)
  {
    if out != [] {
      JoinSplit(out);
      ShrinkFront(out, marker, keep, |out| - 1);
      if !EndsSolid(out) {
        JoinShorter(out);
      }
    }
  }

  /**
   As a function on texts, stripping is idempotent exactly where the last line that is kept is
   not empty, or is the only one.
   */
  lemma StrippedTwice(code: string, marker: string, keep: string -> bool)
    ensures var once := Stripped(code, marker, keep);
      Stripped(once, marker, keep) == once <==> EndsSolid(Kept(SplitLines(code), marker, keep))
  {
    var lines := SplitLines(code);
    LinesNoBreaks(code);
    ShrinkNoBreaks(lines, marker, keep);
    ShrinkAllTwice(lines, marker, keep);
    SolidAlike(lines, marker, keep);
    SameAgainExactly(ShrinkAll(lines, marker, keep), marker, keep);
  }

  /** Which can be seen on the stripped text too: it does not end in a newline. */
  lemma StrippedEnds(code: string, marker: string, keep: string -> bool)
    ensures EndsWithNewline(Stripped(code, marker, keep)) <==> !EndsSolid(Kept(SplitLines(code), marker, keep))
  {
    var lines := SplitLines(code);
    var out := ShrinkAll(lines, marker, keep);
    LinesNoBreaks(code);
    ShrinkNoBreaks(lines, marker, keep);
    KeptMatches(lines, marker, keep);
    if out != [] {
      JoinEnds(out);
    }
  }

  lemma StrippedOne(line: string, marker: string, keep: string -> bool)
    requires NoBreaks(line) && line != ""
    ensures Shrink(line, marker, keep).Some? ==> Stripped(line, marker, keep) == Shrink(line, marker, keep).value
  {
    JoinSplitOne(line);
    assert SplitLines(line) == [line] && [line][1..] == [];
    assert ShrinkAll([line][1..], marker, keep) == [];
  }

  lemma FirstMarkerAtTwo(line: string)
    requires line == "a # b"
    ensures FirstMarker(line, "#", 2)
  {
    CodeGoesOn(line, 0, 0);
    CodeGoesOn(line, 0, 1);
    assert !MarkerAt(line, "#", 0) && !MarkerAt(line, "#", 1);
  }

  lemma BlankGoes()
    ensures StripEnd("a ") == "a"
  {
    assert "a "[..1] == "a";
  }

  /** A comment goes with the space before it. */
  lemma CommentGoes(keep: string -> bool)
    requires !keep("# b")
    ensures Stripped("a # b", "#", keep) == "a"
  {
    var line := "a # b";
    StrippedOne(line, "#", keep);
    FirstMarkerAtTwo(line);
    OneFirstMarker(line, "#", 2);
    assert line[..2] == "a " && line[2..] == "# b";
    BlankGoes();
  }

  /** A marker in a literal starts no comment. */
  lemma LiteralStays(keep: string -> bool)
    ensures Stripped("'#'", "#", keep) == "'#'"
  {
    var line := "'#'";
    StrippedOne(line, "#", keep);
    LiteralIsPassed(line, 0, 0, 2);
    assert FirstMarker(line, "#", -1);
    OneFirstMarker(line, "#", -1);
  }

  /** A line and an empty one: each pass takes a newline away. */
  lemma StrippingTakesNewlines(keep: string -> bool)
    ensures Stripped("a\n\n", "#", keep) == "a\n" && Stripped("a\n", "#", keep) == "a"
  {
    TwoLines();
    assert !MarkerAt("a", "#", 0);
    assert ["a", ""][1..] == [""] && ["a"][1..] == [];
    assert ShrinkAll(["a", ""], "#", keep) == ["a", ""] && ShrinkAll(["a"], "#", keep) == ["a"];
  }

  lemma {:induction false} JoinShorter(lines: seq<string>)
    requires |lines| > 1
    ensures |Join(lines[..|lines| - 1])| < |Join(lines)|
  {
    var n := |lines| - 1;
    if n > 1 {
      JoinShorter(lines[1..]);
      assert lines[..n][1..] == lines[1..][..n - 1];
    }
  }
}
