/**
 SEARCH/REPLACE patches (omnicode/pipelines/edit.py): a blob of text is read as blocks, and
 each block rewrites the first place where its search text is found.
 */
module PatchBlocks {
  import opened Sequences
  import opened TextLines

  // ------------------------------------------------------------ the three marker patterns

  datatype Marker = Begin | Divider | End {
    function Glyph(): char {
      match this
      case Begin => '<'
      case Divider => '='
      case End => '>'
    }

    function Word(): string {
      match this
      case Begin => "SEARCH"
      case Divider => ""
      case End => "REPLACE"
    }
  }

  /** The length of the run of `c` at the start of `s`. */
  function Run(c: char, s: string): (n: nat)
    ensures n <= |s|
  {
    if s != "" && s[0] == c then 1 + Run(c, s[1..]) else 0
  }

  /** The length of the whitespace at the start of `s`. */
  function Spaces(s: string): (n: nat)
    ensures n <= |s|
  {
    if s != "" && IsSpace(s[0]) then 1 + Spaces(s[1..]) else 0
  }

  /** The last newline among the first `n` characters. */
  function LastNewline(s: string, n: nat): (r: Option<nat>)
    requires n <= |s|
    ensures r.Some? ==> r.value < n && s[r.value] == '\n'
  {
    if n == 0 then None else if s[n - 1] == '\n' then Some(n - 1) else LastNewline(s, n - 1)
  }

  /** `\s*$` at the start of `s`: as much whitespace as ends the text or stands before a newline. */
  function Tail(s: string): (r: Option<nat>)
    ensures r.Some? ==> r.value <= |s| && (r.value == |s| || s[r.value] == '\n')
  {
    if Spaces(s) == |s| then Some(|s|) else LastNewline(s, Spaces(s))
  }

  /** The outcome of a match: it takes `n` characters. */
  predicate Takes(outcome: Option<nat>, n: int) {
    outcome.Some? && outcome.value == n
  }

  /** A word and the rest of its line, if blank: the size of the match. */
  function WordTail(word: string, s: string): (r: Option<nat>)
    ensures r.Some? ==> r.value <= |s|
  {
    if !(word <= s) then None
    else
      var tail := Tail(s[|word|..]);
      if tail.None? then None else Some(|word| + tail.value)
  }

  /** What follows the glyphs: whitespace and the word, if the marker has one, and a blank rest of the line. */
  function AfterGlyphs(m: Marker, s: string): (r: Option<nat>)
    ensures r.Some? ==> r.value <= |s|
  {
    if m.Divider? then Tail(s)
    else
      var n := Spaces(s);
      var word := WordTail(m.Word(), s[n..]);
      if word.None? then None else Some(n + word.value)
  }

  /** A marker pattern at the start of `s`, which stands at the start of a line: the size of the match. */
  function Match(m: Marker, s: string): (r: Option<nat>)
    ensures r.Some? ==> 3 <= r.value <= |s| && s[0] == m.Glyph()
  {
    var n := Run(m.Glyph(), s);
    var after := AfterGlyphs(m, s[n..]);
    if n < 3 || after.None? then None else Some(n + after.value)
  }

  // ------------------------------------------------------------ what the patterns match

  lemma {:induction false} RunExactly(c: char, s: string)
    ensures var n := Run(c, s); (forall k | 0 <= k < n :: s[k] == c) && (n < |s| ==> s[n] != c)
  {
    if s != "" && s[0] == c {
      RunExactly(c, s[1..]);
      assert forall k | 0 < k < |s| :: s[k] == s[1..][k - 1];
    }
  }

  lemma {:induction false} SpacesExactly(s: string)
    ensures var n := Spaces(s); (forall k | 0 <= k < n :: IsSpace(s[k])) && (n < |s| ==> !IsSpace(s[n]))
  {
    if s != "" && IsSpace(s[0]) {
      SpacesExactly(s[1..]);
      assert forall k | 0 < k < |s| :: s[k] == s[1..][k - 1];
    }
  }

  lemma {:induction false} LastNewlineExactly(s: string, n: nat)
    requires n <= |s|
    ensures forall k | 0 <= k < n && s[k] == '\n' :: LastNewline(s, n).Some? && k <= LastNewline(s, n).value
  {
    if n > 0 && s[n - 1] != '\n' {
      LastNewlineExactly(s, n - 1);
    }
  }

  predicate AllSpace(s: string, n: nat)
    requires n <= |s|
  {
    forall k | 0 <= k < n :: IsSpace(s[k])
  }

  /** The first `v` characters are whitespace, and the text or the line ends there. */
  predicate BlankTo(s: string, v: nat) {
    v <= |s| && AllSpace(s, v) && (v == |s| || s[v] == '\n')
  }

  /** The rest of a line is as much whitespace as there can be. */
  lemma TailExactly(s: string)
    ensures Tail(s).Some? ==> BlankTo(s, Tail(s).value)
    ensures forall v: nat | BlankTo(s, v) :: Tail(s).Some? && v <= Tail(s).value
  {
    SpacesExactly(s);
    LastNewlineExactly(s, Spaces(s));
  }

  /** Blanks, the word and blanks to the end of a line, `v` characters with `i` before the word. */
  predicate WordTo(word: string, s: string, i: nat, v: nat) {
    && i + |word| <= v && i <= |s| && AllSpace(s, i) && word <= s[i..]
    && BlankTo(s[i..][|word|..], v - i - |word|)
  }

  /** A marker line takes `v` characters: `n` glyphs, at least three, and then blanks and the word. */
  ghost predicate IsMarkerLine(m: Marker, s: string, v: nat) {
    exists n: nat, i: nat :: MarkerTo(m, s, n, i, v)
  }

  predicate MarkerTo(m: Marker, s: string, n: nat, i: nat, v: nat) {
    && 3 <= n <= |s| && n <= v && (forall k | 0 <= k < n :: s[k] == m.Glyph())
    && WordTo(m.Word(), s[n..], i, v - n)
  }

  lemma DividerFits(s: string)
    requires Tail(s).Some?
    ensures WordTo("", s, 0, Tail(s).value)
  {
    TailExactly(s);
    assert s[0..] == s;
  }

  lemma WordFits(word: string, s: string)
    requires WordTail(word, s[Spaces(s)..]).Some?
    ensures WordTo(word, s, Spaces(s), Spaces(s) + WordTail(word, s[Spaces(s)..]).value)
  {
    SpacesExactly(s);
    TailExactly(s[Spaces(s)..][|word|..]);
  }

  /** Where the word of a match stands after the glyphs. */
  function WordAt(m: Marker, s: string): nat {
    if m.Divider? then 0 else Spaces(s)
  }

  lemma AfterGlyphsFit(m: Marker, s: string)
    requires AfterGlyphs(m, s).Some?
    ensures WordTo(m.Word(), s, WordAt(m, s), AfterGlyphs(m, s).value)
  {
    if m.Divider? {
      DividerFits(s);
    } else {
      WordFits(m.Word(), s);
    }
  }

  /** Nothing but whitespace before a word is all the whitespace there is. */
  lemma BlanksCounted(word: string, s: string, i: nat)
    requires i <= |s| && AllSpace(s, i) && word != "" && !IsSpace(word[0]) && word <= s[i..]
    ensures i == Spaces(s)
  {
    SpacesExactly(s);
    assert s[i] == word[0];
  }

  lemma FitAfterGlyphs(m: Marker, s: string, i: nat, v: nat)
    requires WordTo(m.Word(), s, i, v)
    ensures AfterGlyphs(m, s).Some? && v <= AfterGlyphs(m, s).value
  {
    TailExactly(s[i..][|m.Word()|..]);
    if m.Divider? {
      BlanksThenTail(s, i, v);
    } else {
      BlanksCounted(m.Word(), s, i);
    }
  }

  lemma BlanksThenTail(s: string, i: nat, v: nat)
    requires WordTo("", s, i, v)
    ensures Tail(s).Some? && v <= Tail(s).value
  {
    var rest := s[i..];
    assert rest[0..] == rest;
    forall k | 0 <= k < v
      ensures IsSpace(s[k])
    {
      assert k >= i ==> s[k] == rest[k - i];
    }
    assert BlankTo(s, v);
    TailExactly(s);
  }

  /** What stands after the glyphs starts at their number. */
  lemma GlyphsCounted(m: Marker, s: string, n: nat, i: nat, v: nat)
    requires MarkerTo(m, s, n, i, v)
    ensures n == Run(m.Glyph(), s)
  {
    var rest, size := s[n..], v - n;
    assert WordTo(m.Word(), rest, i, size);
    if rest != "" {
      NotAGlyph(m, rest, i, size);
    }
    RunIs(m.Glyph(), s, n);
  }

  lemma RunIs(c: char, s: string, n: nat)
    requires n <= |s| && (forall k | 0 <= k < n :: s[k] == c) && (n < |s| ==> s[n] != c)
    ensures n == Run(c, s)
  {
    RunExactly(c, s);
  }

  lemma NotAGlyph(m: Marker, s: string, i: nat, v: nat)
    requires s != "" && WordTo(m.Word(), s, i, v)
    ensures s[0] != m.Glyph()
  {
    if i == 0 && m.Divider? {
      assert s[0..][0..] == s;
    }
  }

  lemma MarkerBuilt(m: Marker, s: string, n: nat, i: nat, size: nat)
    requires 3 <= n <= |s| && (forall k | 0 <= k < n :: s[k] == m.Glyph()) && WordTo(m.Word(), s[n..], i, size)
    ensures MarkerTo(m, s, n, i, n + size)
  {
    assert n + size - n == size;
  }

  lemma MatchFits(m: Marker, s: string)
    requires Match(m, s).Some?
    ensures var n := Run(m.Glyph(), s); MarkerTo(m, s, n, WordAt(m, s[n..]), Match(m, s).value)
  {
    var n := Run(m.Glyph(), s);
    RunExactly(m.Glyph(), s);
    AfterGlyphsFit(m, s[n..]);
    MarkerBuilt(m, s, n, WordAt(m, s[n..]), AfterGlyphs(m, s[n..]).value);
  }

  lemma FitsMatch(m: Marker, s: string, n: nat, i: nat, v: nat)
    requires MarkerTo(m, s, n, i, v)
    ensures Match(m, s).Some? && v <= Match(m, s).value
  {
    var rest, size := s[n..], v - n;
    assert WordTo(m.Word(), rest, i, size);
    FitAfterGlyphs(m, rest, i, size);
    GlyphsCounted(m, s, n, i, v);
  }

  /**
   A pattern matches exactly the documented marker lines: three or more glyphs, the word with any
   whitespace around it, and the end of a line; of the possible ends it takes the last.
   */
  lemma MatchExactly(m: Marker, s: string)
    ensures Match(m, s).Some? ==> IsMarkerLine(m, s, Match(m, s).value)
    ensures forall v: nat | IsMarkerLine(m, s, v) :: Match(m, s).Some? && v <= Match(m, s).value
  {
    if Match(m, s).Some? {
      MatchFits(m, s);
    }
    forall v: nat | IsMarkerLine(m, s, v)
      ensures Match(m, s).Some? && v <= Match(m, s).value
    {
      var n: nat, i: nat :| MarkerTo(m, s, n, i, v);
      FitsMatch(m, s, n, i, v);
    }
  }

  /** A compiled pattern: the size of its match at the start of a text, if it matches there. */
  type Pattern = string -> Option<nat>

  ghost predicate IsPattern(pattern: Pattern) {
    forall s | pattern(s).Some? :: 0 < pattern(s).value <= |s| && s[0] != '\n'
  }

  function PatternOf(m: Marker): (pattern: Pattern)
    ensures IsPattern(pattern)
  {
    s => Match(m, s)
  }

  predicate LineStart(s: string, i: nat)
    requires i <= |s|
  {
    i == 0 || s[i - 1] == '\n'
  }

  predicate MatchesAt(pattern: Pattern, s: string, i: nat)
    requires i <= |s|
  {
    LineStart(s, i) && pattern(s[i..]).Some?
  }

  datatype Span = Span(start: nat, end: nat)

  /** `pattern.search(s, from)`: the first match at or after `from`. */
  function Search(pattern: Pattern, s: string, from: nat): (r: Option<Span>)
    requires IsPattern(pattern) && from <= |s|
    ensures r.Some? ==> from <= r.value.start < r.value.end <= |s|
    decreases |s| - from
  {
    if MatchesAt(pattern, s, from) then Some(Span(from, from + pattern(s[from..]).value))
    else if from == |s| then None
    else Search(pattern, s, from + 1)
  }

  /** A search finds a match. */
  lemma {:induction false} SearchMatches(pattern: Pattern, s: string, from: nat)
    requires IsPattern(pattern) && from <= |s| && Search(pattern, s, from).Some?
    ensures var span := Search(pattern, s, from).value;
      MatchesAt(pattern, s, span.start) && Takes(pattern(s[span.start..]), span.end - span.start)
    decreases |s| - from
  {
    if !MatchesAt(pattern, s, from) {
      SearchMatches(pattern, s, from + 1);
    }
  }

  /** A search goes past no match. */
  lemma {:induction false} SearchIsFirst(pattern: Pattern, s: string, from: nat, k: nat)
    requires IsPattern(pattern) && from <= k <= |s| && MatchesAt(pattern, s, k)
    ensures Search(pattern, s, from).Some? && Search(pattern, s, from).value.start <= k
    decreases |s| - from
  {
    if from < k && !MatchesAt(pattern, s, from) {
      SearchIsFirst(pattern, s, from + 1, k);
    }
  }

  // ------------------------------------------------------------ reading blocks

  datatype Block = Block(search: string, replace: string)

  datatype PatchError = MissingDivider | MissingEnd | EmptySearch | NotFound(firstLines: seq<string>)

  datatype Reading = Finished | Malformed(error: PatchError) | Read(block: Block, next: nat)

  function StripLeft(s: string): (r: string)
    ensures |r| <= |s| && (r == "" || r[0] != '\n')
    ensures r == s[|s| - |r|..]
  {
    if s != "" && s[0] == '\n' then StripLeft(s[1..]) else s
  }

  function StripRight(s: string): (r: string)
    ensures |r| <= |s| && (r == "" || r[|r| - 1] != '\n')
    ensures r == s[..|r|]
  {
    if s != "" && s[|s| - 1] == '\n' then StripRight(s[..|s| - 1]) else s
  }

  /** `s.lstrip("\n").rstrip("\n")` */
  function StripNewlines(s: string): string {
    StripRight(StripLeft(s))
  }

  datatype Patterns = Patterns(begin: Pattern, divider: Pattern, end: Pattern) {
    ghost predicate Valid() {
      IsPattern(begin) && IsPattern(divider) && IsPattern(end)
    }
  }

  /** The three compiled patterns. */
  function Markers(): (ps: Patterns)
    ensures ps.Valid()
  {
    Patterns(PatternOf(Begin), PatternOf(Divider), PatternOf(End))
  }

  /** The rest of a block after its divider, `size` characters after its BEGIN marker. */
  function ReadReplacement(q: Pattern, search: string, afterDivider: string, size: nat): (r: Reading)
    requires IsPattern(q)
    ensures !r.Finished? && (r.Read? ==> r.next <= size + |afterDivider|)
  {
    var end := Search(q, afterDivider, 0);
    if end.None? then Malformed(MissingEnd)
    else Read(Block(search, StripNewlines(afterDivider[..end.value.start])), size + end.value.end)
  }

  /** The two texts of a block after its BEGIN marker; `next` counts from there. */
  function ReadTexts(p: Pattern, q: Pattern, afterBegin: string): (r: Reading)
    requires IsPattern(p) && IsPattern(q)
    ensures !r.Finished? && (r.Read? ==> r.next <= |afterBegin|)
  {
    var divider := Search(p, afterBegin, 0);
    if divider.None? then Malformed(MissingDivider)
    else
      var size := divider.value.end;
      ReadReplacement(q, StripNewlines(afterBegin[..divider.value.start]), afterBegin[size..], size)
  }

  /** A reading counted from `k` characters earlier. */
  function Later(r: Reading, k: nat): Reading {
    if r.Read? then Read(r.block, k + r.next) else r
  }

  /** One round of the loop: the block at the first BEGIN marker from `cursor` on. */
  function ReadBlock(ps: Patterns, blob: string, cursor: nat): (r: Reading)
    requires ps.Valid() && cursor <= |blob|
    ensures r.Read? ==> cursor < r.next <= |blob|
  {
    var begin := Search(ps.begin, blob, cursor);
    if begin.None? then Finished
    else
      Later(ReadTexts(ps.divider, ps.end, blob[begin.value.end..]), begin.value.end)
  }

  /** All the blocks from `cursor` on, and the error that stopped the reading. */
  datatype Parsed = Parsed(blocks: seq<Block>, stop: Option<PatchError>)

  function Parse(ps: Patterns, blob: string, cursor: nat): Parsed
    requires ps.Valid() && cursor <= |blob|
    decreases |blob| - cursor
  {
    match ReadBlock(ps, blob, cursor)
    case Finished => Parsed([], None)
    case Malformed(error) => Parsed([], Some(error))
    case Read(block, next) =>
      var rest := Parse(ps, blob, next);
      Parsed([block] + rest.blocks, rest.stop)
  }

  /** No line from `from` on matches. */
  ghost predicate NoneFrom(pattern: Pattern, s: string, from: nat) {
    forall k: nat | from <= k <= |s| :: !MatchesAt(pattern, s, k)
  }

  lemma SearchExactly(pattern: Pattern, s: string, from: nat)
    requires IsPattern(pattern) && from <= |s|
    ensures Search(pattern, s, from).None? <==> NoneFrom(pattern, s, from)
  {
    if Search(pattern, s, from).Some? {
      SearchMatches(pattern, s, from);
    } else {
      forall k: nat | from <= k <= |s|
        ensures !MatchesAt(pattern, s, k)
      {
        if MatchesAt(pattern, s, k) {
          SearchIsFirst(pattern, s, from, k);
        }
      }
    }
  }

  /**
   Reading stops exactly where no BEGIN marker follows, and fails exactly where the first one is
   followed by no divider, or the divider after it by no END marker.
   */
  lemma ReadingExactly(ps: Patterns, blob: string, cursor: nat)
    requires ps.Valid() && cursor <= |blob|
    ensures var r := ReadBlock(ps, blob, cursor);
      match Search(ps.begin, blob, cursor)
      case None => r == Finished && NoneFrom(ps.begin, blob, cursor)
      case Some(begin) =>
        var afterBegin := blob[begin.end..];
        match Search(ps.divider, afterBegin, 0)
        case None => r == Malformed(MissingDivider) && NoneFrom(ps.divider, afterBegin, 0)
        case Some(divider) =>
          if NoneFrom(ps.end, afterBegin[divider.end..], 0) then r == Malformed(MissingEnd) else r.Read?
  {
    SearchExactly(ps.begin, blob, cursor);
    var begin := Search(ps.begin, blob, cursor);
    if begin.Some? {
      var afterBegin := blob[begin.value.end..];
      SearchExactly(ps.divider, afterBegin, 0);
      var divider := Search(ps.divider, afterBegin, 0);
      if divider.Some? {
        SearchExactly(ps.end, afterBegin[divider.value.end..], 0);
      }
    }
  }

  // ------------------------------------------------------------ the documented format

  function MarkerLine(m: Marker): string {
    match m
    case Begin => "<<<<<<< SEARCH"
    case Divider => "======="
    case End => ">>>>>>> REPLACE"
  }

  function RenderBlock(b: Block): string {
    MarkerLine(Begin) + "\n" + b.search + "\n" + MarkerLine(Divider) + "\n" + b.replace + "\n" + MarkerLine(End) + "\n"
  }

  function Render(blocks: seq<Block>): string {
    if blocks == [] then "" else RenderBlock(blocks[0]) + Render(blocks[1..])
  }

  /** The first line holds something other than whitespace. */
  predicate Solid(text: string) {
    Spaces(text) < |text| && LastNewline(text, Spaces(text)).None?
  }

  /** A text that survives before a marker with this pattern. */
  predicate CleanText(pattern: Pattern, text: string)
    requires IsPattern(pattern)
  {
    text == "" || (Solid(text) && !EndsWithNewline(text) && Search(pattern, text, 0).None?)
  }

  predicate Clean(ps: Patterns, b: Block)
    requires ps.Valid()
  {
    CleanText(ps.divider, b.search) && CleanText(ps.end, b.replace)
  }

  // ------------------------------------------------------------ patterns before a newline

  lemma {:induction false} RunBefore(c: char, u: string, rest: string)
    requires c != '\n'
    ensures Run(c, u + "\n" + rest) == Run(c, u)
  {
    if u == "" {
      assert u + "\n" + rest == "\n" + rest;
    } else if u[0] == c {
      assert (u + "\n" + rest)[1..] == u[1..] + "\n" + rest;
      RunBefore(c, u[1..], rest);
    }
  }

  lemma {:induction false} SpacesBefore(u: string, rest: string)
    requires rest != "" && !IsSpace(rest[0])
    ensures Spaces(u + "\n" + rest) == if Spaces(u) == |u| then |u| + 1 else Spaces(u)
  {
    if u == "" {
      assert u + "\n" + rest == "\n" + rest && ("\n" + rest)[1..] == rest;
    } else if IsSpace(u[0]) {
      assert (u + "\n" + rest)[1..] == u[1..] + "\n" + rest;
      SpacesBefore(u[1..], rest);
    }
  }

  lemma {:induction false} LastNewlineBefore(u: string, rest: string, n: nat)
    requires n <= |u|
    ensures LastNewline(u + rest, n) == LastNewline(u, n)
  {
    if n > 0 {
      LastNewlineBefore(u, rest, n - 1);
    }
  }

  /** Whitespace to the end of a line is the same whether the text ends there or a solid line follows. */
  lemma TailBefore(u: string, rest: string)
    requires rest != "" && !IsSpace(rest[0])
    ensures Tail(u + "\n" + rest).Some? == Tail(u).Some?
  {
    SpacesBefore(u, rest);
    LastNewlineBefore(u, "\n" + rest, Spaces(u));
    assert u + "\n" + rest == u + ("\n" + rest);
  }

  lemma PrefixBefore(word: string, u: string, rest: string)
    requires '\n' !in word
    ensures word <= u + "\n" + rest <==> word <= u
  {
    var long := u + "\n" + rest;
    if |word| <= |u| {
      assert long[..|word|] == u[..|word|];
    } else {
      assert long[|u|] == '\n' && word[|u|] != '\n';
    }
  }

  lemma WordTailBefore(word: string, u: string, rest: string)
    requires '\n' !in word && rest != "" && !IsSpace(rest[0])
    ensures WordTail(word, u + "\n" + rest).Some? == WordTail(word, u).Some?
  {
    PrefixBefore(word, u, rest);
    if word <= u {
      assert (u + "\n" + rest)[|word|..] == u[|word|..] + "\n" + rest;
      TailBefore(u[|word|..], rest);
    }
  }

  lemma AfterGlyphsBefore(m: Marker, u: string, rest: string)
    requires rest != "" && rest[0] == m.Glyph()
    ensures AfterGlyphs(m, u + "\n" + rest).Some? == AfterGlyphs(m, u).Some?
  {
    var long, n := u + "\n" + rest, Spaces(u);
    if m.Divider? {
      TailBefore(u, rest);
    } else {
      SpacesBefore(u, rest);
      if n == |u| {
        assert long[n + 1..] == rest && u[n..] == "";
        assert m.Word()[0] != rest[0];
      } else {
        assert long[n..] == u[n..] + "\n" + rest;
        WordTailBefore(m.Word(), u[n..], rest);
      }
    }
  }

  /** A marker in a text is one whether the text ends there or the next marker line follows. */
  lemma MatchBefore(m: Marker, u: string, rest: string)
    requires rest != "" && rest[0] == m.Glyph()
    ensures Match(m, u + "\n" + rest).Some? == Match(m, u).Some?
  {
    var n := Run(m.Glyph(), u);
    RunBefore(m.Glyph(), u, rest);
    assert (u + "\n" + rest)[n..] == u[n..] + "\n" + rest;
    AfterGlyphsBefore(m, u[n..], rest);
  }

  // ------------------------------------------------------------ one text between two markers

  /** What stands between a marker's word and the next marker, and the text from that marker on. */
  function Region(text: string, next: string): string {
    "\n" + text + "\n" + next
  }

  lemma {:induction false} LastNewlineInside(text: string, n: nat)
    requires n <= |text|
    ensures LastNewline("\n" + text, n + 1) ==
      match LastNewline(text, n) { case None => Some(0) case Some(i) => Some(i + 1) }
  {
    if n > 0 {
      assert ("\n" + text)[n] == text[n - 1];
      LastNewlineInside(text, n - 1);
    } else {
      assert LastNewline("\n" + text, 1) == Some(0);
    }
  }

  /** A marker swallows the blank lines that follow it, up to the last newline among them. */
  lemma RegionTail(text: string, next: string)
    requires next != "" && !IsSpace(next[0])
    ensures var tail := Tail(Region(text, next));
      tail.Some? && tail.value <= |text| + 1 && (tail.value == 0 <==> Solid(text))
  {
    var open := "\n" + text;
    assert open[1..] == text && Spaces(open) == 1 + Spaces(text);
    SpacesBefore(open, next);
    if Spaces(text) == |text| {
      assert Region(text, next)[|text| + 1] == '\n';
    } else {
      LastNewlineBefore(open, "\n" + next, 1 + Spaces(text));
      assert Region(text, next) == open + ("\n" + next);
      LastNewlineInside(text, Spaces(text));
    }
  }

  /** A pattern that sees the same in a text whether the text ends or the marker line `next` follows. */
  ghost predicate LineBound(pattern: Pattern, text: string, next: string) {
    && IsPattern(pattern) && pattern(next).Some?
    && forall i | 0 <= i < |text| :: pattern(text[i..] + "\n" + next).Some? == pattern(text[i..]).Some?
  }

  lemma MarkersAreLineBound(m: Marker, text: string, next: string)
    requires Match(m, next).Some?
    ensures LineBound(PatternOf(m), text, next)
  {
    forall i | 0 <= i < |text|
      ensures Match(m, text[i..] + "\n" + next).Some? == Match(m, text[i..]).Some?
    {
      MatchBefore(m, text[i..], next);
    }
  }

  lemma SameMatch(pattern: Pattern, text: string, next: string, i: nat)
    requires LineBound(pattern, text, next) && i < |text|
    ensures MatchesAt(pattern, Region(text, next), i + 1) == MatchesAt(pattern, text, i)
  {
    assert Region(text, next)[i + 1..] == text[i..] + "\n" + next;
    assert Region(text, next)[i] == if i == 0 then '\n' else text[i - 1];
  }

  /** The search stops at the next marker at the latest, and after at least one character. */
  lemma StopsByNext(pattern: Pattern, text: string, next: string, d: nat)
    requires IsPattern(pattern) && pattern(next).Some?
    requires d <= |text| + 1 && Region(text, next)[d] == '\n'
    ensures var span := Search(pattern, Region(text, next)[d..], 0);
      span.Some? && 1 <= span.value.start <= |text| + 2 - d
  {
    var slice := Region(text, next)[d..];
    var k := |text| + 2 - d;
    assert slice[k..] == next && slice[k - 1] == '\n';
    SearchIsFirst(pattern, slice, 0, k);
    SearchMatches(pattern, slice, 0);
    assert slice[0..] == slice;
  }

  lemma MatchInside(pattern: Pattern, text: string, next: string, p: nat)
    requires LineBound(pattern, text, next) && 1 <= p < |text| + 2 && MatchesAt(pattern, Region(text, next), p)
    ensures p <= |text| && MatchesAt(pattern, text, p - 1)
  {
    assert Region(text, next)[|text| + 1..][0] == '\n';
    if p <= |text| {
      SameMatch(pattern, text, next, p - 1);
    }
  }

  lemma StopsEarlier(pattern: Pattern, text: string, next: string)
    requires LineBound(pattern, text, next) && Search(pattern, text, 0).Some?
    ensures var span := Search(pattern, Region(text, next), 0); span.Some? && span.value.start < |text| + 2
  {
    var i := Search(pattern, text, 0).value.start;
    SearchMatches(pattern, text, 0);
    SameMatch(pattern, text, next, i);
    SearchIsFirst(pattern, Region(text, next), 0, i + 1);
  }

  lemma StopsInside(pattern: Pattern, text: string, next: string, p: nat)
    requires LineBound(pattern, text, next) && Search(pattern, Region(text, next), 0).Some?
    requires p == Search(pattern, Region(text, next), 0).value.start && 1 <= p < |text| + 2
    ensures Search(pattern, text, 0).Some?
  {
    SearchMatches(pattern, Region(text, next), 0);
    MatchInside(pattern, text, next, p);
    SearchIsFirst(pattern, text, 0, p - 1);
  }

  /** The search goes all the way to the next marker exactly when the text has no such marker. */
  lemma ReachesNext(pattern: Pattern, text: string, next: string, span: Span)
    requires LineBound(pattern, text, next) && Search(pattern, Region(text, next), 0) == Some(span)
    requires 1 <= span.start <= |text| + 2
    ensures span.start == |text| + 2 <==> Search(pattern, text, 0).None?
  {
    if Search(pattern, text, 0).Some? {
      StopsEarlier(pattern, text, next);
    } else if span.start < |text| + 2 {
      StopsInside(pattern, text, next, span.start);
    }
  }

  lemma StripBounds(x: string)
    requires x != "" && x[0] == '\n'
    ensures |StripNewlines(x)| < |x|
    ensures |x| >= 2 && EndsWithNewline(x) ==> |StripNewlines(x)| <= |x| - 2
  {
    var left := StripLeft(x);
    assert left == StripLeft(x[1..]);
    if left != "" {
      assert left[|left| - 1] == x[|x| - 1];
    }
  }

  predicate NewlineAtEdge(text: string) {
    text != "" && (text[0] == '\n' || EndsWithNewline(text))
  }

  lemma StripEdges(x: string)
    ensures !NewlineAtEdge(StripNewlines(x))
  {
  }

  lemma StripSolid(text: string)
    requires text != "" && text[0] != '\n' && !EndsWithNewline(text)
    ensures StripNewlines("\n" + text + "\n") == text
  {
    var wide := "\n" + text + "\n";
    var right := text + "\n";
    assert wide[0] == '\n' && wide[1..] == right;
    assert StripLeft(wide) == StripLeft(right) == right;
    assert right[|right| - 1] == '\n' && right[..|right| - 1] == text;
    assert StripRight(right) == StripRight(text) == text;
  }

  lemma SolidStart(text: string)
    requires Solid(text)
    ensures text != "" && text[0] != '\n'
  {
    if text[0] == '\n' {
      LastNewlineFound(text, Spaces(text), 0);
    }
  }

  lemma {:induction false} LastNewlineFound(s: string, n: nat, i: nat)
    requires i < n <= |s| && s[i] == '\n'
    ensures LastNewline(s, n).Some?
  {
    if i < n - 1 && s[n - 1] != '\n' {
      LastNewlineFound(s, n - 1, i);
    }
  }

  lemma EmptyRegion(x: string)
    requires |x| <= 1 && x != "" && x[0] == '\n'
    ensures StripNewlines(x) == ""
  {
    StripBounds(x);
  }

  /** With the cuts at `d` and `d + p`, the text comes back exactly when they are at its two ends. */
  lemma CutsBack(text: string, next: string, d: nat, p: nat)
    requires text != "" && d <= |text| + 1 && 1 <= p <= |text| + 2 - d
    requires var x := Region(text, next)[d..][..p]; x[0] == '\n' && EndsWithNewline(x)
    ensures StripNewlines(Region(text, next)[d..][..p]) == text
      <==> d == 0 && p == |text| + 2 && !NewlineAtEdge(text)
  {
    var x := Region(text, next)[d..][..p];
    StripBounds(x);
    StripEdges(x);
    if d == 0 && p == |text| + 2 && !NewlineAtEdge(text) {
      assert x == "\n" + text + "\n";
      StripSolid(text);
    }
  }

  /**
   What is found when the reading starts `d` characters into a region: the text, exactly when it
   is clean, and the marker after it.
   */
  ghost predicate ReadsBack(pattern: Pattern, text: string, next: string, d: nat)
    requires IsPattern(pattern)
  {
    && d <= |Region(text, next)|
    && var slice := Region(text, next)[d..];
    && var span := Search(pattern, slice, 0);
    && span.Some?
    && (StripNewlines(slice[..span.value.start]) == text <==> CleanText(pattern, text))
    && (CleanText(pattern, text) ==> Takes(pattern(next), d + span.value.end - (|text| + 2)))
  }

  /** A cut after the leading newline leaves a text that is empty or not solid. */
  lemma CutText(pattern: Pattern, text: string, next: string, d: nat, span: Span)
    requires LineBound(pattern, text, next) && d <= |text| + 1 && (d == 0 <==> Solid(text))
    requires 1 <= span.start <= |text| + 2 - d && Search(pattern, Region(text, next)[d..], 0) == Some(span)
    requires var x := Region(text, next)[d..][..span.start]; x[0] == '\n' && EndsWithNewline(x)
    ensures StripNewlines(Region(text, next)[d..][..span.start]) == text <==> CleanText(pattern, text)
    ensures CleanText(pattern, text) ==> d + span.start == |text| + 2
  {
    if text == "" {
      EmptyRegion(Region(text, next)[d..][..span.start]);
    } else {
      CutsBack(text, next, d, span.start);
      if d == 0 {
        SolidStart(text);
        assert Region(text, next)[0..] == Region(text, next);
        ReachesNext(pattern, text, next, span);
      }
    }
  }

  lemma MarkerSize(pattern: Pattern, text: string, next: string, d: nat, span: Span)
    requires IsPattern(pattern) && d + span.start == |text| + 2
    requires Search(pattern, Region(text, next)[d..], 0) == Some(span)
    ensures Takes(pattern(next), d + span.end - (|text| + 2))
  {
    SearchMatches(pattern, Region(text, next)[d..], 0);
    assert Region(text, next)[d..][span.start..] == next;
  }

  /** A text is read back exactly when it is clean, and then the reading stops at the next marker. */
  lemma TextBack(pattern: Pattern, text: string, next: string)
    requires LineBound(pattern, text, next) && !IsSpace(next[0])
    ensures Tail(Region(text, next)).Some? && ReadsBack(pattern, text, next, Tail(Region(text, next)).value)
  {
    var region := Region(text, next);
    RegionTail(text, next);
    var d := Tail(region).value;
    StopsByNext(pattern, text, next, d);
    var span := Search(pattern, region[d..], 0).value;
    SearchMatches(pattern, region[d..], 0);
    assert region[d..][..span.start][span.start - 1] == '\n';
    CutText(pattern, text, next, d, span);
    if d + span.start == |text| + 2 {
      MarkerSize(pattern, text, next, d, span);
    }
  }

  // ------------------------------------------------------------ a rendered block is read back

  function Repeat(c: char, n: nat): (s: string)
    ensures |s| == n
  {
    if n == 0 then "" else [c] + Repeat(c, n - 1)
  }

  lemma {:induction false} RunOfRepeat(c: char, n: nat, rest: string)
    requires rest == "" || rest[0] != c
    ensures Run(c, Repeat(c, n) + rest) == n && (Repeat(c, n) + rest)[n..] == rest
  {
    if n == 0 {
      assert "" + rest == rest;
    } else {
      assert (Repeat(c, n) + rest)[1..] == Repeat(c, n - 1) + rest;
      RunOfRepeat(c, n - 1, rest);
    }
  }

  lemma MarkerLineParts(m: Marker)
    ensures MarkerLine(m) == Repeat(m.Glyph(), 7) + if m.Divider? then "" else " " + m.Word()
  {
    SevenTimes(m.Glyph());
  }

  lemma SevenTimes(c: char)
    ensures Repeat(c, 7) == [c, c, c, c, c, c, c]
  {
    assert Repeat(c, 1) == [c];
    assert Repeat(c, 2) == [c] + Repeat(c, 1);
    assert Repeat(c, 3) == [c] + Repeat(c, 2);
    assert Repeat(c, 4) == [c] + Repeat(c, 3);
    assert Repeat(c, 5) == [c] + Repeat(c, 4);
    assert Repeat(c, 6) == [c] + Repeat(c, 5);
    assert Repeat(c, 7) == [c] + Repeat(c, 6);
  }

  lemma WordMatches(word: string, rest: string)
    requires word != "" && !IsSpace(word[0]) && Tail(rest).Some?
    ensures var s := " " + word + rest; Spaces(s) == 1 && WordTail(word, s[1..]) == Some(|word| + Tail(rest).value)
  {
    var s := " " + word + rest;
    assert s[1..] == word + rest && (word + rest)[|word|..] == rest;
  }

  /** A marker line matches its pattern, together with the blank lines after it. */
  lemma MarkerMatches(m: Marker, rest: string)
    requires rest != "" && rest[0] == '\n' && Tail(rest).Some?
    ensures var s := MarkerLine(m) + rest; Takes(Match(m, s), |MarkerLine(m)| + Tail(rest).value)
  {
    MarkerLineParts(m);
    var after := if m.Divider? then rest else " " + m.Word() + rest;
    assert MarkerLine(m) + rest == Repeat(m.Glyph(), 7) + after;
    RunOfRepeat(m.Glyph(), 7, after);
    if !m.Divider? {
      WordMatches(m.Word(), rest);
    }
  }

  /** The text of a rendered block after its BEGIN marker's word, with `after` following the block. */
  function AfterReplace(after: string): string {
    MarkerLine(End) + ("\n" + after)
  }

  function AfterSearch(b: Block, after: string): string {
    MarkerLine(Divider) + Region(b.replace, AfterReplace(after))
  }

  function AfterBegin(b: Block, after: string): string {
    Region(b.search, AfterSearch(b, after))
  }

  /** What follows a block: the end of the blob or something that is not whitespace. */
  predicate Follows(after: string) {
    after == "" || !IsSpace(after[0])
  }

  lemma LineEnd(after: string)
    requires Follows(after)
    ensures Tail("\n" + after) == Some(if after == "" then 1 else 0)
  {
    var s := "\n" + after;
    assert s[1..] == after && Spaces(after) == 0;
    assert Spaces(s) == 1 && LastNewline(s, 1) == Some(0);
  }

  lemma EndMatches(after: string)
    requires Follows(after)
    ensures Takes(Match(End, AfterReplace(after)), |MarkerLine(End)| + if after == "" then 1 else 0)
  {
    LineEnd(after);
    MarkerMatches(End, "\n" + after);
  }

  lemma DividerMatches(b: Block, after: string)
    requires Follows(after)
    ensures var region := Region(b.replace, AfterReplace(after));
      Tail(region).Some? && Takes(Match(Divider, AfterSearch(b, after)), |MarkerLine(Divider)| + Tail(region).value)
  {
    EndMatches(after);
    RegionTail(b.replace, AfterReplace(after));
    MarkerMatches(Divider, Region(b.replace, AfterReplace(after)));
  }

  lemma BeginMatches(b: Block, after: string)
    requires Follows(after)
    ensures var region := AfterBegin(b, after);
      Tail(region).Some? && Takes(Match(Begin, MarkerLine(Begin) + region), |MarkerLine(Begin)| + Tail(region).value)
  {
    DividerMatches(b, after);
    RegionTail(b.search, AfterSearch(b, after));
    MarkerMatches(Begin, AfterBegin(b, after));
  }

  lemma DropBoth(text: string, line: string, rest: string, d: nat, e: nat)
    requires d <= |text| + 2 + |line| + e && e <= |rest|
    ensures Region(text, line + rest)[d..][|text| + 2 + |line| + e - d..] == rest[e..]
  {
    var s, k := Region(text, line + rest), |text| + 2;
    assert s[k..] == line + rest && (line + rest)[|line|..] == rest;
    DropTwice(s, k, |line| + e);
    DropTwice(line + rest, |line|, e);
    DropTwice(s, d, k + |line| + e - d);
  }

  /** A block is read back exactly when it is clean, and then the reading ends at `end`. */
  ghost predicate BlockRead(r: Reading, b: Block, clean: bool, end: int) {
    && (r.Read? && r.block == b <==> clean)
    && (r.Read? && r.block == b ==> r.next == end)
  }

  lemma LaterRead(r: Reading, k: nat, b: Block, clean: bool, end: int)
    requires BlockRead(r, b, clean, end)
    ensures BlockRead(Later(r, k), b, clean, k + end)
  {
  }

  ghost predicate BothBack(p: Pattern, q: Pattern, slice: string, b: Block, end: int)
    requires IsPattern(p) && IsPattern(q)
  {
    BlockRead(ReadTexts(p, q, slice), b, CleanText(p, b.search) && CleanText(q, b.replace), end)
  }

  lemma SecondTextBack(q: Pattern, b: Block, next: string, d: nat, size: nat, e: nat)
    requires IsPattern(q) && ReadsBack(q, b.replace, next, d) && Takes(q(next), e)
    ensures var r := ReadReplacement(q, b.search, Region(b.replace, next)[d..], size);
      r.Read? && (r.block == b <==> CleanText(q, b.replace)) &&
      (r.block == b ==> r.next == size + |b.replace| + 2 + e - d)
  {
  }

  lemma TwoTextsBack(p: Pattern, q: Pattern, b: Block, line: string, next: string, d: nat, d': nat, e: nat)
    requires IsPattern(p) && IsPattern(q)
    requires ReadsBack(p, b.search, line + Region(b.replace, next), d) && ReadsBack(q, b.replace, next, d')
    requires Takes(p(line + Region(b.replace, next)), |line| + d') && Takes(q(next), e)
    ensures BothBack(p, q, Region(b.search, line + Region(b.replace, next))[d..], b,
                     |b.search| + 2 + |line| + |b.replace| + 2 + e - d)
  {
    var rest := Region(b.replace, next);
    var slice := Region(b.search, line + rest)[d..];
    var span := Search(p, slice, 0).value;
    if CleanText(p, b.search) {
      assert span.end == |b.search| + 2 + |line| + d' - d;
      DropBoth(b.search, line, rest, d, d');
      assert slice[span.end..] == rest[d'..];
      SecondTextBack(q, b, next, d', span.end, e);
    }
  }

  /** Where the reading of a block ends, counted from its BEGIN marker's word. */
  function BlockEnd(b: Block, after: string): nat {
    |b.search| + 2 + |MarkerLine(Divider)| + |b.replace| + 2 + (|MarkerLine(End)| + if after == "" then 1 else 0)
  }

  lemma NotSpace(m: Marker)
    ensures !IsSpace(m.Glyph())
  {
  }

  lemma MarkedTextBack(m: Marker, text: string, next: string)
    requires Match(m, next).Some?
    ensures Tail(Region(text, next)).Some? && ReadsBack(PatternOf(m), text, next, Tail(Region(text, next)).value)
  {
    MarkersAreLineBound(m, text, next);
    assert next[0] == m.Glyph();
    NotSpace(m);
    var pattern := PatternOf(m);
    assert LineBound(pattern, text, next);
    TextBack(pattern, text, next);
  }

  lemma FoundAs(m: Marker, s: string)
    ensures PatternOf(m)(s) == Match(m, s)
  {
  }

  lemma BlockBack(b: Block, after: string)
    requires Follows(after)
    ensures Tail(AfterBegin(b, after)).Some?
    ensures var d := Tail(AfterBegin(b, after)).value;
      BothBack(PatternOf(Divider), PatternOf(End), AfterBegin(b, after)[d..], b, BlockEnd(b, after) - d)
  {
    EndMatches(after);
    DividerMatches(b, after);
    var p, q, line := PatternOf(Divider), PatternOf(End), MarkerLine(Divider);
    var next := AfterReplace(after);
    MarkedTextBack(Divider, b.search, line + Region(b.replace, next));
    MarkedTextBack(End, b.replace, next);
    FoundAs(Divider, line + Region(b.replace, next));
    FoundAs(End, next);
    TwoTextsBack(p, q, b, line, next, Tail(AfterBegin(b, after)).value, Tail(Region(b.replace, next)).value,
                 |MarkerLine(End)| + if after == "" then 1 else 0);
  }

  /** The patterns take rendered blocks apart: the facts about them that the reading depends on. */
  ghost predicate TakesApart(ps: Patterns) {
    && ps.Valid()
    && forall b, after | Follows(after) :: BlockTaken(ps, b, after)
  }

  ghost predicate BlockTaken(ps: Patterns, b: Block, after: string)
    requires ps.Valid()
  {
    var region, line := AfterBegin(b, after), MarkerLine(Begin);
    && Tail(region).Some?
    && BothBack(ps.divider, ps.end, region[Tail(region).value..], b, BlockEnd(b, after) - Tail(region).value)
    && Takes(ps.begin(line + region), |line| + Tail(region).value)
  }

  lemma MarkersTakeApart()
    ensures TakesApart(Markers())
  {
    forall b, after | Follows(after)
      ensures BlockTaken(Markers(), b, after)
    {
      MarkersTakeBlock(b, after);
    }
  }

  lemma MarkersTakeBlock(b: Block, after: string)
    requires Follows(after)
    ensures BlockTaken(Markers(), b, after)
  {
    BeginMatches(b, after);
    BlockBack(b, after);
    FoundAs(Begin, MarkerLine(Begin) + AfterBegin(b, after));
  }

  // ------------------------------------------------------------ a rendered list of blocks is read back

  /** A cursor stands at the start of the blob or before the newline that ended the previous block. */
  predicate Gap(prior: string, gap: string) {
    gap == "\n" || (gap == "" && prior == "")
  }

  lemma NextFound(pattern: Pattern, prior: string, gap: string, x: string)
    requires IsPattern(pattern) && pattern(x).Some? && Gap(prior, gap)
    ensures var r := Search(pattern, prior + gap + x, |prior|);
      r.Some? && r.value.end == |prior| + |gap| + pattern(x).value
  {
    var s, k := prior + gap + x, |prior| + |gap|;
    assert s[k..] == x;
    SearchIsFirst(pattern, s, |prior|, k);
    SearchMatches(pattern, s, |prior|);
    assert gap == "\n" ==> s[|prior|..][0] == '\n';
  }

  lemma NothingFound(pattern: Pattern, prior: string, gap: string)
    requires IsPattern(pattern) && gap in {"", "\n"}
    ensures Search(pattern, prior + gap, |prior|).None?
  {
    var s := prior + gap;
    assert s[|prior|..] == gap && s[|s|..] == "";
    if Search(pattern, s, |prior|).Some? {
      SearchMatches(pattern, s, |prior|);
    }
  }

  lemma BlockAtBegin(ps: Patterns, blob: string, cursor: nat, b: Block, k: nat, end: int)
    requires ps.Valid() && cursor <= |blob|
    requires Search(ps.begin, blob, cursor).Some? && Search(ps.begin, blob, cursor).value.end == k
    requires BothBack(ps.divider, ps.end, blob[k..], b, end)
    ensures BlockRead(ReadBlock(ps, blob, cursor), b, Clean(ps, b), k + end)
  {
    var texts := ReadTexts(ps.divider, ps.end, blob[k..]);
    assert ReadBlock(ps, blob, cursor) == Later(texts, k);
    LaterRead(texts, k, b, Clean(ps, b), end);
  }

  lemma DropMore(front: string, line: string, region: string, d: nat)
    requires d <= |region|
    ensures (front + (line + region))[|front| + |line| + d..] == region[d..]
  {
    ConcatAssociates(front, line, region);
    assert (front + line + region)[|front| + |line|..] == region;
    DropTwice(front + line + region, |front| + |line|, d);
  }

  lemma BlockAtGap(ps: Patterns, prior: string, gap: string, line: string, region: string, d: nat, b: Block, end: int)
    requires ps.Valid() && Gap(prior, gap) && d <= |region|
    requires BothBack(ps.divider, ps.end, region[d..], b, end) && Takes(ps.begin(line + region), |line| + d)
    ensures BlockRead(ReadBlock(ps, prior + gap + (line + region), |prior|), b, Clean(ps, b),
                      |prior| + |gap| + |line| + d + end)
  {
    var blob, k := prior + gap + (line + region), |prior| + |gap| + |line| + d;
    NextFound(ps.begin, prior, gap, line + region);
    DropMore(prior + gap, line, region, d);
    assert blob[k..] == region[d..];
    BlockAtBegin(ps, blob, |prior|, b, k, end);
  }

  lemma ReadBlockBack(ps: Patterns, prior: string, gap: string, b: Block, after: string)
    requires TakesApart(ps) && Gap(prior, gap) && Follows(after)
    ensures var line := MarkerLine(Begin);
      BlockRead(ReadBlock(ps, prior + gap + (line + AfterBegin(b, after)), |prior|), b, Clean(ps, b),
                |prior| + |gap| + |line| + BlockEnd(b, after))
  {
    assert BlockTaken(ps, b, after);
    var d := Tail(AfterBegin(b, after)).value;
    BlockAtGap(ps, prior, gap, MarkerLine(Begin), AfterBegin(b, after), d, b, BlockEnd(b, after) - d);
  }

  lemma RenderedParts(b: Block, after: string)
    ensures RenderBlock(b) + after == MarkerLine(Begin) + AfterBegin(b, after)
    ensures |RenderBlock(b) + after| == |MarkerLine(Begin)| + BlockEnd(b, after) + |GapBefore(after)| + |after|
  {
    calc {
      RenderBlock(b) + after;
      MarkerLine(Begin) +
        ("\n" + b.search + "\n" +
          (MarkerLine(Divider) + ("\n" + b.replace + "\n" + (MarkerLine(End) + ("\n" + after)))));
      MarkerLine(Begin) + AfterBegin(b, after);
    }
  }

  /** The gap the reading of a block leaves before what follows it. */
  function GapBefore(after: string): string {
    if after == "" then "" else "\n"
  }

  /** The blob with a block at the cursor, and the part of it read with that block. */
  function WithBlock(prior: string, gap: string, b: Block, after: string): string {
    prior + gap + (RenderBlock(b) + after)
  }

  function Consumed(prior: string, gap: string, b: Block, after: string): (front: string)
    ensures WithBlock(prior, gap, b, after) == front + GapBefore(after) + after
  {
    var body := MarkerLine(Begin) + "\n" + b.search + "\n" + MarkerLine(Divider) + "\n" + b.replace + "\n" +
      MarkerLine(End);
    assert RenderBlock(b) == body + "\n";
    assert prior + gap + (body + "\n" + after) == prior + gap + body + "\n" + after;
    if after == "" then prior + gap + body + "\n" else prior + gap + body
  }

  lemma ReadRendered(ps: Patterns, prior: string, gap: string, b: Block, after: string)
    requires TakesApart(ps) && Gap(prior, gap) && Follows(after)
    ensures BlockRead(
        ReadBlock(ps, WithBlock(prior, gap, b, after), |prior|), b, Clean(ps, b), |Consumed(prior, gap, b, after)|)
  {
    ReadBlockBack(ps, prior, gap, b, after);
    RenderedParts(b, after);
  }

  lemma RenderFollows(blocks: seq<Block>)
    ensures Follows(Render(blocks)) && (Render(blocks) == "" <==> blocks == [])
  {
    if blocks != [] {
      assert Render(blocks)[0] == '<';
    }
  }

  predicate AllClean(ps: Patterns, blocks: seq<Block>)
    requires ps.Valid()
  {
    blocks == [] || (Clean(ps, blocks[0]) && AllClean(ps, blocks[1..]))
  }

  lemma ParseStep(ps: Patterns, blob: string, cursor: nat, b: Block, clean: bool, end: nat, others: seq<Block>)
    requires ps.Valid() && cursor <= |blob| && end <= |blob| && BlockRead(ReadBlock(ps, blob, cursor), b, clean, end)
    ensures Parse(ps, blob, cursor) == Parsed([b] + others, None) <==>
      clean && Parse(ps, blob, end) == Parsed(others, None)
  {
    var blocks := Parse(ps, blob, cursor).blocks;
    if blocks != [] && blocks == [b] + others {
      assert blocks[0] == b && blocks[1..] == others;
    }
  }

  lemma {:induction false} ParseBack(ps: Patterns, prior: string, gap: string, blocks: seq<Block>)
    requires TakesApart(ps) && (Gap(prior, gap) || (gap == "" && blocks == []))
    ensures Parse(ps, prior + gap + Render(blocks), |prior|) == Parsed(blocks, None) <==> AllClean(ps, blocks)
    decreases |blocks|
  {
    if blocks == [] {
      assert prior + gap + Render(blocks) == prior + gap;
      NothingFound(ps.begin, prior, gap);
    } else {
      var b, others := blocks[0], blocks[1..];
      HeadAndTail(blocks);
      FirstBlockBack(ps, prior, gap, b, others);
      ParseBack(ps, Consumed(prior, gap, b, Render(others)), GapBefore(Render(others)), others);
    }
  }

  lemma FirstBlockBack(ps: Patterns, prior: string, gap: string, b: Block, others: seq<Block>)
    requires TakesApart(ps) && Gap(prior, gap)
    ensures var rest := Render(others);
      var blob, front := WithBlock(prior, gap, b, rest), Consumed(prior, gap, b, rest);
      (Gap(front, GapBefore(rest)) || (GapBefore(rest) == "" && others == [])) &&
      (Parse(ps, blob, |prior|) == Parsed([b] + others, None) <==>
         Clean(ps, b) && Parse(ps, blob, |front|) == Parsed(others, None))
  {
    var rest := Render(others);
    RenderFollows(others);
    ReadRendered(ps, prior, gap, b, rest);
    ParseStep(ps, WithBlock(prior, gap, b, rest), |prior|, b, Clean(ps, b), |Consumed(prior, gap, b, rest)|, others);
  }

  /** Writing blocks in the documented format and reading them gives them back exactly when each one is clean. */
  lemma ParseRendered(blocks: seq<Block>)
    ensures Parse(Markers(), Render(blocks), 0) == Parsed(blocks, None) <==> AllClean(Markers(), blocks)
  {
    MarkersTakeApart();
    ParseBack(Markers(), "", "", blocks);
    assert "" + "" + Render(blocks) == Render(blocks);
  }

  lemma FinalNewlineNotClean(ps: Patterns, b: Block)
    requires ps.Valid() && EndsWithNewline(b.search)
    ensures !AllClean(ps, [b])
  {
  }

  /** A block whose search text ends in a newline does not survive: the newline is stripped. */
  lemma FinalNewlineLost(b: Block)
    requires EndsWithNewline(b.search)
    ensures Parse(Markers(), Render([b]), 0) != Parsed([b], None)
  {
    FinalNewlineNotClean(Markers(), b);
    ParseRendered([b]);
  }
}
