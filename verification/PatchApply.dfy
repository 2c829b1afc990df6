/** Applying SEARCH/REPLACE blocks to a text (omnicode/pipelines/edit.py). */
module PatchApply {
  import opened Sequences
  import opened TextLines
  import opened PatchBlocks

  // ------------------------------------------------------------ the exact match

  predicate OccursAt(s: string, x: string, i: nat) {
    i + |x| <= |s| && s[i..i + |x|] == x
  }

  /** The first occurrence of `x` at or after `i`. */
  function FindFrom(s: string, x: string, i: nat): (r: Option<nat>)
    ensures r.Some? ==> i <= r.value && OccursAt(s, x, r.value) && forall j | i <= j < r.value :: !OccursAt(s, x, j)
    ensures r.None? ==> forall j | i <= j :: !OccursAt(s, x, j)
    decreases |s| - i
  {
    if i + |x| > |s| then None else if OccursAt(s, x, i) then Some(i) else FindFrom(s, x, i + 1)
  }

  function Find(s: string, x: string): Option<nat> {
    FindFrom(s, x, 0)
  }

  /** A text with `n` characters from `i` on replaced. */
  function ReplaceAt(s: string, i: nat, n: nat, y: string): string
    requires i + n <= |s|
  {
    s[..i] + y + s[i + n..]
  }

  // ------------------------------------------------------------ the whitespace-tolerant match

  /** `line.strip()` of each line. */
  function StripAll(lines: seq<string>): (r: seq<string>)
    ensures |r| == |lines|
  {
    if lines == [] then [] else [Strip(lines[0])] + StripAll(lines[1..])
  }

  /** The lines from `i` on are these, once both are stripped. */
  predicate WindowAt(lines: seq<string>, searched: seq<string>, i: nat) {
    i + |searched| <= |lines| && StripAll(lines[i..i + |searched|]) == StripAll(searched)
  }

  function FirstWindow(lines: seq<string>, searched: seq<string>, from: nat): (r: Option<nat>)
    ensures r.Some? ==> from <= r.value && WindowAt(lines, searched, r.value)
    ensures r.Some? ==> forall j | from <= j < r.value :: !WindowAt(lines, searched, j)
    ensures r.None? ==> forall j | from <= j :: !WindowAt(lines, searched, j)
    decreases |lines| - from
  {
    if from + |searched| > |lines| then None
    else if WindowAt(lines, searched, from) then Some(from)
    else FirstWindow(lines, searched, from + 1)
  }

  /** A replacement that other lines follow ends in a newline. */
  function OwnLines(replace: string, more: bool): string {
    if !EndsWithNewline(replace) && more then replace + "\n" else replace
  }

  /** The lines with `n` of them from `i` on replaced by a text. */
  function SpliceLines(lines: seq<string>, i: nat, n: nat, replace: string): string
    requires i + n <= |lines|
  {
    Flatten(lines[..i]) + OwnLines(replace, i + n < |lines|) + Flatten(lines[i + n..])
  }

  function Fuzzy(text: string, search: string, replace: string): Option<string> {
    var lines, searched := SplitKeep(text), SplitLines(search);
    var i := FirstWindow(lines, searched, 0);
    if searched == [] || i.None? then None else Some(SpliceLines(lines, i.value, |searched|, replace))
  }

  /** `_fuzzy_apply` */
  method FuzzyApply(text: string, search: string, replace: string) returns (patched: Option<string>)
    ensures patched == Fuzzy(text, search, replace)
  {
    var searched := SplitLines(search);
    if searched == [] {
      return None;
    }
    var lines, stripped, n := SplitKeep(text), StripAll(searched), |searched|;
    var i := 0;
    while i + n <= |lines|
      invariant i <= |lines| + 1
      invariant FirstWindow(lines, searched, i) == FirstWindow(lines, searched, 0)
    {
      if StripAll(lines[i..i + n]) == stripped {
        assert FirstWindow(lines, searched, i) == Some(i);
        var replacement := replace;
        if !EndsWithNewline(replacement) && i + n < |lines| {
          replacement := replacement + "\n";
        }
        assert replacement == OwnLines(replace, i + n < |lines|);
        return Some(Flatten(lines[..i]) + replacement + Flatten(lines[i + n..]));
      }
      assert !WindowAt(lines, searched, i);
      i := i + 1;
    }
    return None;
  }

  /** Line by line the same but for the whitespace around them. */
  ghost predicate AllAlike(xs: seq<string>, ys: seq<string>) {
    if xs == [] || ys == [] then xs == ys else Strip(xs[0]) == Strip(ys[0]) && AllAlike(xs[1..], ys[1..])
  }

  /** The lines from `i` on are like these, one by one. */
  ghost predicate LinesAlike(lines: seq<string>, i: nat, searched: seq<string>) {
    i + |searched| <= |lines| && AllAlike(lines[i..i + |searched|], searched)
  }

  lemma {:induction false} StrippedAlike(xs: seq<string>, ys: seq<string>)
    ensures StripAll(xs) == StripAll(ys) <==> AllAlike(xs, ys)
  {
    if xs != [] && ys != [] {
      StrippedAlike(xs[1..], ys[1..]);
      HeadAndTail(StripAll(xs));
      HeadAndTail(StripAll(ys));
    }
  }

  lemma WindowExactly(lines: seq<string>, searched: seq<string>, i: nat)
    ensures WindowAt(lines, searched, i) <==> LinesAlike(lines, i, searched)
  {
    if i + |searched| <= |lines| {
      StrippedAlike(lines[i..i + |searched|], searched);
    }
  }

  /** The lines of a text from `i` on are like those of a search text. */
  ghost predicate MatchesAt(text: string, search: string, i: nat) {
    LinesAlike(SplitKeep(text), i, SplitLines(search))
  }

  /** A search that is not empty finds a place exactly when some stretch of lines is like its own lines. */
  lemma FuzzyFindsExactly(text: string, search: string, replace: string)
    requires search != ""
    ensures Fuzzy(text, search, replace).Some? <==> exists i: nat :: MatchesAt(text, search, i)
  {
    var lines, searched := SplitKeep(text), SplitLines(search);
    assert |searched| > 0;
    var first := FirstWindow(lines, searched, 0);
    if first.Some? {
      WindowExactly(lines, searched, first.value);
      assert MatchesAt(text, search, first.value);
    } else {
      forall i: nat
        ensures !MatchesAt(text, search, i)
      {
        WindowExactly(lines, searched, i);
      }
    }
  }

  // ------------------------------------------------------------ one block

  datatype Result = Applied(text: string) | Failed(error: PatchError)

  function FirstLines(search: string): (r: seq<string>)
    ensures r <= SplitLines(search) && |r| == if |SplitLines(search)| < 3 then |SplitLines(search)| else 3
  {
    var lines := SplitLines(search);
    if |lines| > 3 then lines[..3] else lines
  }

  function ApplyBlock(text: string, b: Block): Result {
    if b.search == "" then Failed(EmptySearch)
    else
      var i := Find(text, b.search);
      if i.Some? then Applied(ReplaceAt(text, i.value, |b.search|, b.replace))
      else
        match Fuzzy(text, b.search, b.replace)
        case Some(patched) => Applied(patched)
        case None => Failed(NotFound(FirstLines(b.search)))
  }

  /** The text at `i` is the first place where the search text stands. */
  ghost predicate FirstPlace(text: string, search: string, i: nat) {
    OccursAt(text, search, i) && forall j | 0 <= j < i :: !OccursAt(text, search, j)
  }

  /** The lines from `i` on are the first that are like those of the search text. */
  ghost predicate FirstMatch(text: string, search: string, i: nat) {
    MatchesAt(text, search, i) && forall j | 0 <= j < i :: !MatchesAt(text, search, j)
  }

  /** The frame of an exact match: the first occurrence is replaced, the text around it stays. */
  lemma ExactFrame(text: string, b: Block, i: nat)
    requires b.search != "" && OccursAt(text, b.search, i)
    ensures Find(text, b.search).Some?
    ensures var k := Find(text, b.search).value;
      var pre, post := text[..k], text[k + |b.search|..];
      FirstPlace(text, b.search, k) && k <= i && text == pre + b.search + post
      && ApplyBlock(text, b) == Applied(pre + b.replace + post)
  {
  }

  /** A text is its first `i` lines, those up to `j` and the ones from there on. */
  ghost predicate IsCut(text: string, i: nat, j: nat) {
    var lines := SplitKeep(text);
    i <= j <= |lines| && text == Flatten(lines[..i]) + Flatten(lines[i..j]) + Flatten(lines[j..])
  }

  /**
   The frame of a tolerant match: the first lines that are alike are replaced, the lines around them
   stay, and a newline is added to a replacement that other lines follow and that ends in none.
   */
  lemma FuzzyFrame(text: string, b: Block) returns (k: nat)
    requires b.search != "" && Find(text, b.search).None? && ApplyBlock(text, b).Applied?
    ensures FirstMatch(text, b.search, k) && IsCut(text, k, k + |SplitLines(b.search)|)
    ensures var lines, next := SplitKeep(text), k + |SplitLines(b.search)|;
      var newline := if next < |lines| && (b.replace == "" || b.replace[|b.replace| - 1] != '\n') then "\n" else "";
      ApplyBlock(text, b) == Applied(Flatten(lines[..k]) + (b.replace + newline) + Flatten(lines[next..]))
  {
    k := FirstPlaceAlike(text, b);
    OwnLinesExactly(b.replace, k + |SplitLines(b.search)| < |SplitKeep(text)|);
  }

  lemma OwnLinesExactly(replace: string, more: bool)
    ensures OwnLines(replace, more) ==
      replace + if more && (replace == "" || replace[|replace| - 1] != '\n') then "\n" else ""
  {
    assert replace + "" == replace;
  }

  lemma FirstPlaceAlike(text: string, b: Block) returns (k: nat)
    requires b.search != "" && Find(text, b.search).None? && ApplyBlock(text, b).Applied?
    ensures FirstMatch(text, b.search, k) && IsCut(text, k, k + |SplitLines(b.search)|)
    ensures ApplyBlock(text, b) == Applied(SpliceLines(SplitKeep(text), k, |SplitLines(b.search)|, b.replace))
  {
    var lines, searched := SplitKeep(text), SplitLines(b.search);
    k := FirstWindow(lines, searched, 0).value;
    LinesAround(text, k, k + |searched|);
    forall j: nat
      ensures MatchesAt(text, b.search, j) <==> WindowAt(lines, searched, j)
    {
      WindowExactly(lines, searched, j);
    }
  }

  /** A block is applied exactly when its search text stands in the text or some lines are like its own. */
  lemma AppliedExactly(text: string, b: Block)
    ensures ApplyBlock(text, b).Applied? <==> (
      && b.search != ""
      && ((exists i: nat :: OccursAt(text, b.search, i)) || exists i: nat :: MatchesAt(text, b.search, i)))
  {
    if b.search != "" {
      FuzzyFindsExactly(text, b.search, b.replace);
    }
  }

  lemma LinesAround(text: string, i: nat, j: nat)
    requires i <= j <= |SplitKeep(text)|
    ensures IsCut(text, i, j)
  {
    FlattenSplit(text);
    FlattenPieces(SplitKeep(text), i, j);
  }

  lemma FlattenPieces(lines: seq<string>, i: nat, j: nat)
    requires i <= j <= |lines|
    ensures Flatten(lines) == Flatten(lines[..i]) + Flatten(lines[i..j]) + Flatten(lines[j..])
  {
    CutInThree(lines, i, j);
    FlattenThree(lines[..i], lines[i..j], lines[j..]);
  }

  // ------------------------------------------------------------ a whole blob

  /** The text so far, how many blocks were applied and the errors of the others. */
  datatype Outcome = Outcome(text: string, applied: nat, errors: seq<PatchError>) {
    function Then(b: Block): Outcome {
      match ApplyBlock(text, b)
      case Applied(changed) => Outcome(changed, applied + 1, errors)
      case Failed(error) => Outcome(text, applied, errors + [error])
    }

    function ThenAll(blocks: seq<Block>): Outcome
      decreases |blocks|
    {
      if blocks == [] then this else Then(blocks[0]).ThenAll(blocks[1..])
    }

    function Stopped(stop: Option<PatchError>): Outcome {
      if stop.Some? then this.(errors := errors + [stop.value]) else this
    }
  }

  function Patched(ps: Patterns, original: string, blob: string): Outcome
    requires ps.Valid()
  {
    var parsed := Parse(ps, blob, 0);
    Outcome(original, 0, []).ThenAll(parsed.blocks).Stopped(parsed.stop)
  }

  /** The loop's body for one block: the exact match first, then the tolerant one. */
  method TryBlock(text: string, applied: nat, errors: seq<PatchError>, b: Block)
    returns (text': string, applied': nat, errors': seq<PatchError>)
    ensures Outcome(text', applied', errors') == Outcome(text, applied, errors).Then(b)
  {
    text', applied', errors' := text, applied, errors;
    if b.search == "" {
      errors' := errors + [EmptySearch];
      return;
    }
    var i := Find(text, b.search);
    if i.Some? {
      text', applied' := ReplaceAt(text, i.value, |b.search|, b.replace), applied + 1;
      return;
    }
    var patched := FuzzyApply(text, b.search, b.replace);
    if patched.Some? {
      text', applied' := patched.value, applied + 1;
      return;
    }
    errors' := errors + [NotFound(FirstLines(b.search))];
  }

  /** What is left to do from `cursor` on. */
  function Rest(ps: Patterns, o: Outcome, blob: string, cursor: nat): Outcome
    requires ps.Valid() && cursor <= |blob|
  {
    o.ThenAll(Parse(ps, blob, cursor).blocks).Stopped(Parse(ps, blob, cursor).stop)
  }

  lemma RestStep(ps: Patterns, o: Outcome, blob: string, cursor: nat)
    requires ps.Valid() && cursor <= |blob|
    ensures match ReadBlock(ps, blob, cursor)
      case Finished => Rest(ps, o, blob, cursor) == o
      case Malformed(error) => Rest(ps, o, blob, cursor) == o.Stopped(Some(error))
      case Read(b, next) => Rest(ps, o, blob, cursor) == Rest(ps, o.Then(b), blob, next)
  {
    match ReadBlock(ps, blob, cursor)
    case Read(b, next) =>
      var blocks := Parse(ps, blob, cursor).blocks;
      assert blocks[0] == b && blocks[1..] == Parse(ps, blob, next).blocks;
    case _ =>
  }

  /** The loop of `_apply_search_replace_patches`, for any three patterns. */
  method ApplyAll(ps: Patterns, original: string, blob: string)
    returns (text: string, applied: nat, errors: seq<PatchError>)
    requires ps.Valid()
    ensures Outcome(text, applied, errors) == Patched(ps, original, blob)
  {
    text, applied, errors := original, 0, [];
    var cursor := 0;
    ghost var o := Outcome(original, 0, []);
    while true
      invariant cursor <= |blob|
      invariant o == Outcome(text, applied, errors)
      invariant Rest(ps, o, blob, cursor) == Rest(ps, Outcome(original, 0, []), blob, 0)
      decreases |blob| - cursor
    {
      RestStep(ps, o, blob, cursor);
      var reading := ReadBlock(ps, blob, cursor);
      if reading.Finished? {
        return;
      }
      if reading.Malformed? {
        errors := errors + [reading.error];
        return;
      }
      cursor := reading.next;
      text, applied, errors := TryBlock(text, applied, errors, reading.block);
      o := o.Then(reading.block);
    }
  }

  /** `_apply_search_replace_patches` */
  method ApplyPatches(original: string, blob: string) returns (text: string, applied: nat, errors: seq<PatchError>)
    ensures Outcome(text, applied, errors) == Patched(Markers(), original, blob)
  {
    text, applied, errors := ApplyAll(Markers(), original, blob);
  }

  lemma {:induction false} EachBlockCounts(o: Outcome, blocks: seq<Block>)
    ensures var after := o.ThenAll(blocks);
      && after.applied + |after.errors| == o.applied + |o.errors| + |blocks|
      && after.applied >= o.applied && (after.applied == o.applied ==> after.text == o.text)
    decreases |blocks|
  {
    if blocks != [] {
      EachBlockCounts(o.Then(blocks[0]), blocks[1..]);
    }
  }

  /**
   Every well-formed block is either applied or reported, and a malformed tail is reported once.
   Where none is applied the text stays as it is.
   */
  lemma AppliedOrReported(ps: Patterns, original: string, blob: string)
    requires ps.Valid()
    ensures var outcome, parsed := Patched(ps, original, blob), Parse(ps, blob, 0);
      && outcome.applied + |outcome.errors| == |parsed.blocks| + (if parsed.stop.Some? then 1 else 0)
      && (outcome.applied == 0 ==> outcome.text == original)
  {
    EachBlockCounts(Outcome(original, 0, []), Parse(ps, blob, 0).blocks);
  }

  // ------------------------------------------------------------ undoing patches

  function Swapped(b: Block): Block {
    Block(b.replace, b.search)
  }

  function Undo(blocks: seq<Block>): seq<Block> {
    if blocks == [] then [] else Undo(blocks[1..]) + [Swapped(blocks[0])]
  }

  /** The text with the first place of the search text rewritten. */
  function Rewritten(text: string, b: Block): string
    requires Find(text, b.search).Some?
  {
    ReplaceAt(text, Find(text, b.search).value, |b.search|, b.replace)
  }

  /**
   An exact match whose replacement is not empty and stands nowhere earlier in the rewritten text:
   no place before the match holds it, whether beside the match or reaching into it.
   */
  predicate Reversible(text: string, b: Block) {
    && b.search != "" && b.replace != ""
    && var i := Find(text, b.search);
    && i.Some? && forall k | 0 <= k < i.value :: !OccursAt(Rewritten(text, b), b.replace, k)
  }

  lemma RewrittenParts(text: string, b: Block)
    requires Find(text, b.search).Some?
    ensures var i := Find(text, b.search).value;
      var pre, post := text[..i], text[i + |b.search|..];
      && text == pre + b.search + post && Rewritten(text, b) == pre + b.replace + post
      && Rewritten(text, b)[..i] == pre && Rewritten(text, b)[i + |b.replace|..] == post
      && OccursAt(Rewritten(text, b), b.replace, i)
  {
  }

  /** The swapped block takes a reversible one back. */
  lemma SwapRestores(text: string, b: Block)
    requires Reversible(text, b)
    ensures ApplyBlock(text, b) == Applied(Rewritten(text, b))
    ensures ApplyBlock(Rewritten(text, b), Swapped(b)) == Applied(text)
  {
    var i := Find(text, b.search).value;
    RewrittenParts(text, b);
    assert Find(Rewritten(text, b), b.replace).Some?;
    assert Find(Rewritten(text, b), b.replace).value == i;
  }

  /** A search text put back at `k` stands there. */
  lemma PutBack(s: string, k: nat, n: nat, x: string)
    requires k + n <= |s|
    ensures OccursAt(ReplaceAt(s, k, n, x), x, k)
  {
  }

  /**
   For an exact match the swapped block restores the text if and only if the block is reversible:
   an empty replacement is refused, and one found earlier puts the search text before its first place.
   */
  lemma SwapRestoresExactly(text: string, b: Block)
    requires b.search != "" && Find(text, b.search).Some?
    ensures ApplyBlock(text, b) == Applied(Rewritten(text, b))
    ensures ApplyBlock(Rewritten(text, b), Swapped(b)) == Applied(text) <==> Reversible(text, b)
  {
    if Reversible(text, b) {
      SwapRestores(text, b);
    } else if b.replace != "" {
      var k :| 0 <= k < Find(text, b.search).value && OccursAt(Rewritten(text, b), b.replace, k);
      var found := Find(Rewritten(text, b), b.replace);
      assert found.Some? && found.value <= k;
      PutBack(Rewritten(text, b), found.value, |b.replace|, b.search);
    }
  }

  /** A replacement that stands exactly once in the rewritten text makes the block reversible. */
  lemma OnceIsReversible(text: string, b: Block)
    requires b.search != "" && b.replace != "" && Find(text, b.search).Some?
    requires forall i: nat, j: nat
      | OccursAt(Rewritten(text, b), b.replace, i) && OccursAt(Rewritten(text, b), b.replace, j) :: i == j
    ensures Reversible(text, b)
  {
    RewrittenParts(text, b);
  }

  /** Each block is reversible in the text it meets. */
  predicate AllReversible(text: string, blocks: seq<Block>)
    decreases |blocks|
  {
    blocks == [] ||
    (Reversible(text, blocks[0]) && AllReversible(Outcome(text, 0, []).Then(blocks[0]).text, blocks[1..]))
  }

  lemma {:induction false} ThenAllAppend(o: Outcome, xs: seq<Block>, ys: seq<Block>)
    ensures o.ThenAll(xs + ys) == o.ThenAll(xs).ThenAll(ys)
    decreases |xs|
  {
    if xs == [] {
      assert xs + ys == ys;
    } else {
      assert (xs + ys)[1..] == xs[1..] + ys;
      ThenAllAppend(o.Then(xs[0]), xs[1..], ys);
    }
  }

  /** Reversible blocks are all applied, and swapped and taken in reverse order they restore the text. */
  lemma {:induction false} UndoRestores(o: Outcome, blocks: seq<Block>)
    requires AllReversible(o.text, blocks)
    ensures var after := o.ThenAll(blocks);
      after.applied == o.applied + |blocks| && after.errors == o.errors &&
      after.ThenAll(Undo(blocks)) == Outcome(o.text, o.applied + 2 * |blocks|, o.errors)
    decreases |blocks|
  {
    if blocks != [] {
      var b, rest := blocks[0], blocks[1..];
      SwapRestores(o.text, b);
      UndoRestores(o.Then(b), rest);
      ThenAllAppend(o.ThenAll(blocks), Undo(rest), [Swapped(b)]);
    }
  }

  /** The patch file that undoes a patch file: both are written out, read back and applied. */
  lemma UndoPatch(original: string, blocks: seq<Block>)
    requires AllClean(Markers(), blocks) && AllClean(Markers(), Undo(blocks)) && AllReversible(original, blocks)
    ensures var changed := Patched(Markers(), original, Render(blocks));
      changed.applied == |blocks| && changed.errors == [] &&
      Patched(Markers(), changed.text, Render(Undo(blocks))).text == original
  {
    var o := Outcome(original, 0, []);
    UndoRestores(o, blocks);
    RenderedRun(original, blocks);
    RenderedRun(o.ThenAll(blocks).text, Undo(blocks));
    SameText(o.ThenAll(blocks), Outcome(o.ThenAll(blocks).text, 0, []), Undo(blocks));
  }

  lemma RenderedRun(original: string, blocks: seq<Block>)
    requires AllClean(Markers(), blocks)
    ensures Patched(Markers(), original, Render(blocks)) == Outcome(original, 0, []).ThenAll(blocks)
  {
    ParseRendered(blocks);
  }

  lemma {:induction false} SameText(o: Outcome, p: Outcome, blocks: seq<Block>)
    requires o.text == p.text
    ensures o.ThenAll(blocks).text == p.ThenAll(blocks).text
    decreases |blocks|
  {
    if blocks != [] {
      SameText(o.Then(blocks[0]), p.Then(blocks[0]), blocks[1..]);
    }
  }

  /** Deleting text cannot be swapped back: the swapped block has nothing to search for. */
  lemma DeletionNotSwapped(text: string, search: string)
    requires search != "" && Find(text, search).Some?
    ensures var b := Block(search, "");
      ApplyBlock(Rewritten(text, b), Swapped(b)) == Failed(EmptySearch)
  {
  }

  /** A replacement that also stands earlier in the text: the swapped block rewrites the wrong place. */
  lemma SwapMissesEarlierPlace()
    ensures ApplyBlock("ab", Block("b", "a")) == Applied("aa")
    ensures ApplyBlock("aa", Block("a", "b")) == Applied("ba")
  {
    assert "ab"[0..1] == "a" && "ab"[1..2] == "b" && "aa"[0..1] == "a";
    assert !OccursAt("ab", "b", 0) && OccursAt("ab", "b", 1) && OccursAt("aa", "a", 0);
    assert ReplaceAt("ab", 1, 1, "a") == "aa" && ReplaceAt("aa", 0, 1, "b") == "ba";
  }
}
