/**
 The five-stage context pruner (omnicode/llm/token_manager.py). The tokenizer, the comment
 stripper and the function folder are parameters; the results hold for every subadditive
 tokenizer and any stripper and folder.
 */
module ContextPruner {
  import opened Sequences

  /** `tiktoken` when it can be loaded; otherwise truncation cuts by characters. */
  datatype Encoding = NoEncoding | Tiktoken(encode: string -> seq<nat>, decode: seq<nat> -> string)

  datatype Tools = Tools(
    count: string -> nat,
    strip: (string, string) -> string,
    fold: (string, string, seq<string>) -> string,
    encoding: Encoding,
    /** What stands for the text a truncation leaves out. */
    marker: string)

  /** The value of a context item: what the stages read. */
  datatype Doc = Doc(content: string, language: string, keepSymbols: seq<string>)

  datatype Strategy = Keep | Strip | Fold | Truncate | Drop

  /** An entry of the report, with the content the item is left with. */
  datatype Decision = Decision(strategy: Strategy, tokensIn: nat, tokensOut: nat, content: string)

  /** From this many remaining tokens on, an item that fits no other way is truncated. */
  const MIN_TRUNCATE := 64

  function Least(a: int, b: int): int {
    if a <= b then a else b
  }

  function Most(a: int, b: int): int {
    if a >= b then a else b
  }

  /** Head and tail slices of half the target each, less 4 tokens. */
  function Truncated(t: Tools, text: string, target: nat): string {
    match t.encoding
    case NoEncoding => text[..Least(|text|, 4 * target)]
    case Tiktoken(encode, decode) =>
      var tokens := encode(text);
      if |tokens| <= target then text
      else
        var head := tokens[..Least(|tokens|, Most(1, target / 2 - 4))];
        var tail := tokens[|tokens| - Least(|tokens|, Most(1, target - |head| - 4))..];
        decode(head) + t.marker + decode(tail)
  }

  /** One item against the remaining budget, which may be negative. */
  function Decide(t: Tools, doc: Doc, remaining: int): Decision {
    var tokens := t.count(doc.content);
    if tokens <= remaining then Decision(Keep, tokens, tokens, doc.content)
    else
      var stripped := t.strip(doc.content, doc.language);
      if t.count(stripped) <= remaining then Decision(Strip, tokens, t.count(stripped), stripped)
      else
        var folded := t.fold(stripped, doc.language, doc.keepSymbols);
        if t.count(folded) <= remaining then Decision(Fold, tokens, t.count(folded), folded)
        else if remaining >= MIN_TRUNCATE then
          var cut := Truncated(t, folded, remaining);
          Decision(Truncate, tokens, t.count(cut), cut)
        else Decision(Drop, tokens, 0, doc.content)
  }

  /** The whole text, the text without comments, and that one with its functions folded. */
  function Stages(t: Tools, doc: Doc): seq<(Strategy, string)> {
    var stripped := t.strip(doc.content, doc.language);
    [(Keep, doc.content), (Strip, stripped), (Fold, t.fold(stripped, doc.language, doc.keepSymbols))]
  }

  /** `k` is the first stage that fits, or 3 when none does. */
  ghost predicate FirstFit(t: Tools, doc: Doc, remaining: int, k: nat) {
    && k <= 3 && (k < 3 ==> t.count(Stages(t, doc)[k].1) <= remaining)
    && forall j | 0 <= j < k :: t.count(Stages(t, doc)[j].1) > remaining
  }

  /** An item takes the mildest stage that fits; without one it is cut to the budget, or dropped when that is small. */
  lemma MildestStage(t: Tools, doc: Doc, remaining: int, k: nat)
    requires FirstFit(t, doc, remaining, k)
    ensures var d := Decide(t, doc, remaining);
      if k < 3 then (d.strategy, d.content) == Stages(t, doc)[k] && d.tokensOut == t.count(d.content)
      else if remaining < MIN_TRUNCATE then d.strategy == Drop && d.content == doc.content && d.tokensOut == 0
      else
        d.strategy == Truncate && d.content == Truncated(t, Stages(t, doc)[2].1, remaining) &&
        d.tokensOut == t.count(d.content)
  {
    assert k > 0 ==> t.count(Stages(t, doc)[0].1) > remaining;
    assert k > 1 ==> t.count(Stages(t, doc)[1].1) > remaining;
    assert k > 2 ==> t.count(Stages(t, doc)[2].1) > remaining;
  }

  /** Two ends of a list of tokens that do not overlap and together are this long. */
  ghost predicate AreEnds(head: seq<nat>, tail: seq<nat>, tokens: seq<nat>, size: int) {
    |head| + |tail| == size < |tokens| && head == tokens[..|head|] && tail == tokens[|tokens| - |tail|..]
  }

  /** A truncation by tokens keeps both ends of the text, 4 tokens short of the target, around the marker. */
  lemma TruncatedKeepsEnds(t: Tools, text: string, target: nat) returns (head: seq<nat>, tail: seq<nat>)
    requires t.encoding.Tiktoken? && target >= MIN_TRUNCATE && |t.encoding.encode(text)| > target
    ensures AreEnds(head, tail, t.encoding.encode(text), target - 4)
    ensures |head| == target / 2 - 4
    ensures Truncated(t, text, target) == t.encoding.decode(head) + t.marker + t.encoding.decode(tail)
  {
    var tokens := t.encoding.encode(text);
    head := tokens[..target / 2 - 4];
    tail := tokens[|tokens| - (target - |head| - 4)..];
  }

  /** A text that is short enough stays; without a tokenizer a prefix of 4 characters per token is left. */
  lemma TruncatedOtherwise(t: Tools, text: string, target: nat)
    ensures t.encoding.Tiktoken? && |t.encoding.encode(text)| <= target ==> Truncated(t, text, target) == text
    ensures t.encoding.NoEncoding? ==>
      var cut := Truncated(t, text, target);
      cut <= text && |cut| <= 4 * target && (|cut| == 4 * target || cut == text)
  {
  }

  /** What is left of the budget for item `k` of a list in priority order. */
  function Left(t: Tools, docs: seq<Doc>, budget: int, k: nat): int
    requires k <= |docs|
    decreases k, 0
  {
    if k == 0 then budget
    else Left(t, docs, budget, k - 1) - DecisionAt(t, docs, budget, k - 1).tokensOut
  }

  function DecisionAt(t: Tools, docs: seq<Doc>, budget: int, k: nat): Decision
    requires k < |docs|
    decreases k, 1
  {
    Decide(t, docs[k], Left(t, docs, budget, k))
  }

  ghost predicate IsReport(report: seq<Decision>, t: Tools, docs: seq<Doc>, budget: int) {
    |report| == |docs| && forall k | 0 <= k < |docs| :: report[k] == DecisionAt(t, docs, budget, k)
  }

  function TokensOut(ds: seq<Decision>): nat {
    if ds == [] then 0 else TokensOut(ds[..|ds| - 1]) + ds[|ds| - 1].tokensOut
  }

  /** Every token of the budget is either spent on an item or remains. */
  lemma {:induction false} TokensConserved(report: seq<Decision>, t: Tools, docs: seq<Doc>, budget: int, k: nat)
    requires IsReport(report, t, docs, budget) && k <= |docs|
    ensures budget == TokensOut(report[..k]) + Left(t, docs, budget, k)
  {
    if k > 0 {
      TokensConserved(report, t, docs, budget, k - 1);
      assert report[..k][..k - 1] == report[..k - 1];
    }
  }

  // ------------------------------------------------------------ tokenizers

  /** What is asked of the tokenizer; without `tiktoken` it counts at most one token for 4 characters. */
  ghost predicate Subadditive(t: Tools) {
    && (forall a, b {:trigger t.count(a + b)} :: t.count(a + b) <= t.count(a) + t.count(b))
    && match t.encoding
       case NoEncoding => forall s :: t.count(s) <= Most(1, (|s| + 3) / 4)
       case Tiktoken(encode, decode) =>
         && (forall ts :: t.count(decode(ts)) <= |ts|)
         && (forall s {:trigger encode(s)} :: decode(encode(s)) == s)
  }

  /** How far a truncation can overshoot: the marker costs tokens, 4 were set aside for it. */
  function Overshoot(t: Tools): nat {
    Most(0, t.count(t.marker) - 4)
  }

  lemma CutCost(t: Tools, head: seq<nat>, tail: seq<nat>)
    requires Subadditive(t) && t.encoding.Tiktoken?
    ensures var decode := t.encoding.decode;
      t.count(decode(head) + t.marker + decode(tail)) <= |head| + t.count(t.marker) + |tail|
  {
    var x, y := t.encoding.decode(head), t.encoding.decode(tail);
    assert t.count((x + t.marker) + y) <= t.count(x + t.marker) + t.count(y);
    assert t.count(x) <= |head| && t.count(y) <= |tail|;
  }

  lemma WholeCost(t: Tools, text: string)
    requires Subadditive(t)
    ensures match t.encoding
      case NoEncoding => t.count(text) <= Most(1, (|text| + 3) / 4)
      case Tiktoken(encode, _) => t.count(text) <= |encode(text)|
  {
    if t.encoding.Tiktoken? {
      assert t.count(t.encoding.decode(t.encoding.encode(text))) <= |t.encoding.encode(text)|;
    }
  }

  /** The two token slices a truncation to `target` keeps: together, 4 tokens fewer than the target. */
  function Slices(tokens: seq<nat>, target: nat): (seq<nat>, seq<nat>)
    requires MIN_TRUNCATE <= target < |tokens|
  {
    var half := target / 2 - 4;
    (tokens[..half], tokens[|tokens| - (target - half - 4)..])
  }

  lemma SlicesCost(t: Tools, text: string, target: nat)
    requires Subadditive(t) && t.encoding.Tiktoken? && MIN_TRUNCATE <= target < |t.encoding.encode(text)|
    ensures var (head, tail) := Slices(t.encoding.encode(text), target);
      t.count(t.encoding.decode(head) + t.marker + t.encoding.decode(tail)) <= target - 4 + t.count(t.marker)
  {
    var (head, tail) := Slices(t.encoding.encode(text), target);
    CutCost(t, head, tail);
  }

  /** What the tokenizer rules say about one truncation. */
  ghost predicate SlicesFit(t: Tools, text: string, target: nat)
    requires target >= MIN_TRUNCATE
  {
    match t.encoding
    case NoEncoding => t.count(text[..Least(|text|, 4 * target)]) <= target
    case Tiktoken(encode, decode) =>
      && t.count(text) <= |encode(text)|
      && (|encode(text)| > target ==>
            var (head, tail) := Slices(encode(text), target);
            t.count(decode(head) + t.marker + decode(tail)) <= target - 4 + t.count(t.marker))
  }

  lemma RulesFit(t: Tools, text: string, target: nat)
    requires Subadditive(t) && target >= MIN_TRUNCATE
    ensures SlicesFit(t, text, target)
  {
    WholeCost(t, text);
    match t.encoding
    case NoEncoding => WholeCost(t, text[..Least(|text|, 4 * target)]);
    case Tiktoken(encode, decode) =>
      if |encode(text)| > target {
        SlicesCost(t, text, target);
      }
  }

  /** A truncation to `target` tokens costs at most the target and the overshoot. */
  lemma TruncatedCost(t: Tools, text: string, target: nat)
    requires target >= MIN_TRUNCATE && t.count(text) > target && SlicesFit(t, text, target)
    ensures t.count(Truncated(t, text, target)) <= target + Overshoot(t)
  {
  }

  // ------------------------------------------------------------ budget

  /** Every kept item costs what its new content counts to. */
  lemma DecisionCost(t: Tools, doc: Doc, remaining: int)
    ensures var d := Decide(t, doc, remaining);
      && d.tokensOut == (if d.strategy == Drop then 0 else t.count(d.content))
      && (d.strategy == Keep || d.strategy == Drop ==> d.content == doc.content)
      && (d.strategy != Truncate && d.strategy != Drop ==> d.tokensOut <= remaining)
      && (d.strategy == Drop ==> remaining < MIN_TRUNCATE)
  {
  }

  /** No single decision costs more than what remains and one overshoot. */
  lemma DecisionWithin(t: Tools, doc: Doc, remaining: int)
    requires Subadditive(t) && remaining + Overshoot(t) >= 0
    ensures Decide(t, doc, remaining).tokensOut <= remaining + Overshoot(t)
  {
    if Decide(t, doc, remaining).strategy == Truncate {
      var folded := t.fold(t.strip(doc.content, doc.language), doc.language, doc.keepSymbols);
      RulesFit(t, folded, remaining);
      TruncatedCost(t, folded, remaining);
    }
  }

  lemma {:induction false} LeftBounded(t: Tools, docs: seq<Doc>, budget: nat, k: nat)
    requires Subadditive(t) && k <= |docs|
    ensures Left(t, docs, budget, k) + Overshoot(t) >= 0
  {
    if k > 0 {
      LeftBounded(t, docs, budget, k - 1);
      DecisionWithin(t, docs[k - 1], Left(t, docs, budget, k - 1));
    }
  }

  /** What is kept never costs more than the budget and one overshoot. */
  lemma BudgetHolds(report: seq<Decision>, t: Tools, docs: seq<Doc>, budget: nat)
    requires Subadditive(t) && IsReport(report, t, docs, budget)
    ensures TokensOut(report) <= budget + Overshoot(t)
  {
    TokensConserved(report, t, docs, budget, |docs|);
    assert report[..|docs|] == report;
    LeftBounded(t, docs, budget, |docs|);
  }

  lemma {:induction false} LeftNonNegative(t: Tools, docs: seq<Doc>, budget: nat, k: nat)
    requires k <= |docs| && forall j | 0 <= j < k :: DecisionAt(t, docs, budget, j).strategy != Truncate
    ensures Left(t, docs, budget, k) >= 0
  {
    if k > 0 {
      LeftNonNegative(t, docs, budget, k - 1);
      assert DecisionAt(t, docs, budget, k - 1).strategy != Truncate;
      DecisionCost(t, docs[k - 1], Left(t, docs, budget, k - 1));
    }
  }

  /** Without a truncation the budget is never exceeded, whatever the tokenizer. */
  lemma BudgetHoldsExactly(report: seq<Decision>, t: Tools, docs: seq<Doc>, budget: nat)
    requires IsReport(report, t, docs, budget) && forall d | d in report :: d.strategy != Truncate
    ensures TokensOut(report) <= budget
  {
    forall j | 0 <= j < |docs|
      ensures DecisionAt(t, docs, budget, j).strategy != Truncate
    {
      assert report[j] in report;
    }
    LeftNonNegative(t, docs, budget, |docs|);
    TokensConserved(report, t, docs, budget, |docs|);
    assert report[..|docs|] == report;
  }

  // ------------------------------------------------------------ exactly when the budget holds

  /** Item `k` is cut: nothing it could be reduced to fits, and enough is left to make a cut worth while. */
  ghost predicate IsCut(t: Tools, docs: seq<Doc>, budget: int, k: nat)
    requires k < |docs|
  {
    var left := Left(t, docs, budget, k);
    left >= MIN_TRUNCATE && forall j | 0 <= j < 3 :: t.count(Stages(t, docs[k])[j].1) > left
  }

  lemma CutsAreTruncations(t: Tools, docs: seq<Doc>, budget: int, k: nat)
    requires k < |docs|
    ensures IsCut(t, docs, budget, k) <==> DecisionAt(t, docs, budget, k).strategy == Truncate
  {
    var left, stages := Left(t, docs, budget, k), Stages(t, docs[k]);
    if t.count(stages[0].1) <= left || t.count(stages[1].1) <= left || t.count(stages[2].1) <= left {
      assert !IsCut(t, docs, budget, k);
    }
  }

  /** What the cut of item `k` keeps of its budget. */
  function CutText(t: Tools, docs: seq<Doc>, budget: int, k: nat): string
    requires k < |docs| && Left(t, docs, budget, k) >= 0
  {
    Truncated(t, Stages(t, docs[k])[2].1, Left(t, docs, budget, k))
  }

  /** No cut of an item costs more than the tokens left for it. */
  ghost predicate CutsFit(t: Tools, docs: seq<Doc>, budget: int) {
    forall k | 0 <= k < |docs| && IsCut(t, docs, budget, k) ::
      t.count(CutText(t, docs, budget, k)) <= Left(t, docs, budget, k)
  }

  lemma CutDecision(t: Tools, docs: seq<Doc>, budget: int, k: nat)
    requires k < |docs| && IsCut(t, docs, budget, k)
    ensures DecisionAt(t, docs, budget, k).tokensOut == t.count(CutText(t, docs, budget, k))
  {
    assert t.count(Stages(t, docs[k])[0].1) > Left(t, docs, budget, k);
    assert t.count(Stages(t, docs[k])[1].1) > Left(t, docs, budget, k);
    assert t.count(Stages(t, docs[k])[2].1) > Left(t, docs, budget, k);
  }

  lemma {:induction false} LeftWhenCutsFit(t: Tools, docs: seq<Doc>, budget: nat, k: nat)
    requires k <= |docs| && CutsFit(t, docs, budget)
    ensures Left(t, docs, budget, k) >= 0
  {
    if k > 0 {
      LeftWhenCutsFit(t, docs, budget, k - 1);
      CutsAreTruncations(t, docs, budget, k - 1);
      DecisionCost(t, docs[k - 1], Left(t, docs, budget, k - 1));
      if IsCut(t, docs, budget, k - 1) {
        CutDecision(t, docs, budget, k - 1);
      }
    }
  }

  /** Whatever the tokenizer, the budget holds if and only if each cut costs at most what is left for its item. */
  lemma BudgetHoldsExactlyWhen(report: seq<Decision>, t: Tools, docs: seq<Doc>, budget: nat)
    requires IsReport(report, t, docs, budget)
    ensures TokensOut(report) <= budget <==> CutsFit(t, docs, budget)
  {
    TokensConserved(report, t, docs, budget, |docs|);
    assert report[..|docs|] == report;
    if CutsFit(t, docs, budget) {
      LeftWhenCutsFit(t, docs, budget, |docs|);
    } else {
      var k :| 0 <= k < |docs| && IsCut(t, docs, budget, k)
        && t.count(CutText(t, docs, budget, k)) > Left(t, docs, budget, k);
      CutDecision(t, docs, budget, k);
      SmallRest(t, docs, budget, k + 1, |docs|);
    }
  }

  /** With a marker of at most 4 tokens every input stays within the budget. */
  lemma ShortMarkerHolds(report: seq<Decision>, t: Tools, docs: seq<Doc>, budget: nat)
    requires Subadditive(t) && t.count(t.marker) <= 4 && IsReport(report, t, docs, budget)
    ensures TokensOut(report) <= budget
  {
    BudgetHolds(report, t, docs, budget);
  }

  /** A tokenizer whose counts add up, and count what it encodes and decodes. */
  ghost predicate Additive(t: Tools) {
    && t.encoding.Tiktoken?
    && (forall a, b {:trigger t.count(a + b)} :: t.count(a + b) == t.count(a) + t.count(b))
    && (forall ts :: t.count(t.encoding.decode(ts)) == |ts|)
    && (forall s :: |t.encoding.encode(s)| == t.count(s))
  }

  lemma ExactCut(t: Tools, text: string, target: nat)
    requires Additive(t) && target >= MIN_TRUNCATE && t.count(text) > target
    ensures t.count(Truncated(t, text, target)) == target - 4 + t.count(t.marker)
  {
    var head, tail := TruncatedKeepsEnds(t, text, target);
    var decode := t.encoding.decode;
    assert t.count(decode(head) + t.marker + decode(tail)) == t.count(decode(head) + t.marker) + t.count(decode(tail));
    assert t.count(decode(head) + t.marker) == t.count(decode(head)) + t.count(t.marker);
  }

  /** With such a tokenizer the budget fails if and only if the marker takes more than 4 tokens and some item is cut. */
  lemma AdditiveBudget(report: seq<Decision>, t: Tools, docs: seq<Doc>, budget: nat)
    requires Additive(t) && IsReport(report, t, docs, budget)
    ensures TokensOut(report) > budget
      <==> t.count(t.marker) > 4 && exists k :: 0 <= k < |docs| && IsCut(t, docs, budget, k)
  {
    BudgetHoldsExactlyWhen(report, t, docs, budget);
    forall k | 0 <= k < |docs| && IsCut(t, docs, budget, k)
      ensures t.count(CutText(t, docs, budget, k)) == Left(t, docs, budget, k) - 4 + t.count(t.marker)
    {
      assert t.count(Stages(t, docs[k])[2].1) > Left(t, docs, budget, k);
      ExactCut(t, Stages(t, docs[k])[2].1, Left(t, docs, budget, k));
    }
  }

  /** One token for each character, no comments or functions to fold, and a marker of 10 tokens. */
  function CharacterTools(): Tools {
    Tools(
      s => |s|, (text, language) => text, (text, language, symbols) => text,
      Tiktoken(s => seq(|s|, _ => 0), ts => seq(|ts|, _ => 'x')), "<<10chars>")
  }

  lemma CharactersAddUp()
    ensures Additive(CharacterTools())
  {
  }

  /** An item of 100 tokens against a budget of 64 is kept, at 70 tokens. */
  lemma OverBudget()
    ensures Additive(CharacterTools())
    ensures var doc := Doc(seq(100, _ => 'x'), "", []);
      exists report :: IsReport(report, CharacterTools(), [doc], 64) && TokensOut(report) == 70
  {
    var t, doc := CharacterTools(), Doc(seq(100, _ => 'x'), "", []);
    CharactersAddUp();
    var d := DecisionAt(t, [doc], 64, 0);
    var report := [d];
    var head, tail := TruncatedKeepsEnds(t, doc.content, 64);
    assert |Truncated(t, doc.content, 64)| == |head| + 10 + |tail|;
    assert d.strategy == Truncate && d.tokensOut == 70;
    assert report[..0] == [] && IsReport(report, t, [doc], 64);
    assert TokensOut(report) == TokensOut(report[..0]) + d.tokensOut;
  }

  // ------------------------------------------------------------ priority

  /** Once less than 64 tokens are left, nothing more is truncated and no more than that is spent. */
  lemma {:induction false} SmallRest(t: Tools, docs: seq<Doc>, budget: int, i: nat, k: nat)
    requires i <= k <= |docs| && Left(t, docs, budget, i) < MIN_TRUNCATE
    ensures Left(t, docs, budget, k) <= Left(t, docs, budget, i)
    ensures Left(t, docs, budget, i) - Left(t, docs, budget, k) <= Most(0, Left(t, docs, budget, i))
    ensures Left(t, docs, budget, i) >= 0 ==> Left(t, docs, budget, k) >= 0
    ensures k < |docs| ==> DecisionAt(t, docs, budget, k).strategy != Truncate
    decreases k
  {
    if k > i {
      SmallRest(t, docs, budget, i, k - 1);
      DecisionCost(t, docs[k - 1], Left(t, docs, budget, k - 1));
    }
  }

  /**
   No significant priority inversion: below a dropped item nothing is truncated, and all that
   is kept together costs less than the 64 tokens that would have been worth a truncation.
   */
  lemma {:induction false} NoInversion(report: seq<Decision>, t: Tools, docs: seq<Doc>, budget: int, i: nat)
    requires IsReport(report, t, docs, budget) && i < |docs| && report[i].strategy == Drop
    ensures TokensOut(report) - TokensOut(report[..i]) < MIN_TRUNCATE
    ensures forall k | i <= k < |docs| :: report[k].strategy != Truncate
  {
    DecisionCost(t, docs[i], Left(t, docs, budget, i));
    forall k | i <= k < |docs|
      ensures report[k].strategy != Truncate
    {
      SmallRest(t, docs, budget, i, k);
    }
    SmallRest(t, docs, budget, i, |docs|);
    TokensConserved(report, t, docs, budget, i);
    TokensConserved(report, t, docs, budget, |docs|);
    assert report[..|docs|] == report;
  }

  // ------------------------------------------------------------ pruning in place

  class ContextItem {
    const priority: int
    const language: string
    const keepSymbols: seq<string>
    var content: string

    constructor (content: string, priority: int, language: string, keepSymbols: seq<string>)
      ensures this.content == content && this.priority == priority
    {
      this.content, this.priority, this.language, this.keepSymbols := content, priority, language, keepSymbols;
    }

    function Value(): Doc
      reads this
    {
      Doc(content, language, keepSymbols)
    }
  }

  function Values(items: seq<ContextItem>): (r: seq<Doc>)
    reads items
    ensures |r| == |items| && forall i | 0 <= i < |items| :: r[i] == items[i].Value()
  {
    if items == [] then [] else [items[0].Value()] + Values(items[1..])
  }

  function HigherFirst(): (ContextItem, ContextItem) -> bool {
    (a: ContextItem, b: ContextItem) => a.priority >= b.priority
  }

  /** The items by falling priority, those of the same priority in the order they came in. */
  ghost predicate ByPriority(ranked: seq<ContextItem>, items: seq<ContextItem>) {
    && multiset(ranked) == multiset(items)
    && (forall i, j | 0 <= i < j < |ranked| :: ranked[i].priority >= ranked[j].priority)
    && (forall i, j | 0 <= i < j < |ranked| && ranked[i].priority == ranked[j].priority ::
      Precedes(items, ranked[i], ranked[j]))
  }

  lemma SortedByPriority(items: seq<ContextItem>)
    requires Distinct(items)
    ensures ByPriority(Sort(HigherFirst(), items), items)
  {
    var ranked := Sort(HigherFirst(), items);
    SortSorted(HigherFirst(), items);
    forall i, j | 0 <= i < j < |ranked|
      ensures ranked[i].priority >= ranked[j].priority
      ensures ranked[i].priority == ranked[j].priority ==> Precedes(items, ranked[i], ranked[j])
    {
      assert HigherFirst()(ranked[i], ranked[j]);
      if ranked[i].priority == ranked[j].priority {
        var priority := ranked[i].priority;
        TiesStay(HigherFirst(), (x: ContextItem) => x.priority == priority, items, i, j);
      }
    }
  }

  lemma RankedItems(items: seq<ContextItem>, ranked: seq<ContextItem>)
    requires Distinct(items) && ranked == Sort(HigherFirst(), items)
    ensures ByPriority(ranked, items) && Distinct(ranked) && |ranked| == |items|
    ensures forall i | 0 <= i < |ranked| :: ranked[i] in items
    ensures forall i | 0 <= i < |items| :: items[i] in ranked
  {
    DistinctOfMultiset(items, ranked);
    SortedByPriority(items);
  }

  function InPlace(order: map<ContextItem, nat>): (ContextItem, ContextItem) -> bool {
    (a: ContextItem, b: ContextItem) => a in order && b in order && order[a] <= order[b]
  }

  /** The items some decision kept. */
  ghost function KeptItems(ranked: seq<ContextItem>, ds: seq<Decision>): set<ContextItem>
    requires |ranked| == |ds|
  {
    set k | 0 <= k < |ranked| && ds[k].strategy != Drop :: ranked[k]
  }

  /** Back to the order of the input. */
  method RestoreOrder(items: seq<ContextItem>, kept: seq<ContextItem>, ghost chosen: set<ContextItem>)
    returns (r: seq<ContextItem>)
    requires Distinct(items) && Distinct(kept)
    requires (forall x | x in kept :: x in chosen && x in items) && (forall x | x in chosen :: x in kept)
    ensures r == Filter((x: ContextItem) => x in chosen, items)
  {
    var order: map<ContextItem, nat> := map[];
    for i := 0 to |items|
      invariant forall j | 0 <= j < i :: items[j] in order && order[items[j]] == j
    {
      order := order[items[i] := i];
    }
    r := Sort(InPlace(order), kept);
    ghost var p := (x: ContextItem) => x in chosen;
    SortSorted(InPlace(order), kept);
    DistinctOfMultiset(kept, r);
    FilterSorted(InPlace(order), p, items);
    SortedUnique(InPlace(order), r, Filter(p, items));
  }

  /**
   `prune`: items are decided on in stable priority order, rewritten in place, and returned in
   input order. `ranked` is the order of the report.
   */
  method Prune(t: Tools, usableWindow: nat, items: seq<ContextItem>, reserved: int)
    returns (kept: seq<ContextItem>, budget: nat, remaining: int, report: seq<Decision>, ghost ranked: seq<ContextItem>)
    requires Distinct(items)
    modifies items
    ensures budget ==
      if reserved <= 0 then usableWindow else if reserved <= usableWindow then usableWindow - reserved else 0
    ensures ranked == Sort(HigherFirst(), items) && ByPriority(ranked, items)
    ensures IsReport(report, t, old(Values(ranked)), budget) && budget == TokensOut(report) + remaining
    ensures forall k | 0 <= k < |ranked| :: ranked[k].content == report[k].content
    ensures kept == Filter((x: ContextItem) => x in KeptItems(ranked, report), items)
  {
    budget := Most(0, usableWindow - Most(0, reserved));
    var sorted := Sort(HigherFirst(), items);
    RankedItems(items, sorted);
    ranked := sorted;
    kept, remaining, report := DecideAll(t, sorted, budget);
    kept := RestoreOrder(items, kept, KeptItems(ranked, report));
  }

  /** `kept` are the items among the first `k` whose decision is not a drop. */
  ghost predicate Collected(kept: seq<ContextItem>, sorted: seq<ContextItem>, k: nat, report: seq<Decision>) {
    && k <= |sorted| && |report| == k && Distinct(kept)
    && (forall x | x in kept :: x in sorted[..k])
    && (forall j | 0 <= j < k :: sorted[j] in kept <==> report[j].strategy != Drop)
  }

  lemma CollectNext(kept: seq<ContextItem>, sorted: seq<ContextItem>, k: nat, report: seq<Decision>, d: Decision)
    requires Collected(kept, sorted, k, report) && k < |sorted| && Distinct(sorted)
    ensures Collected(if d.strategy == Drop then kept else kept + [sorted[k]], sorted, k + 1, report + [d])
  {
    assert sorted[k] !in sorted[..k];
    assert sorted[..k + 1] == sorted[..k] + [sorted[k]];
  }

  /** The report on the first items, and what they leave of the budget. */
  ghost predicate Reported(report: seq<Decision>, remaining: int, t: Tools, docs: seq<Doc>, budget: int) {
    && |report| <= |docs| && remaining == Left(t, docs, budget, |report|)
    && forall j | 0 <= j < |report| :: report[j] == DecisionAt(t, docs, budget, j)
  }

  lemma ReportNext(report: seq<Decision>, remaining: int, t: Tools, docs: seq<Doc>, budget: int, d: Decision)
    requires Reported(report, remaining, t, docs, budget) && |report| < |docs|
    requires d == Decide(t, docs[|report|], remaining)
    ensures Reported(report + [d], if d.strategy == Drop then remaining else remaining - d.tokensOut, t, docs, budget)
  {
    DecisionCost(t, docs[|report|], remaining);
  }

  /** What the budget loop has collected and reported after the first `|report|` items. */
  ghost predicate Underway(
    kept: seq<ContextItem>, remaining: int, report: seq<Decision>, sorted: seq<ContextItem>, t: Tools, docs: seq<Doc>,
    budget: int)
  {
    Reported(report, remaining, t, docs, budget) && Collected(kept, sorted, |report|, report)
  }

  lemma OneMoreDecision(
    kept: seq<ContextItem>, remaining: int, report: seq<Decision>, sorted: seq<ContextItem>, t: Tools, docs: seq<Doc>,
    budget: int,
    d: Decision)
    requires Underway(kept, remaining, report, sorted, t, docs, budget)
    requires |report| < |docs| == |sorted| && Distinct(sorted) && d == Decide(t, docs[|report|], remaining)
    ensures d.strategy == Drop ==> Underway(kept, remaining, report + [d], sorted, t, docs, budget)
    ensures d.strategy != Drop ==>
      Underway(kept + [sorted[|report|]], remaining - d.tokensOut, report + [d], sorted, t, docs, budget)
  {
    ReportNext(report, remaining, t, docs, budget, d);
    CollectNext(kept, sorted, |report|, report, d);
  }

  lemma ReportDone(report: seq<Decision>, remaining: int, t: Tools, docs: seq<Doc>, budget: int)
    requires Reported(report, remaining, t, docs, budget) && |report| == |docs|
    ensures IsReport(report, t, docs, budget) && budget == TokensOut(report) + remaining
  {
    TokensConserved(report, t, docs, budget, |docs|);
    assert report[..|docs|] == report;
  }

  /** The budget loop over the items in priority order. */
  method DecideAll(t: Tools, sorted: seq<ContextItem>, budget: nat)
    returns (kept: seq<ContextItem>, remaining: int, report: seq<Decision>)
    requires Distinct(sorted)
    modifies sorted
    ensures IsReport(report, t, old(Values(sorted)), budget) && budget == TokensOut(report) + remaining
    ensures Collected(kept, sorted, |sorted|, report)
    ensures forall k | 0 <= k < |sorted| :: sorted[k].content == report[k].content
  {
    ghost var docs := Values(sorted);
    kept, remaining, report := [], budget, [];
    for k := 0 to |sorted|
      invariant |report| == k && Underway(kept, remaining, report, sorted, t, docs, budget)
      invariant forall j | 0 <= j < k :: sorted[j].content == report[j].content
      invariant forall j | k <= j < |sorted| :: sorted[j].Value() == docs[j]
    {
      var d := DecideItem(t, sorted, k, remaining);
      OneMoreDecision(kept, remaining, report, sorted, t, docs, budget, d);
      if d.strategy != Drop {
        kept := kept + [sorted[k]];
        remaining := remaining - d.tokensOut;
      }
      report := report + [d];
    }
    ReportDone(report, remaining, t, docs, budget);
  }

  /** The five stages on one item, in escalating order; the other items stay as they are. */
  method DecideItem(t: Tools, items: seq<ContextItem>, k: nat, remaining: int) returns (d: Decision)
    requires Distinct(items) && k < |items|
    modifies items[k]
    ensures d == Decide(t, old(items[k].Value()), remaining) && items[k].content == d.content
    ensures forall j | 0 <= j < |items| && j != k :: items[j].Value() == old(items[j].Value())
  {
    var item := items[k];
    var tokens := t.count(item.content);
    if tokens <= remaining {
      return Decision(Keep, tokens, tokens, item.content);
    }
    var stripped := t.strip(item.content, item.language);
    var strippedTokens := t.count(stripped);
    if strippedTokens <= remaining {
      item.content := stripped;
      return Decision(Strip, tokens, strippedTokens, stripped);
    }
    var folded := t.fold(stripped, item.language, item.keepSymbols);
    var foldedTokens := t.count(folded);
    if foldedTokens <= remaining {
      item.content := folded;
      return Decision(Fold, tokens, foldedTokens, folded);
    }
    if remaining >= MIN_TRUNCATE {
      var truncated := Truncated(t, folded, remaining);
      item.content := truncated;
      return Decision(Truncate, tokens, t.count(truncated), truncated);
    }
    d := Decision(Drop, tokens, 0, item.content);
  }
}
