/** Reciprocal rank fusion (omnicode/search/hybrid_search.py), with exact sums. */
module HybridSearch {
  import opened Sequences

  datatype Item = Item(id: string, path: string, content: string, kind: string)

  datatype Ranked = Ranked(item: Item, score: real)

  function Weight(k: nat, rank: nat): real {
    1.0 / (k + rank + 1) as real
  }

  /** What one list contributes to `id`: the weight of each rank it occurs at. */
  function ListScore(list: seq<Item>, k: nat, id: string): real {
    if list == [] then 0.0
    else
      var n := |list| - 1;
      ListScore(list[..n], k, id) + if list[n].id == id then Weight(k, n) else 0.0
  }

  function Score(lists: seq<seq<Item>>, k: nat, id: string): real {
    if lists == [] then 0.0
    else Score(lists[..|lists| - 1], k, id) + ListScore(lists[|lists| - 1], k, id)
  }

  /** The item a list first shows under `id`. */
  function FirstIn(list: seq<Item>, id: string): (r: Option<Item>)
    ensures r.Some? ==> r.value.id == id && r.value in list
    ensures r.None? ==> forall item | item in list :: item.id != id
  {
    if list == [] then None
    else
      var n := |list| - 1;
      assert list == list[..n] + [list[n]];
      var r := FirstIn(list[..n], id);
      if r.Some? then r else if list[n].id == id then Some(list[n]) else None
  }

  function Or(a: Option<Item>, b: Option<Item>): Option<Item> {
    if a.Some? then a else b
  }

  /** The item first met under `id`, reading list after list. */
  function First(lists: seq<seq<Item>>, id: string): (r: Option<Item>)
    ensures r.Some? ==> r.value.id == id
  {
    if lists == [] then None
    else Or(First(lists[..|lists| - 1], id), FirstIn(lists[|lists| - 1], id))
  }

  /** The ids of a list, and those of all lists in reading order. */
  function Ids(list: seq<Item>): seq<string> {
    if list == [] then [] else Ids(list[..|list| - 1]) + [list[|list| - 1].id]
  }

  function AllIds(lists: seq<seq<Item>>): seq<string> {
    if lists == [] then [] else AllIds(lists[..|lists| - 1]) + Ids(lists[|lists| - 1])
  }

  /** The dictionaries `rrf_scores` and `items_dict` are right about `id` after `done` and a part of the next list. */
  ghost predicate RightAbout(
    scores: map<string, real>, items: map<string, Item>, done: seq<seq<Item>>, seen: seq<Item>, k: nat, id: string)
  {
    var first := Or(First(done, id), FirstIn(seen, id));
    var score := Score(done, k, id) + ListScore(seen, k, id);
    if first.Some? then id in scores && id in items && items[id] == first.value && scores[id] == score
    else id !in scores && id !in items && score == 0.0
  }

  /** Python dictionaries keep insertion order: `order` lists the keys. */
  ghost predicate Tallied(
    order: seq<string>, scores: map<string, real>, items: map<string, Item>, done: seq<seq<Item>>, seen: seq<Item>,
    k: nat)
  {
    Lists(order, scores.Keys) && forall id :: RightAbout(scores, items, done, seen, k, id)
  }

  /** The keys stand in the order in which they were first met. */
  ghost predicate Ordered(order: seq<string>, ids: seq<string>) {
    InOrder(order, ids) && forall id :: id in order <==> id in ids
  }

  lemma OneMoreId(order: seq<string>, done: seq<seq<Item>>, list: seq<Item>, rank: nat)
    requires rank < |list| && Ordered(order, AllIds(done) + Ids(list[..rank]))
    ensures var id := list[rank].id;
      Ordered(if id in order then order else order + [id], AllIds(done) + Ids(list[..rank + 1]))
  {
    var ids, id := AllIds(done) + Ids(list[..rank]), list[rank].id;
    assert list[..rank + 1][..rank] == list[..rank];
    ConcatAssociates(AllIds(done), Ids(list[..rank]), [id]);
    if id in order {
      InOrderMore(order, ids, id);
    } else {
      InOrderSnoc(order, ids, id);
    }
  }

  lemma NextIds(lists: seq<seq<Item>>, i: nat)
    requires i < |lists|
    ensures AllIds(lists[..i + 1]) == AllIds(lists[..i]) + Ids(lists[i])
  {
    assert lists[..i + 1][..i] == lists[..i];
  }

  lemma VoteFirst(
    order: seq<string>, scores: map<string, real>, items: map<string, Item>, done: seq<seq<Item>>, list: seq<Item>,
    rank: nat, k: nat)
    requires rank < |list| && Tallied(order, scores, items, done, list[..rank], k)
    requires list[rank].id !in scores
    ensures var item := list[rank];
      Tallied(order + [item.id], scores[item.id := Weight(k, rank)], items[item.id := item], done, list[..rank + 1], k)
  {
    var item := list[rank];
    var scores', items' := scores[item.id := Weight(k, rank)], items[item.id := item];
    var seen' := list[..rank + 1];
    assert seen'[..rank] == list[..rank];
    forall id
      ensures RightAbout(scores', items', done, seen', k, id)
    {
      assert RightAbout(scores, items, done, list[..rank], k, id);
    }
    ListsSnoc(order, scores.Keys, item.id);
    assert scores'.Keys == scores.Keys + {item.id};
  }

  lemma VoteAgain(
    order: seq<string>, scores: map<string, real>, items: map<string, Item>, done: seq<seq<Item>>, list: seq<Item>,
    rank: nat, k: nat)
    requires rank < |list| && Tallied(order, scores, items, done, list[..rank], k)
    requires list[rank].id in scores
    ensures var id := list[rank].id;
      Tallied(order, scores[id := scores[id] + Weight(k, rank)], items, done, list[..rank + 1], k)
  {
    var voted := list[rank].id;
    var scores' := scores[voted := scores[voted] + Weight(k, rank)];
    var seen' := list[..rank + 1];
    assert seen'[..rank] == list[..rank];
    forall id
      ensures RightAbout(scores', items, done, seen', k, id)
    {
      assert RightAbout(scores, items, done, list[..rank], k, id);
    }
    assert scores'.Keys == scores.Keys;
  }

  lemma NextList(order: seq<string>, scores: map<string, real>, items: map<string, Item>, lists: seq<seq<Item>>,
      i: nat, k: nat)
    requires i < |lists| && Tallied(order, scores, items, lists[..i], lists[i], k)
    ensures Tallied(order, scores, items, lists[..i + 1], [], k)
  {
    var done' := lists[..i + 1];
    assert done'[..i] == lists[..i];
    forall id
      ensures RightAbout(scores, items, done', [], k, id)
    {
      assert RightAbout(scores, items, lists[..i], lists[i], k, id);
    }
  }

  function Better(scores: map<string, real>): (string, string) -> bool {
    (a, b) => a in scores && b in scores && scores[a] >= scores[b]
  }

  /** Each id of the lists once, with its first item and the exact sum of its weights, best first. */
  ghost predicate Fused(results: seq<Ranked>, lists: seq<seq<Item>>, k: nat) {
    && (forall i, j | 0 <= i < j < |results| :: results[i].item.id != results[j].item.id)
    && (forall i, j | 0 <= i < j < |results| :: results[i].score >= results[j].score)
    && (forall i | 0 <= i < |results| ::
      First(lists, results[i].item.id) == Some(results[i].item) &&
      results[i].score == Score(lists, k, results[i].item.id))
    && (forall id | First(lists, id).Some? :: Listed(results, id))
  }

  /** Results of the same score stand in the order in which their ids were first met. */
  ghost predicate TiesByAppearance(results: seq<Ranked>, ids: seq<string>) {
    forall i, j | 0 <= i < j < |results| && results[i].score == results[j].score ::
      FirstAt(ids, results[i].item.id) < FirstAt(ids, results[j].item.id)
  }

  ghost predicate Listed(results: seq<Ranked>, id: string) {
    exists i :: 0 <= i < |results| && results[i].item.id == id
  }

  method Rrf(lists: seq<seq<Item>>, k: nat) returns (results: seq<Ranked>)
    ensures Fused(results, lists, k) && TiesByAppearance(results, AllIds(lists))
  {
    var order: seq<string> := [];
    var scores: map<string, real> := map[];
    var items: map<string, Item> := map[];
    for i := 0 to |lists|
      invariant Counted(order, scores, items, lists[..i], [], k)
    {
      order, scores, items := TallyList(order, scores, items, lists[..i], lists[i], k);
      CountedNext(order, scores, items, lists, i, k);
    }
    assert lists[..|lists|] == lists && AllIds(lists) + [] == AllIds(lists);
    results := RankAll(order, scores, items, lists, k);
    RankedTies(results, order, scores, AllIds(lists));
  }

  lemma CountedNext(
    order: seq<string>, scores: map<string, real>, items: map<string, Item>, lists: seq<seq<Item>>, i: nat, k: nat)
    requires i < |lists| && Counted(order, scores, items, lists[..i], lists[i], k)
    ensures Counted(order, scores, items, lists[..i + 1], [], k)
  {
    NextList(order, scores, items, lists, i, k);
    NextIds(lists, i);
    assert AllIds(lists[..i + 1]) + [] == AllIds(lists[..i + 1]);
  }

  /** The votes of one list. */
  method TallyList(
    order: seq<string>, scores: map<string, real>, items: map<string, Item>, ghost done: seq<seq<Item>>,
    list: seq<Item>, k: nat)
    returns (order': seq<string>, scores': map<string, real>, items': map<string, Item>)
    requires Counted(order, scores, items, done, [], k)
    ensures Counted(order', scores', items', done, list, k)
  {
    order', scores', items' := order, scores, items;
    assert list[..0] == [];
    for rank := 0 to |list|
      invariant Counted(order', scores', items', done, list[..rank], k)
    {
      order', scores', items' := Vote(order', scores', items', done, list, rank, k);
    }
    assert list[..|list|] == list;
  }

  lemma FromZero(scores: map<string, real>, id: string, weight: real)
    ensures var zeroed := scores[id := 0.0]; zeroed[id := zeroed[id] + weight] == scores[id := weight]
  {
  }

  /** What the loops keep, when `seen` of a list have been read after `done`. */
  ghost predicate Counted(
    order: seq<string>, scores: map<string, real>, items: map<string, Item>, done: seq<seq<Item>>, seen: seq<Item>,
    k: nat)
  {
    Tallied(order, scores, items, done, seen, k) && Ordered(order, AllIds(done) + Ids(seen))
  }

  lemma CountFirst(
    order: seq<string>, scores: map<string, real>, items: map<string, Item>, done: seq<seq<Item>>, list: seq<Item>,
    rank: nat, k: nat)
    requires rank < |list| && Counted(order, scores, items, done, list[..rank], k) && list[rank].id !in scores
    ensures var item := list[rank];
      Counted(order + [item.id], scores[item.id := Weight(k, rank)], items[item.id := item], done, list[..rank + 1], k)
  {
    VoteFirst(order, scores, items, done, list, rank, k);
    OneMoreId(order, done, list, rank);
    assert list[rank].id !in order;
  }

  lemma CountAgain(
    order: seq<string>, scores: map<string, real>, items: map<string, Item>, done: seq<seq<Item>>, list: seq<Item>,
    rank: nat, k: nat)
    requires rank < |list| && Counted(order, scores, items, done, list[..rank], k) && list[rank].id in scores
    ensures var id := list[rank].id;
      Counted(order, scores[id := scores[id] + Weight(k, rank)], items, done, list[..rank + 1], k)
  {
    VoteAgain(order, scores, items, done, list, rank, k);
    OneMoreId(order, done, list, rank);
    assert list[rank].id in order;
  }

  /** One vote: the first for an id enters it into both dictionaries. */
  method Vote(
    order: seq<string>, scores: map<string, real>, items: map<string, Item>, ghost done: seq<seq<Item>>,
    list: seq<Item>,
    rank: nat, k: nat)
    returns (order': seq<string>, scores': map<string, real>, items': map<string, Item>)
    requires rank < |list| && Counted(order, scores, items, done, list[..rank], k)
    ensures Counted(order', scores', items', done, list[..rank + 1], k)
  {
    var item := list[rank];
    if item.id !in scores {
      CountFirst(order, scores, items, done, list, rank, k);
      FromZero(scores, item.id, Weight(k, rank));
      var zeroed := scores[item.id := 0.0];
      return order + [item.id], zeroed[item.id := zeroed[item.id] + Weight(k, rank)], items[item.id := item];
    } else {
      CountAgain(order, scores, items, done, list, rank, k);
      return order, scores[item.id := scores[item.id] + Weight(k, rank)], items;
    }
  }

  /** Sorting the totals and looking their items up. */
  method RankAll(
    order: seq<string>, scores: map<string, real>, items: map<string, Item>, ghost lists: seq<seq<Item>>, ghost k: nat)
    returns (results: seq<Ranked>)
    requires Tallied(order, scores, items, lists, [], k)
    ensures Fused(results, lists, k) && AreRanked(results, Sort(Better(scores), order), scores)
  {
    var ranked := Sort(Better(scores), order);
    RankIds(order, scores);
    results := [];
    for i := 0 to |ranked|
      invariant |results| == i
      invariant forall j | 0 <= j < i ::
        ranked[j] in scores && ranked[j] in items && results[j] == Ranked(items[ranked[j]], scores[ranked[j]])
    {
      assert ranked[i] in ranked;
      assert RightAbout(scores, items, lists, [], k, ranked[i]);
      results := results + [Ranked(items[ranked[i]], scores[ranked[i]])];
    }
    Finish(results, ranked, scores, items, lists, k);
  }

  /** The results show these ids with their totals. */
  ghost predicate AreRanked(results: seq<Ranked>, ranked: seq<string>, scores: map<string, real>) {
    && |results| == |ranked|
    && forall i | 0 <= i < |ranked| ::
      ranked[i] in scores && results[i].item.id == ranked[i] && results[i].score == scores[ranked[i]]
  }

  lemma RankIds(order: seq<string>, scores: map<string, real>)
    requires Lists(order, scores.Keys)
    ensures SortedBy(Better(scores), Sort(Better(scores), order))
    ensures Lists(Sort(Better(scores), order), scores.Keys)
  {
    SortSorted(Better(scores), order);
    DistinctOfMultiset(order, Sort(Better(scores), order));
  }

  /** The stable sort leaves ids of the same score in their order. */
  lemma TiesInOrder(order: seq<string>, scores: map<string, real>, ids: seq<string>, i: nat, j: nat)
    requires InOrder(order, ids)
    requires var ranked := Sort(Better(scores), order);
      i < j < |ranked| && ranked[i] in scores && ranked[j] in scores && scores[ranked[i]] == scores[ranked[j]]
    ensures var ranked := Sort(Better(scores), order);
      FirstAt(ids, ranked[i]) < FirstAt(ids, ranked[j])
  {
    var ranked := Sort(Better(scores), order);
    var score := scores[ranked[i]];
    var tied := (id: string) => id in scores && scores[id] == score;
    SortStable(Better(scores), tied, order);
    FilterInOrder(tied, order, ids);
    OrderOfKept(tied, ranked, ids, i, j);
  }

  lemma RankedTies(results: seq<Ranked>, order: seq<string>, scores: map<string, real>, ids: seq<string>)
    requires InOrder(order, ids) && AreRanked(results, Sort(Better(scores), order), scores)
    ensures TiesByAppearance(results, ids)
  {
    forall i, j | 0 <= i < j < |results| && results[i].score == results[j].score
      ensures FirstAt(ids, results[i].item.id) < FirstAt(ids, results[j].item.id)
    {
      TiesInOrder(order, scores, ids, i, j);
    }
  }

  lemma Finish(
    results: seq<Ranked>, ranked: seq<string>, scores: map<string, real>, items: map<string, Item>,
    lists: seq<seq<Item>>, k: nat)
    requires forall id :: RightAbout(scores, items, lists, [], k, id)
    requires Lists(ranked, scores.Keys) && SortedBy(Better(scores), ranked)
    requires |results| == |ranked|
    requires forall i | 0 <= i < |ranked| ::
      ranked[i] in scores && ranked[i] in items && results[i] == Ranked(items[ranked[i]], scores[ranked[i]])
    ensures Fused(results, lists, k) && AreRanked(results, ranked, scores)
  {
    forall i | 0 <= i < |results|
      ensures results[i].item.id == ranked[i]
      ensures First(lists, ranked[i]) == Some(results[i].item) && results[i].score == Score(lists, k, ranked[i])
    {
      assert RightAbout(scores, items, lists, [], k, ranked[i]);
    }
    forall i, j | 0 <= i < j < |results|
      ensures results[i].score >= results[j].score
    {
      assert Better(scores)(ranked[i], ranked[j]);
    }
    forall id | First(lists, id).Some?
      ensures Listed(results, id)
    {
      assert RightAbout(scores, items, lists, [], k, id);
      assert id in ranked;
      var i :| 0 <= i < |ranked| && ranked[i] == id;
      assert results[i].item.id == id;
    }
  }

  // ------------------------------------------------------------ why fusion helps

  ghost predicate DistinctItems(list: seq<Item>) {
    forall i, j | 0 <= i < j < |list| :: list[i].id != list[j].id
  }

  /** A list gives the item at a rank, counted from 0, the reciprocal of `k` and its place. */
  lemma {:induction false} ScoreAt(list: seq<Item>, k: nat, rank: nat)
    requires DistinctItems(list) && rank < |list|
    ensures ListScore(list, k, list[rank].id) == Weight(k, rank) == 1.0 / (k + rank + 1) as real
  {
    var n := |list| - 1;
    if rank == n {
      ScoreAbsent(list[..n], k, list[rank].id);
    } else {
      ScoreAt(list[..n], k, rank);
    }
  }

  lemma {:induction false} ScoreAbsent(list: seq<Item>, k: nat, id: string)
    requires forall i | 0 <= i < |list| :: list[i].id != id
    ensures ListScore(list, k, id) == 0.0
  {
    if list != [] {
      ScoreAbsent(list[..|list| - 1], k, id);
    }
  }

  lemma WeightFalls(k: nat, low: nat, high: nat)
    requires low <= high
    ensures Weight(k, low) >= Weight(k, high) > 0.0
  {
    var x, y := (k + low + 1) as real, (k + high + 1) as real;
    assert 1.0 / x - 1.0 / y == (y - x) / (x * y);
  }

  /** The score of an item over two lists, by its rank in each; None where it is absent. */
  lemma PairScore(a: seq<Item>, b: seq<Item>, k: nat, id: string)
    ensures Score([a, b], k, id) == ListScore(a, k, id) + ListScore(b, k, id)
  {
    assert [a, b][..1] == [a] && [a][..0] == [];
    assert Score([a], k, id) == Score([], k, id) + ListScore(a, k, id);
    assert Score([a, b], k, id) == Score([a], k, id) + ListScore(b, k, id);
  }

  lemma EvenVotes(k: nat)
    ensures Weight(k, k + 1) + Weight(k, k + 1) == Weight(k, 0)
  {
    var x := (k + 1) as real;
    assert (k + (k + 1) + 1) as real == 2.0 * x;
    assert 1.0 / (2.0 * x) + 1.0 / (2.0 * x) == 1.0 / x;
  }

  /**
   Agreement beats a single vote: an item both rankings place at ranks up to `k + 1` scores
   at least as high as any item only one of them lists.
   */
  lemma BothBeatsOne(a: seq<Item>, b: seq<Item>, k: nat, i: nat, j: nat, other: string)
    requires DistinctItems(a) && DistinctItems(b)
    requires i < |a| && j < |b| && a[i].id == b[j].id
    requires i <= k + 1 && j <= k + 1
    requires (forall r | 0 <= r < |a| :: a[r].id != other) || (forall r | 0 <= r < |b| :: b[r].id != other)
    ensures Score([a, b], k, a[i].id) >= Score([a, b], k, other)
  {
    PairScore(a, b, k, a[i].id);
    PairScore(a, b, k, other);
    ScoreAt(a, k, i);
    ScoreAt(b, k, j);
    WeightFalls(k, i, k + 1);
    WeightFalls(k, j, k + 1);
    EvenVotes(k);
    AtMostOneVote(a, k, other);
    AtMostOneVote(b, k, other);
    if forall r | 0 <= r < |a| :: a[r].id != other {
      ScoreAbsent(a, k, other);
    } else {
      ScoreAbsent(b, k, other);
    }
  }

  lemma AtMostOneVote(list: seq<Item>, k: nat, id: string)
    requires DistinctItems(list)
    ensures 0.0 <= ListScore(list, k, id) <= Weight(k, 0)
  {
    if r :| 0 <= r < |list| && list[r].id == id {
      ScoreAt(list, k, r);
      WeightFalls(k, 0, r);
    } else {
      ScoreAbsent(list, k, id);
      WeightFalls(k, 0, 0);
    }
  }

  lemma LateVotes(k: nat)
    ensures Weight(k, k + 2) + Weight(k, k + 2) < Weight(k, 0)
  {
    var x := (k + 1) as real;
    assert (k + (k + 2) + 1) as real == 2.0 * x + 1.0;
    assert 1.0 / (2.0 * x + 1.0) + 1.0 / (2.0 * x + 1.0) < 1.0 / x by {
      var y := 2.0 * x + 1.0;
      assert 1.0 / x - 2.0 / y == (y - 2.0 * x) / (x * y);
    }
  }

  /** One rank later that no longer holds: an item at rank `k + 2` of both lists scores below the head of one. */
  lemma RankBoundIsTight(a: seq<Item>, b: seq<Item>, k: nat)
    requires DistinctItems(a) && DistinctItems(b) && k + 2 < |a| && k + 2 < |b| && a[k + 2].id == b[k + 2].id
    ensures Score([a, b], k, a[k + 2].id) < Score([a, b], k, a[0].id)
  {
    PairScore(a, b, k, a[k + 2].id);
    PairScore(a, b, k, a[0].id);
    ScoreAt(a, k, k + 2);
    ScoreAt(b, k, k + 2);
    ScoreAt(a, k, 0);
    AtMostOneVote(b, k, a[0].id);
    LateVotes(k);
  }
}
