/**
 The depth-bounded breadth-first search behind `ancestors_of` and `descendants_of`
 (omnicode/ast_engine/inheritance.py). Its specification is given by walks; the queue,
 which may hold a node several times, never appears in it.
 */
module Reachability {
  import opened Sequences

  type Adjacency = map<string, set<string>>

  /** `adj.get(x, set())` */
  function Next(adj: Adjacency, x: string): set<string> {
    if x in adj then adj[x] else {}
  }

  /** `p` is a walk from `a` to `b`; it has `|p| - 1` steps. */
  ghost predicate IsWalk(adj: Adjacency, p: seq<string>, a: string, b: string) {
    && |p| >= 1 && p[0] == a && p[|p| - 1] == b
    && forall i | 0 <= i < |p| - 1 :: p[i + 1] in Next(adj, p[i])
  }

  /** Some walk of exactly `n` steps leads from `a` to `b`. */
  ghost predicate Leads(adj: Adjacency, a: string, b: string, n: int) {
    exists p :: IsWalk(adj, p, a, b) && |p| == n + 1
  }

  /** Some walk of 1 to `depth` steps leads from `a` to `b`. */
  ghost predicate Within(adj: Adjacency, a: string, b: string, depth: int) {
    exists n :: 1 <= n <= depth && Leads(adj, a, b, n)
  }

  /** The first level is always explored, so a bound below 1 acts as 1. */
  function Bound(maxDepth: int): int {
    if maxDepth < 1 then 1 else maxDepth
  }

  /** Every node some edge points to; the search stays among them. */
  ghost function Targets(adj: Adjacency): set<string> {
    set x, y | x in adj && y in adj[x] :: y
  }

  lemma LeadsToTarget(adj: Adjacency, a: string, b: string, n: int)
    requires n >= 1 && Leads(adj, a, b, n)
    ensures b in Targets(adj)
  {
    var p :| IsWalk(adj, p, a, b) && |p| == n + 1;
    assert p[n - 1 + 1] in Next(adj, p[n - 1]);
  }

  lemma OneStep(adj: Adjacency, a: string, b: string)
    requires b in Next(adj, a)
    ensures Leads(adj, a, b, 1)
  {
    assert IsWalk(adj, [a, b], a, b);
  }

  lemma OneMoreStep(adj: Adjacency, a: string, b: string, c: string, n: int)
    requires Leads(adj, a, b, n) && c in Next(adj, b)
    ensures Leads(adj, a, c, n + 1)
  {
    var p :| IsWalk(adj, p, a, b) && |p| == n + 1;
    assert IsWalk(adj, p + [c], a, c);
  }

  // ------------------------------------------------------------ the search

  type Entry = (string, int)

  /** The FIFO order keeps queued depths sorted and spanning at most one level. */
  ghost predicate LevelOrdered(queue: seq<Entry>) {
    && (forall i, j | 0 <= i < j < |queue| :: queue[i].1 <= queue[j].1)
    && (forall i | 0 <= i < |queue| :: queue[i].1 <= queue[0].1 + 1)
  }

  /** `y` was popped at depth at most `k`, or waits in the queue at such a depth. */
  ghost predicate Covered(y: string, k: int, popped: map<string, int>, queue: seq<Entry>) {
    (y in popped && popped[y] <= k) || exists i :: 0 <= i < |queue| && queue[i].0 == y && queue[i].1 <= k
  }

  /** Queued and popped depths are lengths of walks, and what is queued comes no earlier than what was popped. */
  ghost predicate DepthsHold(adj: Adjacency, start: string, depth: int, popped: map<string, int>, queue: seq<Entry>) {
    && LevelOrdered(queue)
    && (forall i | 0 <= i < |queue| :: 1 <= queue[i].1 <= depth && Leads(adj, start, queue[i].0, queue[i].1))
    && (forall x | x in popped :: 1 <= popped[x] <= depth && Leads(adj, start, x, popped[x]))
    && (forall x, i | x in popped && 0 <= i < |queue| :: popped[x] <= queue[i].1)
  }

  /** The next nodes of the start and of every popped node are covered. */
  ghost predicate CoverageHolds(adj: Adjacency, start: string, depth: int, popped: map<string, int>,
      queue: seq<Entry>) {
    && (forall y | y in Next(adj, start) :: Covered(y, 1, popped, queue))
    && (forall x, y | x in popped && popped[x] < depth && y in Next(adj, x) :: Covered(y, popped[x] + 1, popped, queue))
  }

  /** What the loop of the search keeps: `popped` is the depth each seen node was popped at. */
  ghost predicate SearchInvariant(
    adj: Adjacency, start: string, depth: int, popped: map<string, int>, queue: seq<Entry>)
  {
    DepthsHold(adj, start, depth, popped, queue) && CoverageHolds(adj, start, depth, popped, queue)
  }

  /** The entries the inner `for` loop of the search appends: the unseen `nodes`, at `depth`. */
  ghost predicate Appends(added: seq<Entry>, nodes: set<string>, depth: int) {
    && (forall i | 0 <= i < |added| :: added[i].0 in nodes && added[i].1 == depth)
    && (forall x | x in nodes :: (x, depth) in added)
  }

  method Enqueue(queue: seq<Entry>, nodes: set<string>, seen: set<string>, depth: int)
    returns (q: seq<Entry>, ghost added: seq<Entry>)
    ensures q == queue + added && Appends(added, nodes - seen, depth)
  {
    q, added := queue, [];
    var todo := nodes;
    while todo != {}
      invariant todo <= nodes && q == queue + added
      invariant Appends(added, nodes - seen - todo, depth)
    {
      var x :| x in todo;
      todo := todo - {x};
      if x !in seen {
        q, added := q + [(x, depth)], added + [(x, depth)];
      }
    }
    assert nodes - seen - todo == nodes - seen;
  }

  /** Dropping a head that was seen before loses no coverage, because it was seen no deeper. */
  lemma SkipSeen(adj: Adjacency, start: string, depth: int, popped: map<string, int>, queue: seq<Entry>)
    requires SearchInvariant(adj, start, depth, popped, queue)
    requires queue != [] && queue[0].0 in popped
    ensures SearchInvariant(adj, start, depth, popped, queue[1..])
  {
    var rest := queue[1..];
    forall y, k | Covered(y, k, popped, queue)
      ensures Covered(y, k, popped, rest)
    {
      CoveredAfterPop(y, k, popped, popped, queue, rest);
    }
  }

  lemma CoveredAfterPop(
    y: string, k: int, popped: map<string, int>, popped': map<string, int>, queue: seq<Entry>, queue': seq<Entry>)
    requires Covered(y, k, popped, queue) && queue != []
    requires forall x | x in popped :: x in popped' && popped'[x] == popped[x]
    requires queue[0].0 in popped' && popped'[queue[0].0] <= queue[0].1
    requires queue[1..] <= queue'
    ensures Covered(y, k, popped', queue')
  {
    if !(y in popped && popped[y] <= k) {
      var i :| 0 <= i < |queue| && queue[i].0 == y && queue[i].1 <= k;
      if i > 0 {
        assert queue'[i - 1] == queue[1..][i - 1] == queue[i];
      }
    }
  }

  /** A first pop happens at the head's depth and puts the unseen successors one level below. */
  lemma PopFresh(
    adj: Adjacency, start: string, depth: int, popped: map<string, int>, queue: seq<Entry>,
    popped': map<string, int>, queue': seq<Entry>, added: seq<Entry>)
    requires SearchInvariant(adj, start, depth, popped, queue)
    requires queue != [] && queue[0].0 !in popped
    requires popped' == popped[queue[0].0 := queue[0].1]
    requires queue' == queue[1..] + added
    requires if queue[0].1 < depth
      then Appends(added, Next(adj, queue[0].0) - popped'.Keys, queue[0].1 + 1)
      else added == []
    ensures SearchInvariant(adj, start, depth, popped', queue')
  {
    DepthsAfterPop(adj, start, depth, popped, queue, popped', added);
    CoverageAfterPop(adj, start, depth, popped, queue, popped', added);
  }

  lemma DepthsAfterPop(
    adj: Adjacency, start: string, depth: int, popped: map<string, int>, queue: seq<Entry>,
    popped': map<string, int>, added: seq<Entry>)
    requires DepthsHold(adj, start, depth, popped, queue) && queue != []
    requires popped' == popped[queue[0].0 := queue[0].1]
    requires if queue[0].1 < depth
      then Appends(added, Next(adj, queue[0].0) - popped'.Keys, queue[0].1 + 1)
      else added == []
    ensures DepthsHold(adj, start, depth, popped', queue[1..] + added)
  {
    var (node, d) := queue[0];
    var queue' := queue[1..] + added;
    forall i | 0 <= i < |queue'|
      ensures 1 <= queue'[i].1 <= depth && Leads(adj, start, queue'[i].0, queue'[i].1)
      ensures d <= queue'[i].1 <= d + 1
    {
      if i >= |queue| - 1 {
        assert queue'[i] == added[i - (|queue| - 1)];
        OneMoreStep(adj, start, node, queue'[i].0, d);
      }
    }
  }

  lemma CoverageAfterPop(
    adj: Adjacency, start: string, depth: int, popped: map<string, int>, queue: seq<Entry>,
    popped': map<string, int>, added: seq<Entry>)
    requires CoverageHolds(adj, start, depth, popped, queue) && queue != [] && queue[0].0 !in popped
    requires forall x, i | x in popped && 0 <= i < |queue| :: popped[x] <= queue[i].1
    requires popped' == popped[queue[0].0 := queue[0].1]
    requires queue[0].1 < depth ==> Appends(added, Next(adj, queue[0].0) - popped'.Keys, queue[0].1 + 1)
    ensures CoverageHolds(adj, start, depth, popped', queue[1..] + added)
  {
    var (node, d) := queue[0];
    var queue' := queue[1..] + added;
    forall x, y | x in popped' && popped'[x] < depth && y in Next(adj, x)
      ensures Covered(y, popped'[x] + 1, popped', queue')
    {
      if x == node {
        if y !in popped' {
          assert (y, d + 1) in added;
          var i :| 0 <= i < |added| && added[i] == (y, d + 1);
          assert queue'[|queue| - 1 + i] == (y, d + 1);
        }
      } else {
        CoveredAfterPop(y, popped[x] + 1, popped, popped', queue, queue');
      }
    }
    forall y | y in Next(adj, start)
      ensures Covered(y, 1, popped', queue')
    {
      CoveredAfterPop(y, 1, popped, popped', queue, queue');
    }
  }

  /** The head is popped and the unseen nodes one level below it are queued, unless the bound is reached. */
  method Expand(
    adj: Adjacency, ghost start: string, queue: seq<Entry>, maxDepth: int, seen: set<string>,
    ghost popped: map<string, int>)
    returns (q: seq<Entry>, ghost popped': map<string, int>)
    requires SearchInvariant(adj, start, Bound(maxDepth), popped, queue)
    requires queue != [] && queue[0].0 !in popped && seen == popped.Keys + {queue[0].0}
    ensures popped' == popped[queue[0].0 := queue[0].1] && popped'.Keys == seen
    ensures SearchInvariant(adj, start, Bound(maxDepth), popped', q)
  {
    var (node, depth) := queue[0];
    popped' := popped[node := depth];
    ghost var added: seq<Entry> := [];
    q := queue[1..];
    if depth < maxDepth {
      q, added := Enqueue(q, Next(adj, node), seen, depth + 1);
    }
    assert q == queue[1..] + added;
    PopFresh(adj, start, Bound(maxDepth), popped, queue, popped', q, added);
  }

  lemma {:induction false} WalkIsPopped(
    adj: Adjacency, start: string, depth: int, popped: map<string, int>, p: seq<string>, i: int)
    requires SearchInvariant(adj, start, depth, popped, [])
    requires |p| >= 1 && IsWalk(adj, p, start, p[|p| - 1]) && 1 <= i < |p| && i <= depth
    ensures p[i] in popped && popped[p[i]] <= i
    decreases i
  {
    if i == 1 {
      assert p[1] in Next(adj, p[0]);
      assert Covered(p[1], 1, popped, []);
    } else {
      WalkIsPopped(adj, start, depth, popped, p, i - 1);
      assert p[i - 1 + 1] in Next(adj, p[i - 1]);
      assert Covered(p[i], popped[p[i - 1]] + 1, popped, []);
    }
  }

  /** A first pop lists one more node and leaves one node of `all` fewer unseen. */
  lemma FirstVisit(all: set<string>, popped: map<string, int>, node: string, d: int, out: seq<string>)
    requires node in all - popped.Keys && popped.Keys <= all && Lists(out, popped.Keys)
    ensures Lists(out + [node], popped.Keys + {node})
    ensures popped[node := d].Keys == popped.Keys + {node} <= all
    ensures |all - (popped.Keys + {node})| < |all - popped.Keys|
  {
    ListsSnoc(out, popped.Keys, node);
    var rest := all - (popped.Keys + {node});
    assert all - popped.Keys == rest + {node};
  }

  lemma SearchComplete(adj: Adjacency, start: string, depth: int, popped: map<string, int>)
    requires SearchInvariant(adj, start, depth, popped, [])
    ensures forall x :: x in popped <==> Within(adj, start, x, depth)
  {
    forall x | Within(adj, start, x, depth)
      ensures x in popped
    {
      var n :| 1 <= n <= depth && Leads(adj, start, x, n);
      var p :| IsWalk(adj, p, start, x) && |p| == n + 1;
      WalkIsPopped(adj, start, depth, popped, p, n);
    }
  }

  lemma SearchStart(adj: Adjacency, start: string, depth: int, queue: seq<Entry>)
    requires depth >= 1
    requires Appends(queue, Next(adj, start), 1)
    ensures SearchInvariant(adj, start, depth, map[], queue)
  {
    forall i | 0 <= i < |queue|
      ensures Leads(adj, start, queue[i].0, 1)
    {
      OneStep(adj, start, queue[i].0);
    }
    forall y | y in Next(adj, start)
      ensures Covered(y, 1, map[], queue)
    {
      assert (y, 1) in queue;
      var i :| 0 <= i < |queue| && queue[i] == (y, 1);
    }
  }

  /**
   The search terminates on every finite graph, cycles included, and lists exactly the
   nodes some walk of 1 to `max_depth` steps leads to, once each, in order.
   */
  method Bfs(start: string, adj: Adjacency, maxDepth: int) returns (r: seq<string>)
    ensures forall x :: x in r <==> Within(adj, start, x, Bound(maxDepth))
    ensures Distinct(r) && SortedBy(StringLe, r)
  {
    ghost var depth := Bound(maxDepth);
    ghost var nodes := Targets(adj);
    ghost var popped: map<string, int> := map[];
    var seen: set<string> := {};
    var out: seq<string> := [];
    var queue, added := Enqueue([], Next(adj, start), {}, 1);
    assert queue == added && Next(adj, start) - {} == Next(adj, start);
    SearchStart(adj, start, depth, queue);
    while queue != []
      invariant SearchInvariant(adj, start, depth, popped, queue)
      invariant seen == popped.Keys && seen <= nodes
      invariant Lists(out, seen)
      decreases |nodes - seen|, |queue|
    {
      var (node, d) := queue[0];
      if node in seen {
        SkipSeen(adj, start, depth, popped, queue);
        queue := queue[1..];
      } else {
        LeadsToTarget(adj, start, node, d);
        FirstVisit(nodes, popped, node, d, out);
        seen := seen + {node};
        out := out + [node];
        queue, popped := Expand(adj, start, queue, maxDepth, seen, popped);
      }
    }
    SearchComplete(adj, start, depth, popped);
    SortNames(out, seen);
    r := Sort(StringLe, out);
  }

  // ------------------------------------------------------------ the two directions

  ghost predicate Transposes(adj: Adjacency, back: Adjacency) {
    forall x, y :: y in Next(adj, x) <==> x in Next(back, y)
  }

  /** Walks reverse, so two transposed indexes answer mirrored queries at every bound. */
  lemma ReverseWithin(adj: Adjacency, back: Adjacency, a: string, b: string, depth: int)
    requires Transposes(adj, back)
    requires Within(adj, a, b, depth)
    ensures Within(back, b, a, depth)
  {
    var n :| 1 <= n <= depth && Leads(adj, a, b, n);
    var p :| IsWalk(adj, p, a, b) && |p| == n + 1;
    var q := seq(|p|, i requires 0 <= i < |p| => p[|p| - 1 - i]);
    forall i | 0 <= i < |q| - 1
      ensures q[i + 1] in Next(back, q[i])
    {
      var j := |p| - 2 - i;
      assert p[j + 1] in Next(adj, p[j]);
      assert q[i + 1] == p[j] && q[i] == p[j + 1];
    }
    assert IsWalk(back, q, b, a);
    assert Leads(back, b, a, n);
  }
}
