/**
 The incremental edge graph. `CallGraph` (omnicode/ast_engine/graph.py) and
 `InheritanceGraph` (omnicode/ast_engine/inheritance.py) run the same code over
 (caller, callee) and (subclass, base) pairs, so one class stands for both.
 */
module CodeGraph {
  import opened Sequences
  import opened Reachability

  datatype Edge = Edge(source: string, target: string, kind: string, line: int, file: Option<string>, language: string)

  // ------------------------------------------------------------ what the indexes mean

  function Ends(edges: seq<Edge>, x: string): set<string> {
    set e | e in edges && e.source == x :: e.target
  }

  function Origins(edges: seq<Edge>, y: string): set<string> {
    set e | e in edges && e.target == y :: e.source
  }

  /** `index` maps each source of an edge to the targets of its edges. */
  ghost predicate IsOutIndex(index: Adjacency, edges: seq<Edge>) {
    && index.Keys == (set e | e in edges :: e.source)
    && forall x | x in index :: index[x] == Ends(edges, x)
  }

  ghost predicate IsInIndex(index: Adjacency, edges: seq<Edge>) {
    && index.Keys == (set e | e in edges :: e.target)
    && forall y | y in index :: index[y] == Origins(edges, y)
  }

  /** The file an edge is filed under: none for a missing or empty path. */
  function FileOf(abspath: string -> string, e: Edge): Option<string> {
    if e.file.Some? && e.file.value != "" then Some(abspath(e.file.value)) else None
  }

  function Positions(abspath: string -> string, edges: seq<Edge>, f: string): set<nat> {
    set i: nat | i < |edges| && FileOf(abspath, edges[i]) == Some(f)
  }

  /** `_by_file` holds exactly the positions of each file's edges, and no empty entry. */
  ghost predicate IsFileIndex(abspath: string -> string, index: map<string, set<nat>>, edges: seq<Edge>) {
    && (forall f | f in index :: index[f] == Positions(abspath, edges, f) && index[f] != {})
    && (forall i | 0 <= i < |edges| && FileOf(abspath, edges[i]).Some? :: FileOf(abspath, edges[i]).value in index)
  }

  function NotFrom(abspath: string -> string, f: string): Edge -> bool {
    (e: Edge) => FileOf(abspath, e) != Some(f)
  }

  /** The edges that survive dropping a file, in their old order. */
  function Without(abspath: string -> string, edges: seq<Edge>, f: string): seq<Edge> {
    Filter(NotFrom(abspath, f), edges)
  }

  /** `index[x].add(y)` on a defaultdict. */
  function AddTo(index: Adjacency, x: string, y: string): Adjacency {
    index[x := Next(index, x) + {y}]
  }

  lemma OutIndexSnoc(index: Adjacency, edges: seq<Edge>, e: Edge)
    requires IsOutIndex(index, edges)
    ensures IsOutIndex(AddTo(index, e.source, e.target), edges + [e])
  {
    var grown := AddTo(index, e.source, e.target);
    assert forall e' :: e' in edges + [e] <==> e' in edges || e' == e;
    assert grown.Keys == (set e' | e' in edges + [e] :: e'.source);
    forall x | x in grown
      ensures grown[x] == Ends(edges + [e], x)
    {
      assert Next(index, x) == Ends(edges, x);
    }
  }

  lemma InIndexSnoc(index: Adjacency, edges: seq<Edge>, e: Edge)
    requires IsInIndex(index, edges)
    ensures IsInIndex(AddTo(index, e.target, e.source), edges + [e])
  {
    var grown := AddTo(index, e.target, e.source);
    assert forall e' :: e' in edges + [e] <==> e' in edges || e' == e;
    assert grown.Keys == (set e' | e' in edges + [e] :: e'.target);
    forall y | y in grown
      ensures grown[y] == Origins(edges + [e], y)
    {
      assert Next(index, y) == Origins(edges, y);
    }
  }

  /** `_by_file[f].add(i)` on a defaultdict. */
  function FileUnder(index: map<string, set<nat>>, f: string, i: nat): map<string, set<nat>> {
    index[f := (if f in index then index[f] else {}) + {i}]
  }

  lemma FileIndexSnoc(abspath: string -> string, index: map<string, set<nat>>, edges: seq<Edge>, e: Edge)
    requires IsFileIndex(abspath, index, edges)
    ensures IsFileIndex(abspath,
      (if FileOf(abspath, e).Some? then FileUnder(index, FileOf(abspath, e).value, |edges|) else index), edges + [e])
  {
    var home := FileOf(abspath, e);
    var grown := if home.Some? then FileUnder(index, home.value, |edges|) else index;
    assert (edges + [e])[|edges|] == e;
    forall f
      ensures Positions(abspath, edges + [e], f)
        == Positions(abspath, edges, f) + if home == Some(f) then {|edges|} else {}
    {
      assert forall i: nat | i < |edges| :: (edges + [e])[i] == edges[i];
    }
    forall f | f !in index
      ensures Positions(abspath, edges, f) == {}
    {
    }
  }

  // ------------------------------------------------------------ compaction

  /**
   `renumber` sends each kept position of `edges` to its position in `kept`: the
   dictionary `old_to_new` of `remove_file`.
   */
  ghost predicate Renumbers(renumber: map<nat, nat>, p: Edge -> bool, edges: seq<Edge>, kept: seq<Edge>) {
    && (forall i | i in renumber :: i < |edges| && p(edges[i]) && renumber[i] < |kept| && kept[renumber[i]] == edges[i])
    && (forall i | 0 <= i < |edges| && p(edges[i]) :: i in renumber)
    && (forall j: nat | j < |kept| :: j in renumber.Values)
    && (forall i, j | i in renumber && j in renumber && i < j :: renumber[i] < renumber[j])
  }

  lemma RenumberSnoc(renumber: map<nat, nat>, p: Edge -> bool, edges: seq<Edge>, kept: seq<Edge>, e: Edge)
    requires Renumbers(renumber, p, edges, kept)
    ensures p(e) ==> Renumbers(renumber[|edges| := |kept|], p, edges + [e], kept + [e])
    ensures !p(e) ==> Renumbers(renumber, p, edges + [e], kept)
  {
    if p(e) {
      var grown := renumber[|edges| := |kept|];
      assert |edges| !in renumber;
      assert grown[|edges|] == |kept|;
      forall j: nat | j < |kept + [e]|
        ensures j in grown.Values
      {
        if j < |kept| {
          assert j in renumber.Values;
          var i :| i in renumber && renumber[i] == j;
          assert grown[i] == j;
        }
      }
    }
  }

  /** Translating a file's positions through the renumbering gives its positions after compaction. */
  lemma TranslatePositions(
    abspath: string -> string, renumber: map<nat, nat>, p: Edge -> bool, edges: seq<Edge>, kept: seq<Edge>, f: string)
    requires Renumbers(renumber, p, edges, kept)
    ensures (set i | i in Positions(abspath, edges, f) && i in renumber :: renumber[i]) == Positions(abspath, kept, f)
  {
    var translated := set i | i in Positions(abspath, edges, f) && i in renumber :: renumber[i];
    forall j | j in Positions(abspath, kept, f)
      ensures j in translated
    {
      assert j in renumber.Values;
      var i :| i in renumber && renumber[i] == j;
      assert i in Positions(abspath, edges, f);
    }
  }

  // ------------------------------------------------------------ the graph

  class EdgeGraph {
    const abspath: string -> string
    var edges: seq<Edge>
    var outIndex: Adjacency
    var inIndex: Adjacency
    var byFile: map<string, set<nat>>

    /** The three indexes are functions of the edge list. */
    ghost predicate Valid()
      reads this
    {
      && IsOutIndex(outIndex, edges)
      && IsInIndex(inIndex, edges)
      && IsFileIndex(abspath, byFile, edges)
    }

    constructor (abspath: string -> string)
      ensures Valid() && edges == [] && this.abspath == abspath
    {
      this.abspath := abspath;
      edges, outIndex, inIndex, byFile := [], map[], map[], map[];
    }

    method AddEdge(e: Edge)
      requires Valid()
      modifies this
      ensures Valid() && edges == old(edges) + [e]
    {
      var i := |edges|;
      OutIndexSnoc(outIndex, edges, e);
      InIndexSnoc(inIndex, edges, e);
      FileIndexSnoc(abspath, byFile, edges, e);
      edges := edges + [e];
      outIndex := AddTo(outIndex, e.source, e.target);
      inIndex := AddTo(inIndex, e.target, e.source);
      if e.file.Some? && e.file.value != "" {
        byFile := FileUnder(byFile, abspath(e.file.value), i);
      }
    }

    /** `callees_of` and `base_classes_of` */
    method TargetsOf(symbol: string) returns (r: seq<string>)
      requires Valid()
      ensures IsSortedList(r, Ends(edges, symbol))
    {
      assert Next(outIndex, symbol) == Ends(edges, symbol);
      r := SortedNames(Next(outIndex, symbol));
    }

    /** `callers_of` and `subclasses_of` */
    method SourcesOf(symbol: string) returns (r: seq<string>)
      requires Valid()
      ensures IsSortedList(r, Origins(edges, symbol))
    {
      assert Next(inIndex, symbol) == Origins(edges, symbol);
      r := SortedNames(Next(inIndex, symbol));
    }

    method AncestorsOf(symbol: string, maxDepth: int) returns (r: seq<string>)
      ensures forall x :: x in r <==> Within(outIndex, symbol, x, Bound(maxDepth))
      ensures Distinct(r) && SortedBy(StringLe, r)
    {
      r := Bfs(symbol, outIndex, maxDepth);
    }

    method DescendantsOf(symbol: string, maxDepth: int) returns (r: seq<string>)
      ensures forall x :: x in r <==> Within(inIndex, symbol, x, Bound(maxDepth))
      ensures Distinct(r) && SortedBy(StringLe, r)
    {
      r := Bfs(symbol, inIndex, maxDepth);
    }

    /** Drops the edges of one file and renumbers what is left. */
    method RemoveFile(path: string) returns (removed: nat)
      requires Valid()
      modifies this
      ensures Valid() && edges == Without(abspath, old(edges), abspath(path))
      ensures removed == |Positions(abspath, old(edges), abspath(path))|
    {
      var f := abspath(path);
      assert f !in byFile ==> Positions(abspath, edges, f) == {};
      var indices := if f in byFile then byFile[f] else {};
      var others := byFile - {f};
      removed := |indices|;
      if indices == {} {
        KeepAll(abspath, edges, f);
        NotFiled(abspath, byFile, edges, f);
        byFile := others;
        return;
      }
      var keep := MaskOut(|edges|, indices);
      var kept, renumber := Compact(abspath, f, edges, keep);
      ghost var before := edges;
      edges := kept;
      outIndex, inIndex := BuildIndexes(kept);
      byFile := Renumber(abspath, f, renumber, before, kept, others);
    }
  }

  // ------------------------------------------------------------ the loops of `remove_file`

  /** With no position filed under `f`, dropping `f` changes nothing. */
  lemma KeepAll(abspath: string -> string, edges: seq<Edge>, f: string)
    requires Positions(abspath, edges, f) == {}
    ensures Without(abspath, edges, f) == edges
  {
    forall i | 0 <= i < |edges|
      ensures NotFrom(abspath, f)(edges[i])
    {
      assert i !in Positions(abspath, edges, f);
    }
    FilterAll(NotFrom(abspath, f), edges);
  }

  lemma NotFiled(abspath: string -> string, index: map<string, set<nat>>, edges: seq<Edge>, f: string)
    requires IsFileIndex(abspath, index, edges) && Positions(abspath, edges, f) == {}
    ensures index - {f} == index
  {
    assert f !in index;
  }

  method MaskOut(n: nat, indices: set<nat>) returns (keep: seq<bool>)
    ensures |keep| == n && forall i | 0 <= i < n :: keep[i] <==> i !in indices
  {
    keep := seq(n, _ => true);
    var todo := indices;
    while todo != {}
      invariant todo <= indices
      invariant |keep| == n && forall i | 0 <= i < n :: keep[i] <==> i !in indices - todo
    {
      var i :| i in todo;
      todo := todo - {i};
      if i < |keep| {
        keep := keep[i := false];
      }
    }
  }

  lemma OneMoreEdge(renumber: map<nat, nat>, p: Edge -> bool, edges: seq<Edge>, i: nat, kept: seq<Edge>)
    requires i < |edges| && kept == Filter(p, edges[..i]) && Renumbers(renumber, p, edges[..i], kept)
    ensures Filter(p, edges[..i + 1]) == if p(edges[i]) then kept + [edges[i]] else kept
    ensures p(edges[i]) ==> Renumbers(renumber[i := |kept|], p, edges[..i + 1], kept + [edges[i]])
    ensures !p(edges[i]) ==> Renumbers(renumber, p, edges[..i + 1], kept)
  {
    assert edges[..i + 1] == edges[..i] + [edges[i]];
    FilterAppend(p, edges[..i], [edges[i]]);
    RenumberSnoc(renumber, p, edges[..i], kept, edges[i]);
  }

  method Compact(abspath: string -> string, ghost f: string, edges: seq<Edge>, keep: seq<bool>)
    returns (kept: seq<Edge>, renumber: map<nat, nat>)
    requires |keep| == |edges| && forall i | 0 <= i < |edges| :: keep[i] <==> FileOf(abspath, edges[i]) != Some(f)
    ensures kept == Without(abspath, edges, f)
    ensures Renumbers(renumber, NotFrom(abspath, f), edges, kept)
  {
    ghost var p := NotFrom(abspath, f);
    kept, renumber := [], map[];
    for i := 0 to |edges|
      invariant kept == Filter(p, edges[..i])
      invariant Renumbers(renumber, p, edges[..i], kept)
    {
      OneMoreEdge(renumber, p, edges, i, kept);
      if keep[i] {
        renumber := renumber[i := |kept|];
        kept := kept + [edges[i]];
      }
    }
    assert edges[..|edges|] == edges;
  }

  method BuildIndexes(edges: seq<Edge>) returns (outIndex: Adjacency, inIndex: Adjacency)
    ensures IsOutIndex(outIndex, edges) && IsInIndex(inIndex, edges)
  {
    outIndex, inIndex := map[], map[];
    for i := 0 to |edges|
      invariant IsOutIndex(outIndex, edges[..i]) && IsInIndex(inIndex, edges[..i])
    {
      var e := edges[i];
      assert edges[..i + 1] == edges[..i] + [e];
      OutIndexSnoc(outIndex, edges[..i], e);
      InIndexSnoc(inIndex, edges[..i], e);
      outIndex := AddTo(outIndex, e.source, e.target);
      inIndex := AddTo(inIndex, e.target, e.source);
    }
    assert edges[..|edges|] == edges;
  }

  method Renumber(
    abspath: string -> string, ghost f: string, renumber: map<nat, nat>,
    ghost edges: seq<Edge>, ghost kept: seq<Edge>, others: map<string, set<nat>>)
    returns (byFile: map<string, set<nat>>)
    requires Renumbers(renumber, NotFrom(abspath, f), edges, kept)
    requires f !in others
    requires forall g | g in others :: others[g] == Positions(abspath, edges, g)
    requires forall i | 0 <= i < |edges| && FileOf(abspath, edges[i]).Some? && FileOf(abspath, edges[i]).value != f ::
      FileOf(abspath, edges[i]).value in others
    ensures IsFileIndex(abspath, byFile, kept)
  {
    byFile := map[];
    var todo := others.Keys;
    while todo != {}
      invariant todo <= others.Keys
      invariant forall g | g in byFile :: byFile[g] == Positions(abspath, kept, g) && byFile[g] != {}
      invariant forall g | g in others && g !in todo && Positions(abspath, kept, g) != {} :: g in byFile
    {
      var g :| g in todo;
      todo := todo - {g};
      var translated := set i | i in others[g] && i in renumber :: renumber[i];
      TranslatePositions(abspath, renumber, NotFrom(abspath, f), edges, kept, g);
      if translated != {} {
        byFile := byFile[g := translated];
      }
    }
    forall j | 0 <= j < |kept| && FileOf(abspath, kept[j]).Some?
      ensures FileOf(abspath, kept[j]).value in byFile
    {
      var g := FileOf(abspath, kept[j]).value;
      assert j in renumber.Values;
      var i :| i in renumber && renumber[i] == j;
      assert FileOf(abspath, edges[i]) == Some(g) && g != f;
      assert j in Positions(abspath, kept, g);
    }
  }

  // ------------------------------------------------------------ mirrored answers

  /** In every valid graph `b` is an ancestor of `a` exactly when `a` is a descendant of `b`. */
  lemma AncestorsMirrorDescendants(graph: EdgeGraph, a: string, b: string, maxDepth: int)
    requires graph.Valid()
    ensures Within(graph.outIndex, a, b, Bound(maxDepth)) <==> Within(graph.inIndex, b, a, Bound(maxDepth))
  {
    IndexesTranspose(graph.outIndex, graph.inIndex, graph.edges);
    if Within(graph.outIndex, a, b, Bound(maxDepth)) {
      ReverseWithin(graph.outIndex, graph.inIndex, a, b, Bound(maxDepth));
    }
    if Within(graph.inIndex, b, a, Bound(maxDepth)) {
      ReverseWithin(graph.inIndex, graph.outIndex, b, a, Bound(maxDepth));
    }
  }

  lemma IndexesTranspose(outIndex: Adjacency, inIndex: Adjacency, edges: seq<Edge>)
    requires IsOutIndex(outIndex, edges) && IsInIndex(inIndex, edges)
    ensures Transposes(outIndex, inIndex) && Transposes(inIndex, outIndex)
  {
    forall x, y
      ensures y in Next(outIndex, x) <==> x in Next(inIndex, y)
    {
      assert Next(outIndex, x) == Ends(edges, x);
      assert Next(inIndex, y) == Origins(edges, y);
      if y in Ends(edges, x) {
        var e :| e in edges && e.source == x && e.target == y;
        assert x in Origins(edges, y);
      }
      if x in Origins(edges, y) {
        var e :| e in edges && e.source == x && e.target == y;
        assert y in Ends(edges, x);
      }
    }
  }
}
