/**
 Building a graph and keeping it current file by file: `CallGraphBuilder` and
 `InheritanceGraphBuilder`. The main results say what any run of `update_file` calls ends in,
 and exactly when that is the graph a build on the current files would give.
 */
module GraphBuilder {
  import opened Sequences
  import opened Reachability
  import opened CodeGraph

  /** What the disk shows at a path when it is indexed. */
  datatype FileState = Missing | Unreadable | Readable(content: string)

  /** A (source, target, kind, line) tuple found by an extractor. */
  datatype Raw = Raw(source: string, target: string, kind: string, line: int)

  datatype Mode = Calls | Inheritance

  /** One `update_file` call: the path as the caller spelled it and what the disk held. */
  datatype Event = Event(path: string, state: FileState)

  /** A file met in a directory walk: its bare name, and its full path with what the disk held. */
  datatype FileNode = FileNode(name: string, ev: Event)

  /** A directory: its bare name, its files and its subdirectories, as `os.walk` lists them. */
  datatype Folder = Folder(name: string, files: seq<FileNode>, subs: seq<Folder>)

  /** An argument of `build_for_paths`. */
  datatype Root = NoPath | File(ev: Event) | Directory(folder: Folder)

  const SKIP_DIRS: set<string> := {"node_modules", "__pycache__", ".venv", "venv", ".git", "dist", "build", "target"}

  predicate Pruned(dir: string) {
    dir in SKIP_DIRS || (dir != "" && dir[0] == '.')
  }

  /** The first `n` elements, none for a number below 1. */
  function Take<T>(xs: seq<T>, n: int): seq<T> {
    if n <= 0 then [] else if n < |xs| then xs[..n] else xs
  }

  lemma TakeMore<T>(xs: seq<T>, ys: seq<T>, n: int)
    ensures Take(Take(xs, n) + ys, n) == Take(xs + ys, n)
    ensures n <= 0 || |xs| >= n ==> Take(xs + ys, n) == Take(xs, n)
    ensures |Take(xs, n)| >= n ==> Take(xs + ys, n) == Take(xs, n)
  {
  }

  lemma TakePrefix<T>(xs: seq<T>, all: seq<T>, n: int)
    requires xs <= all && |Take(xs, n)| >= n
    ensures Take(all, n) == Take(xs, n)
  {
  }

  lemma TakeOneMore<T>(xs: seq<T>, x: T, n: int)
    requires |Take(xs, n)| < n
    ensures Take(xs + [x], n) == Take(xs, n) + [x]
  {
  }

  /**
   The environment of a builder: how paths become absolute, which language a suffix selects,
   which names a directory walk takes up, and the extractor, which gives None when it raises.
   */
  datatype Builder = Builder(
    mode: Mode, abspath: string -> string, language: string -> Option<string>, wanted: string -> bool,
    extract: (string, string) -> Option<seq<Raw>>)
  {
    /** The inheritance builder skips a tuple with an empty end; the call builder does not. */
    predicate Accepts(raw: Raw) {
      mode == Calls || (raw.source != "" && raw.target != "")
    }

    function EdgesOfRaws(raws: seq<Raw>, path: Option<string>, lang: string): (r: seq<Edge>)
      ensures forall e | e in r :: e.file == path
    {
      if raws == [] then []
      else
        (if !Accepts(raws[0]) then []
         else [Edge(raws[0].source, raws[0].target, raws[0].kind, raws[0].line, path, lang)])
        + EdgesOfRaws(raws[1..], path, lang)
    }

    /** The edges of a text in a language, under any path or none. */
    function EdgesOfContent(content: string, lang: string, path: Option<string>): (r: seq<Edge>)
      ensures forall e | e in r :: e.file == path
    {
      var raws := extract(content, lang);
      if raws.None? then [] else EdgesOfRaws(raws.value, path, lang)
    }

    /** The edges one file contributes. */
    function EdgesOf(ev: Event): (r: seq<Edge>)
      ensures forall e | e in r :: ev.path != "" && e.file == Some(ev.path)
    {
      if ev.path == "" || !ev.state.Readable? || language(ev.path).None? then []
      else EdgesOfContent(ev.state.content, language(ev.path).value, Some(ev.path))
    }

    // ---------------------------------------------------------- the edge list of a run

    /** `update_file`: drop the file's edges, then append what it holds now. */
    function Update(edges: seq<Edge>, ev: Event): seq<Edge> {
      Without(abspath, edges, abspath(ev.path)) + EdgesOf(ev)
    }

    /** The edges after a run of updates of a graph. */
    function RunFrom(edges: seq<Edge>, events: seq<Event>): seq<Edge> {
      if events == [] then edges
      else Update(RunFrom(edges, events[..|events| - 1]), events[|events| - 1])
    }

    /** The edges after a run of updates on an empty graph. */
    function Run(events: seq<Event>): seq<Edge> {
      RunFrom([], events)
    }

    /** The edges a build from scratch lists, file after file. */
    function Rebuild(files: seq<Event>): seq<Edge> {
      if files == [] then []
      else Rebuild(files[..|files| - 1]) + EdgesOf(files[|files| - 1])
    }

    /** The last update that touched the file at absolute path `f`. */
    function Latest(events: seq<Event>, f: string): Option<Event> {
      if events == [] then None
      else if abspath(events[|events| - 1].path) == f then Some(events[|events| - 1])
      else Latest(events[..|events| - 1], f)
    }

    ghost predicate OneSpellingPerFile(files: seq<Event>) {
      forall i, j | 0 <= i < j < |files| :: abspath(files[i].path) != abspath(files[j].path)
    }

    /** `files` are the files the updates leave behind, in any order; a vanished file may be listed or not. */
    ghost predicate ListsCurrent(files: seq<Event>, events: seq<Event>) {
      && OneSpellingPerFile(files)
      && (forall ev | ev in files :: Latest(events, abspath(ev.path)) == Some(ev))
      && (forall ev | ev in events && Latest(events, abspath(ev.path)) == Some(ev) && ev.state != Missing ::
        ev in files)
    }

    /** The last update of every file that was updated. */
    function Current(events: seq<Event>): seq<Event> {
      if events == [] then []
      else
        var n := |events| - 1;
        Filter(Elsewhere(events[n]), Current(events[..n])) + [events[n]]
    }

    function Elsewhere(last: Event): Event -> bool {
      (ev: Event) => abspath(ev.path) != abspath(last.path)
    }

    function FromFile(f: string): Edge -> bool {
      (e: Edge) => FileOf(abspath, e) == Some(f)
    }

    function EdgesFrom(f: string, edges: seq<Edge>): seq<Edge> {
      Filter(FromFile(f), edges)
    }

    // ---------------------------------------------------------- file by file

    lemma EdgesOfOneFile(ev: Event, f: string)
      ensures EdgesFrom(f, EdgesOf(ev)) == if abspath(ev.path) == f then EdgesOf(ev) else []
    {
      if abspath(ev.path) == f {
        forall i | 0 <= i < |EdgesOf(ev)|
          ensures FromFile(f)(EdgesOf(ev)[i])
        {
          assert EdgesOf(ev)[i] in EdgesOf(ev);
        }
        FilterAll(FromFile(f), EdgesOf(ev));
      } else {
        FilterNone(FromFile(f), EdgesOf(ev));
      }
    }

    /** Dropping `g` leaves another file's edges alone, and none of its own. */
    lemma {:induction false} WithoutOneFile(edges: seq<Edge>, f: string, g: string)
      ensures EdgesFrom(f, Without(abspath, edges, g)) == if f == g then [] else EdgesFrom(f, edges)
    {
      if edges != [] {
        WithoutOneFile(edges[1..], f, g);
        if NotFrom(abspath, g)(edges[0]) {
          assert Without(abspath, edges, g) == [edges[0]] + Without(abspath, edges[1..], g);
          assert ([edges[0]] + Without(abspath, edges[1..], g))[1..] == Without(abspath, edges[1..], g);
        }
      }
    }

    /** After any run, a file's edges are those of its last update, in extraction order, or as they were. */
    lemma {:induction false} RunByFile(edges: seq<Edge>, events: seq<Event>, f: string)
      ensures EdgesFrom(f, RunFrom(edges, events)) ==
        if Latest(events, f).Some? then EdgesOf(Latest(events, f).value) else EdgesFrom(f, edges)
    {
      if events != [] {
        var earlier, last := events[..|events| - 1], events[|events| - 1];
        RunByFile(edges, earlier, f);
        WithoutOneFile(RunFrom(edges, earlier), f, abspath(last.path));
        EdgesOfOneFile(last, f);
        FilterAppend(FromFile(f), Without(abspath, RunFrom(edges, earlier), abspath(last.path)), EdgesOf(last));
      }
    }

    lemma {:induction false} RunEdgesAreFiled(events: seq<Event>)
      ensures forall e | e in Run(events) :: FileOf(abspath, e).Some?
    {
      if events != [] {
        RunEdgesAreFiled(events[..|events| - 1]);
      }
    }

    lemma {:induction false} RebuildEdgesAreFiled(files: seq<Event>)
      ensures forall e | e in Rebuild(files) :: FileOf(abspath, e).Some?
    {
      if files != [] {
        RebuildEdgesAreFiled(files[..|files| - 1]);
      }
    }

    lemma EdgesFromSnoc(files: seq<Event>, f: string)
      requires files != []
      ensures var earlier, last := files[..|files| - 1], files[|files| - 1];
        EdgesFrom(f, Rebuild(files)) ==
          EdgesFrom(f, Rebuild(earlier)) + if abspath(last.path) == f then EdgesOf(last) else []
    {
      EdgesOfOneFile(files[|files| - 1], f);
      FilterAppend(FromFile(f), Rebuild(files[..|files| - 1]), EdgesOf(files[|files| - 1]));
    }

    lemma {:induction false} RebuildElsewhere(files: seq<Event>, f: string)
      requires forall i | 0 <= i < |files| :: abspath(files[i].path) != f
      ensures EdgesFrom(f, Rebuild(files)) == []
    {
      if files != [] {
        EdgesFromSnoc(files, f);
        RebuildElsewhere(files[..|files| - 1], f);
      }
    }

    lemma {:induction false} RebuildByFile(files: seq<Event>, ev: Event)
      requires OneSpellingPerFile(files) && ev in files
      ensures EdgesFrom(abspath(ev.path), Rebuild(files)) == EdgesOf(ev)
    {
      var earlier, last := files[..|files| - 1], files[|files| - 1];
      EdgesFromSnoc(files, abspath(ev.path));
      if ev == last {
        RebuildElsewhere(earlier, abspath(ev.path));
      } else {
        assert files == earlier + [last];
        RebuildByFile(earlier, ev);
        var i :| 0 <= i < |earlier| && earlier[i] == ev;
        assert files[i] == ev && files[|earlier|] == last;
      }
    }

    lemma {:induction false} LatestIsAnEvent(events: seq<Event>, f: string)
      requires Latest(events, f).Some?
      ensures Latest(events, f).value in events && abspath(Latest(events, f).value.path) == f
    {
      if abspath(events[|events| - 1].path) != f {
        LatestIsAnEvent(events[..|events| - 1], f);
      }
    }

    /** The two lists hold the same edges of every file, so they are permutations of each other. */
    lemma SamePerFile(xs: seq<Edge>, ys: seq<Edge>)
      requires forall e | e in xs || e in ys :: FileOf(abspath, e).Some?
      requires forall f :: EdgesFrom(f, xs) == EdgesFrom(f, ys)
      ensures multiset(xs) == multiset(ys)
    {
      forall e: Edge
        ensures multiset(xs)[e] == multiset(ys)[e]
      {
        if FileOf(abspath, e).Some? {
          var f := FileOf(abspath, e).value;
          FilterCount(FromFile(f), xs, e);
          FilterCount(FromFile(f), ys, e);
          assert EdgesFrom(f, xs) == EdgesFrom(f, ys);
        } else {
          assert e !in xs && e !in ys;
        }
      }
    }

    lemma SameFromFile(events: seq<Event>, files: seq<Event>, f: string)
      requires ListsCurrent(files, events)
      ensures EdgesFrom(f, Run(events)) == EdgesFrom(f, Rebuild(files))
    {
      RunByFile([], events, f);
      if Latest(events, f).Some? {
        LatestIsAnEvent(events, f);
      }
      if k: nat :| k < |files| && abspath(files[k].path) == f {
        assert files[k] in files;
        RebuildByFile(files, files[k]);
      } else {
        RebuildElsewhere(files, f);
      }
    }

    /** Every run leaves a list of current files behind. */
    lemma {:induction false} CurrentIsListed(events: seq<Event>)
      ensures ListsCurrent(Current(events), events)
    {
      if events != [] {
        var earlier, last := events[..|events| - 1], events[|events| - 1];
        CurrentIsListed(earlier);
        OthersListed(Current(earlier), earlier, last);
        assert events == earlier + [last];
      }
    }

    lemma OthersListed(files: seq<Event>, earlier: seq<Event>, last: Event)
      requires ListsCurrent(files, earlier)
      ensures ListsCurrent(Filter(Elsewhere(last), files) + [last], earlier + [last])
    {
      var events, kept := earlier + [last], Filter(Elsewhere(last), files);
      assert events[..|events| - 1] == earlier;
      OneSpellingKept(files, Elsewhere(last));
      forall ev | ev in kept + [last]
        ensures Latest(events, abspath(ev.path)) == Some(ev)
      {
        if ev in kept {
          assert ev in files && Elsewhere(last)(ev);
        }
      }
      forall ev | ev in events && Latest(events, abspath(ev.path)) == Some(ev) && ev.state != Missing
        ensures ev in kept + [last]
      {
        if ev != last {
          assert ev in earlier && ev in files;
        }
      }
    }

    lemma {:induction false} OneSpellingKept(files: seq<Event>, p: Event -> bool)
      requires OneSpellingPerFile(files)
      ensures OneSpellingPerFile(Filter(p, files))
    {
      if files != [] {
        OneSpellingKept(files[1..], p);
        var rest := Filter(p, files[1..]);
        forall j | 0 <= j < |rest|
          ensures abspath(rest[j].path) != abspath(files[0].path)
        {
          assert rest[j] in files[1..];
        }
      }
    }

    /**
     Incremental indexing equals rebuilding: whatever was edited, added and deleted, the
     edges are a permutation of those of a build on the files that are left.
     */
    lemma IncrementalEqualsRebuild(events: seq<Event>, files: seq<Event>)
      requires ListsCurrent(files, events)
      ensures multiset(Run(events)) == multiset(Rebuild(files))
    {
      RunEdgesAreFiled(events);
      RebuildEdgesAreFiled(files);
      forall f
        ensures EdgesFrom(f, Run(events)) == EdgesFrom(f, Rebuild(files))
      {
        SameFromFile(events, files, f);
      }
      SamePerFile(Run(events), Rebuild(files));
    }

    /** A build from scratch over distinct files is itself a run of updates. */
    lemma {:induction false} BuildIsARun(files: seq<Event>)
      requires OneSpellingPerFile(files)
      ensures Run(files) == Rebuild(files)
    {
      if files != [] {
        var earlier, last := files[..|files| - 1], files[|files| - 1];
        assert forall i | 0 <= i < |earlier| :: earlier[i] == files[i];
        BuildIsARun(earlier);
        RebuildElsewhere(earlier, abspath(last.path));
        KeepsOthers(Rebuild(earlier), abspath(last.path));
      }
    }

    lemma KeepsOthers(edges: seq<Edge>, f: string)
      requires EdgesFrom(f, edges) == []
      ensures Without(abspath, edges, f) == edges
    {
      forall i | 0 <= i < |edges|
        ensures NotFrom(abspath, f)(edges[i])
      {
        assert edges[i] !in EdgesFrom(f, edges);
      }
      FilterAll(NotFrom(abspath, f), edges);
    }

    // ---------------------------------------------------------- the methods

    lemma OneMoreRaw(edges: seq<Edge>, raws: seq<Raw>, i: nat, path: Option<string>, lang: string)
      requires i < |raws|
      ensures var e := Edge(raws[i].source, raws[i].target, raws[i].kind, raws[i].line, path, lang);
        edges + EdgesOfRaws(raws[i..], path, lang)
          == (if Accepts(raws[i]) then edges + [e] else edges) + EdgesOfRaws(raws[i + 1..], path, lang)
    {
      assert raws[i..][1..] == raws[i + 1..];
    }

    ghost predicate Ascending(places: seq<nat>) {
      forall j, k | 0 <= j < k < |places| :: places[j] < places[k]
    }

    /** One edge for each place: the tuple there, in its file and language. */
    ghost predicate EdgesAt(
      raws: seq<Raw>, path: Option<string>, lang: string, edges: seq<Edge>, places: seq<nat>)
    {
      && |edges| == |places|
      && forall k | 0 <= k < |places| ::
        && places[k] < |raws|
        && var raw := raws[places[k]];
        edges[k] == Edge(raw.source, raw.target, raw.kind, raw.line, path, lang)
    }

    /** The places from `i` on of all the tuples, less, for the inheritance builder, those with an empty end. */
    ghost predicate AllPlaces(raws: seq<Raw>, i: nat, places: seq<nat>) {
      forall k: nat :: (
        k in places <==> i <= k < |raws| && (mode == Calls || (raws[k].source != "" && raws[k].target != "")))
    }

    /** `edges` are those of the tuples at `places`, all that count from `i` on, in the order of extraction. */
    ghost predicate Extracted(
      raws: seq<Raw>, i: nat, path: Option<string>, lang: string, edges: seq<Edge>, places: seq<nat>)
    {
      Ascending(places) && EdgesAt(raws, path, lang, edges, places) && AllPlaces(raws, i, places)
    }

    lemma NoPlaceMore(raws: seq<Raw>, i: nat, places: seq<nat>)
      requires i < |raws| && !Accepts(raws[i]) && AllPlaces(raws, i + 1, places)
      ensures AllPlaces(raws, i, places)
    {
    }

    lemma OnePlaceMore(raws: seq<Raw>, i: nat, places: seq<nat>)
      requires i < |raws| && Accepts(raws[i]) && AllPlaces(raws, i + 1, places) && Ascending(places)
      ensures AllPlaces(raws, i, [i] + places) && Ascending([i] + places)
    {
      assert forall k: nat :: k in [i] + places <==> k == i || k in places;
      forall k | 0 <= k < |places|
        ensures i < places[k]
      {
        assert places[k] in places;
      }
    }

    lemma OneEdgeMore(
      raws: seq<Raw>, i: nat, path: Option<string>, lang: string, edges: seq<Edge>, places: seq<nat>)
      requires i < |raws| && EdgesAt(raws, path, lang, edges, places)
      ensures var raw := raws[i];
        EdgesAt(
          raws, path, lang, [Edge(raw.source, raw.target, raw.kind, raw.line, path, lang)] + edges, [i] + places)
    {
    }

    lemma {:induction false} EdgesExtracted(raws: seq<Raw>, i: nat, path: Option<string>, lang: string)
      returns (places: seq<nat>)
      requires i <= |raws|
      ensures Extracted(raws, i, path, lang, EdgesOfRaws(raws[i..], path, lang), places)
      decreases |raws| - i
    {
      if i == |raws| {
        places := [];
      } else {
        places := EdgesExtracted(raws, i + 1, path, lang);
        var here := raws[i..];
        assert here[0] == raws[i] && here[1..] == raws[i + 1..];
        var edges := EdgesOfRaws(raws[i + 1..], path, lang);
        if Accepts(raws[i]) {
          OnePlaceMore(raws, i, places);
          OneEdgeMore(raws, i, path, lang, edges, places);
          places := [i] + places;
        } else {
          NoPlaceMore(raws, i, places);
          assert EdgesOfRaws(here, path, lang) == edges;
        }
      }
    }

    /** Where no end is empty, or for calls, every tuple is one edge. */
    lemma {:induction false} EveryTupleAnEdge(raws: seq<Raw>, path: Option<string>, lang: string)
      requires mode == Inheritance ==> forall raw | raw in raws :: raw.source != "" && raw.target != ""
      ensures var edges := EdgesOfRaws(raws, path, lang);
        && |edges| == |raws|
        && forall i | 0 <= i < |raws| ::
          edges[i] == Edge(raws[i].source, raws[i].target, raws[i].kind, raws[i].line, path, lang)
    {
      if raws != [] {
        assert raws[0] in raws;
        EveryTupleAnEdge(raws[1..], path, lang);
      }
    }

    method AddFromContent(graph: EdgeGraph, content: string, lang: string, path: Option<string>)
      requires graph.Valid()
      modifies graph
      ensures graph.Valid() && graph.edges == old(graph.edges) + EdgesOfContent(content, lang, path)
      ensures var extracted := extract(content, lang);
        if extracted.None? then graph.edges == old(graph.edges)
        else exists edges, places ::
          graph.edges == old(graph.edges) + edges && Extracted(extracted.value, 0, path, lang, edges, places)
    {
      var extracted := extract(content, lang);
      if extracted.None? {
        return;
      }
      var raws := extracted.value;
      ghost var places := EdgesExtracted(raws, 0, path, lang);
      assert raws[0..] == raws;
      for i := 0 to |raws|
        invariant graph.Valid()
        invariant graph.edges + EdgesOfRaws(raws[i..], path, lang) == old(graph.edges) + EdgesOfRaws(raws, path, lang)
      {
        OneMoreRaw(graph.edges, raws, i, path, lang);
        if Accepts(raws[i]) {
          graph.AddEdge(Edge(raws[i].source, raws[i].target, raws[i].kind, raws[i].line, path, lang));
        }
      }
    }

    /** `build_for_content` */
    method BuildForContent(content: string, lang: string, path: Option<string>) returns (graph: EdgeGraph)
      ensures fresh(graph) && graph.Valid() && graph.abspath == abspath
      ensures graph.edges == EdgesOfContent(content, lang, path)
    {
      graph := new EdgeGraph(abspath);
      AddFromContent(graph, content, lang, path);
    }

    /** `_add_from_file`; a missing file cannot be opened. */
    method AddFromFile(graph: EdgeGraph, ev: Event)
      requires graph.Valid()
      modifies graph
      ensures graph.Valid() && graph.edges == old(graph.edges) + EdgesOf(ev)
    {
      var lang := language(ev.path);
      if lang.None? || ev.path == "" || !ev.state.Readable? {
        return;
      }
      AddFromContent(graph, ev.state.content, lang.value, Some(ev.path));
    }

    method UpdateFile(graph: EdgeGraph, ev: Event) returns (removed: nat, added: nat)
      requires graph.Valid() && graph.abspath == abspath
      modifies graph
      ensures graph.Valid() && graph.edges == Update(old(graph.edges), ev)
      ensures removed == |Positions(abspath, old(graph.edges), abspath(ev.path))|
      ensures added == |EdgesOf(ev)|
    {
      removed := graph.RemoveFile(ev.path);
      added := 0;
      if ev.path != "" && ev.state != Missing {
        var lang := language(ev.path);
        if lang.None? || ev.state.Unreadable? {
          return;
        }
        var before := |graph.edges|;
        AddFromContent(graph, ev.state.content, lang.value, Some(ev.path));
        added := |graph.edges| - before;
      }
    }

    // ---------------------------------------------------------- building from paths

    function FilesIn(files: seq<FileNode>): seq<Event> {
      if files == [] then []
      else
        var n := |files| - 1;
        if wanted(files[n].name) then FilesIn(files[..n]) + [files[n].ev] else FilesIn(files[..n])
    }

    /** The files of a directory walk: its own first, then those of the subdirectories that are not pruned. */
    function Walk(folder: Folder): seq<Event> {
      FilesIn(folder.files) + WalkAll(folder.subs)
    }

    function WalkAll(subs: seq<Folder>): seq<Event> {
      if subs == [] then []
      else (if Pruned(subs[0].name) then [] else Walk(subs[0])) + WalkAll(subs[1..])
    }

    /** A walk goes into a folder of this name. */
    predicate Entered(name: string) {
      name !in SKIP_DIRS && !("." <= name)
    }

    /** `ev` is a wanted file at the end of a trail of folders that a walk goes into. */
    ghost predicate Found(folder: Folder, trail: seq<Folder>, ev: Event) {
      if trail == [] then exists file :: file in folder.files && wanted(file.name) && file.ev == ev
      else trail[0] in folder.subs && Entered(trail[0].name) && Found(trail[0], trail[1..], ev)
    }

    ghost predicate FoundIn(folder: Folder, ev: Event) {
      exists trail :: Found(folder, trail, ev)
    }

    lemma {:induction false} FilesInExactly(files: seq<FileNode>, ev: Event)
      ensures ev in FilesIn(files) <==> exists file :: file in files && wanted(file.name) && file.ev == ev
    {
      if files != [] {
        var n := |files| - 1;
        assert files == files[..n] + [files[n]] && files[n] in files;
        FilesInExactly(files[..n], ev);
      }
    }

    /** A walk lists the files that it finds and no others. */
    lemma {:induction false} WalkFinds(folder: Folder, ev: Event)
      ensures ev in Walk(folder) <==> FoundIn(folder, ev)
      decreases folder
    {
      FilesInExactly(folder.files, ev);
      WalkAllFinds(folder.subs, ev);
      if ev in FilesIn(folder.files) {
        assert Found(folder, [], ev);
      } else if ev in WalkAll(folder.subs) {
        var sub :| sub in folder.subs && Entered(sub.name) && FoundIn(sub, ev);
        var trail :| Found(sub, trail, ev);
        assert ([sub] + trail)[1..] == trail;
        assert Found(folder, [sub] + trail, ev);
      }
      if trail :| Found(folder, trail, ev) && trail != [] {
        assert trail[0] in folder.subs && Found(trail[0], trail[1..], ev);
      }
    }

    lemma {:induction false} WalkAllFinds(subs: seq<Folder>, ev: Event)
      ensures ev in WalkAll(subs) <==> exists sub :: sub in subs && Entered(sub.name) && FoundIn(sub, ev)
      decreases subs
    {
      if subs != [] {
        WalkFinds(subs[0], ev);
        WalkAllFinds(subs[1..], ev);
        assert subs[0] in subs;
        assert forall sub :: sub in subs <==> sub == subs[0] || sub in subs[1..];
      }
    }

    /** The files a path leads to; one that names nothing leads to none. */
    function ReachedBy(root: Root): seq<Event> {
      match root
      case NoPath => []
      case File(ev) => if ev.path == "" || ev.state == Missing then [] else [ev]
      case Directory(folder) => Walk(folder)
    }

    /** All the files some paths lead to. */
    function Reached(roots: seq<Root>): seq<Event> {
      if roots == [] then [] else Reached(roots[..|roots| - 1]) + ReachedBy(roots[|roots| - 1])
    }

    /** A path leads to the file it names, if there is one, and to what the walk of its folder finds. */
    ghost predicate LeadsTo(root: Root, ev: Event) {
      match root
      case NoPath => false
      case File(named) => named == ev && ev.path != "" && ev.state != Missing
      case Directory(folder) => FoundIn(folder, ev)
    }

    lemma ReachedByExactly(root: Root, ev: Event)
      ensures ev in ReachedBy(root) <==> LeadsTo(root, ev)
    {
      if root.Directory? {
        WalkFinds(root.folder, ev);
      }
    }

    /** A build reaches exactly what its paths lead to. */
    lemma {:induction false} ReachedExactly(roots: seq<Root>, ev: Event)
      ensures ev in Reached(roots) <==> exists root :: root in roots && LeadsTo(root, ev)
    {
      if roots != [] {
        var n := |roots| - 1;
        var earlier, last := roots[..n], roots[n];
        assert roots == earlier + [last] && last in roots;
        ReachedExactly(earlier, ev);
        ReachedByExactly(last, ev);
      }
    }

    /** The files a build takes up, and those past its limit. */
    function Chosen(roots: seq<Root>, maxFiles: int): seq<Event> {
      Take(Reached(roots), maxFiles)
    }

    function Dropped(roots: seq<Root>, maxFiles: int): seq<Event> {
      Reached(roots)[|Chosen(roots, maxFiles)|..]
    }

    /** `done` are the files a graph was built from so far. */
    method BuildNext(graph: EdgeGraph, ev: Event, ghost done: seq<Event>)
      requires graph.Valid() && graph.edges == Rebuild(done)
      modifies graph
      ensures graph.Valid() && graph.edges == Rebuild(done + [ev])
    {
      AddFromFile(graph, ev);
      assert (done + [ev])[..|done|] == done;
    }

    /** The files taken up when `i` of a directory's files have been read. */
    ghost function Upto(done: seq<Event>, files: seq<FileNode>, maxFiles: int, i: nat): seq<Event>
      requires i <= |files|
    {
      Take(done + FilesIn(files[..i]), maxFiles)
    }

    lemma UptoNext(done: seq<Event>, files: seq<FileNode>, maxFiles: int, i: nat)
      requires i < |files|
      ensures !wanted(files[i].name) ==> Upto(done, files, maxFiles, i + 1) == Upto(done, files, maxFiles, i)
      ensures wanted(files[i].name) && |Upto(done, files, maxFiles, i)| < maxFiles ==>
        Upto(done, files, maxFiles, i + 1) == Upto(done, files, maxFiles, i) + [files[i].ev]
    {
      assert files[..i + 1][..i] == files[..i];
      if wanted(files[i].name) && |Upto(done, files, maxFiles, i)| < maxFiles {
        ConcatAssociates(done, FilesIn(files[..i]), [files[i].ev]);
        TakeOneMore(done + FilesIn(files[..i]), files[i].ev, maxFiles);
      }
    }

    lemma {:induction false} UptoFull(done: seq<Event>, files: seq<FileNode>, maxFiles: int, i: nat)
      requires i <= |files| && |Upto(done, files, maxFiles, i)| >= maxFiles
      ensures Upto(done, files, maxFiles, |files|) == Upto(done, files, maxFiles, i)
      decreases |files| - i
    {
      if i < |files| {
        var before := done + FilesIn(files[..i]);
        assert files[..i + 1][..i] == files[..i];
        if wanted(files[i].name) {
          ConcatAssociates(done, FilesIn(files[..i]), [files[i].ev]);
          TakePrefix(before, before + [files[i].ev], maxFiles);
        }
        UptoFull(done, files, maxFiles, i + 1);
      }
    }

    /** The loop over the files of one directory. */
    method AddFiles(graph: EdgeGraph, files: seq<FileNode>, maxFiles: int, processed: nat, ghost done: seq<Event>)
      returns (processed': nat)
      requires graph.Valid() && graph.edges == Rebuild(Take(done, maxFiles)) && processed == |Take(done, maxFiles)|
      modifies graph
      ensures graph.Valid() && graph.edges == Rebuild(Upto(done, files, maxFiles, |files|))
      ensures processed' == |Upto(done, files, maxFiles, |files|)|
    {
      processed' := processed;
      assert done + [] == done;
      for i := 0 to |files|
        invariant graph.Valid() && graph.edges == Rebuild(Upto(done, files, maxFiles, i))
        invariant processed' == |Upto(done, files, maxFiles, i)|
      {
        if processed' >= maxFiles {
          UptoFull(done, files, maxFiles, i);
          return;
        }
        UptoNext(done, files, maxFiles, i);
        if wanted(files[i].name) {
          BuildNext(graph, files[i].ev, Upto(done, files, maxFiles, i));
          processed' := processed' + 1;
        }
      }
    }

    /** One `os.walk`. */
    method AddFolder(graph: EdgeGraph, folder: Folder, maxFiles: int, processed: nat, ghost done: seq<Event>)
      returns (processed': nat)
      requires graph.Valid() && graph.edges == Rebuild(Take(done, maxFiles)) && processed == |Take(done, maxFiles)|
      modifies graph
      ensures graph.Valid() && graph.edges == Rebuild(Take(done + Walk(folder), maxFiles))
      ensures processed' == |Take(done + Walk(folder), maxFiles)|
      decreases folder
    {
      processed' := AddFiles(graph, folder.files, maxFiles, processed, done);
      assert folder.files[..|folder.files|] == folder.files;
      ConcatAssociates(done, FilesIn(folder.files), WalkAll(folder.subs));
      processed' := AddFolders(graph, folder.subs, maxFiles, processed', done + FilesIn(folder.files));
    }

    method AddFolders(graph: EdgeGraph, subs: seq<Folder>, maxFiles: int, processed: nat, ghost done: seq<Event>)
      returns (processed': nat)
      requires graph.Valid() && graph.edges == Rebuild(Take(done, maxFiles)) && processed == |Take(done, maxFiles)|
      modifies graph
      ensures graph.Valid() && graph.edges == Rebuild(Take(done + WalkAll(subs), maxFiles))
      ensures processed' == |Take(done + WalkAll(subs), maxFiles)|
      decreases subs
    {
      processed' := processed;
      if subs == [] {
        assert done + [] == done;
        return;
      }
      if processed >= maxFiles {
        TakeMore(done, WalkAll(subs), maxFiles);
        return;
      }
      ghost var walked := done;
      if !Pruned(subs[0].name) {
        processed' := AddFolder(graph, subs[0], maxFiles, processed, done);
        walked := done + Walk(subs[0]);
        ConcatAssociates(done, Walk(subs[0]), WalkAll(subs[1..]));
      } else {
        assert [] + WalkAll(subs[1..]) == WalkAll(subs[1..]);
      }
      processed' := AddFolders(graph, subs[1..], maxFiles, processed', walked);
    }

    /** `build_for_paths` */
    method BuildForPaths(roots: seq<Root>, maxFiles: int) returns (graph: EdgeGraph)
      ensures fresh(graph) && graph.Valid() && graph.abspath == abspath
      ensures graph.edges == Rebuild(Chosen(roots, maxFiles))
    {
      graph := new EdgeGraph(abspath);
      var processed := 0;
      for i := 0 to |roots|
        invariant fresh(graph) && graph.Valid() && graph.abspath == abspath
        invariant graph.edges == Rebuild(Chosen(roots[..i], maxFiles)) && processed == |Chosen(roots[..i], maxFiles)|
      {
        assert roots[..i + 1][..i] == roots[..i];
        ghost var before := Reached(roots[..i]);
        match roots[i]
        case NoPath =>
          assert before + [] == before;
        case File(ev) =>
          if ev.path == "" || ev.state == Missing {
            assert before + [] == before;
          } else if processed >= maxFiles {
            ReachedGrows(roots, i);
            TakePrefix(before, Reached(roots), maxFiles);
            return;
          } else {
            TakeOneMore(before, ev, maxFiles);
            BuildNext(graph, ev, Take(before, maxFiles));
            processed := processed + 1;
          }
        case Directory(folder) =>
          processed := AddFolder(graph, folder, maxFiles, processed, before);
          if processed >= maxFiles {
            ReachedGrows(roots, i + 1);
            TakePrefix(Reached(roots[..i + 1]), Reached(roots), maxFiles);
            return;
          }
      }
      assert roots[..|roots|] == roots;
    }

    lemma {:induction false} ReachedGrows(roots: seq<Root>, i: nat)
      requires i <= |roots|
      ensures Reached(roots[..i]) <= Reached(roots)
      decreases |roots| - i
    {
      if i == |roots| {
        assert roots[..i] == roots;
      } else {
        ReachedGrows(roots, i + 1);
        assert roots[..i + 1][..i] == roots[..i];
      }
    }

    // ---------------------------------------------------------- builds under a limit

    lemma RebuildSnoc(files: seq<Event>, ev: Event)
      ensures Rebuild(files + [ev]) == Rebuild(files) + EdgesOf(ev)
    {
      assert (files + [ev])[..|files|] == files;
    }

    /** A build takes up every file exactly when its limit allows for them all. */
    lemma NothingDropped(roots: seq<Root>, maxFiles: int)
      ensures Reached(roots) == Chosen(roots, maxFiles) + Dropped(roots, maxFiles)
      ensures Chosen(roots, maxFiles) == Reached(roots) <==> Reached(roots) == [] || |Reached(roots)| <= maxFiles
      ensures Dropped(roots, maxFiles) == [] <==> Chosen(roots, maxFiles) == Reached(roots)
      ensures 0 <= maxFiles <= |Reached(roots)| ==> |Chosen(roots, maxFiles)| == maxFiles
    {
    }

    /** Both lists read the same disk: a path shows one state. */
    ghost predicate OneDisk(files: seq<Event>, chosen: seq<Event>) {
      forall ev, other | ev in files + chosen && other in files + chosen && ev.path == other.path :: ev == other
    }

    /** The build takes up every current file with an edge, once, and no other file with an edge. */
    ghost predicate TakesUpOnce(files: seq<Event>, chosen: seq<Event>) {
      forall ev | (ev in files || ev in chosen) && EdgesOf(ev) != [] :: ev in files && multiset(chosen)[ev] == 1
    }

    /** How often an edge of `ev` is listed, where no other state of its path is. */
    lemma {:induction false} CountOfFile(files: seq<Event>, ev: Event, e: Edge)
      requires OneState(files, ev) && e.file == Some(ev.path)
      ensures CountsOf(files, ev, e)
    {
      if files != [] {
        var earlier, last := files[..|files| - 1], files[|files| - 1];
        assert files == earlier + [last];
        OneStateBefore(earlier, last, ev);
        CountOfFile(earlier, ev, e);
        CountOfLast(earlier, last, ev, e);
      } else {
        assert multiset(files)[ev] == 0;
      }
    }

    /** No other state of `ev`'s path is listed. */
    ghost predicate OneState(files: seq<Event>, ev: Event) {
      forall i | 0 <= i < |files| && files[i].path == ev.path :: files[i] == ev
    }

    lemma OneStateBefore(earlier: seq<Event>, last: Event, ev: Event)
      requires OneState(earlier + [last], ev)
      ensures OneState(earlier, ev) && (last.path == ev.path ==> last == ev)
    {
      assert (earlier + [last])[|earlier|] == last;
      assert forall i | 0 <= i < |earlier| :: (earlier + [last])[i] == earlier[i];
    }

    ghost predicate CountsOf(files: seq<Event>, ev: Event, e: Edge) {
      multiset(Rebuild(files))[e] == Times(multiset(files)[ev], multiset(EdgesOf(ev))[e])
    }

    ghost function Times(n: nat, c: nat): nat {
      if n == 0 then 0 else Times(n - 1, c) + c
    }

    lemma CountOfLast(earlier: seq<Event>, last: Event, ev: Event, e: Edge)
      requires (last.path == ev.path ==> last == ev) && e.file == Some(ev.path)
      requires CountsOf(earlier, ev, e)
      ensures CountsOf(earlier + [last], ev, e)
    {
      RebuildSnoc(earlier, last);
      var before, more := Rebuild(earlier), EdgesOf(last);
      assert multiset(before + more)[e] == multiset(before)[e] + multiset(more)[e];
      var m := multiset(earlier)[ev];
      if last == ev {
        assert multiset(earlier + [last])[ev] == m + 1;
      } else {
        assert multiset(earlier + [last])[ev] == m;
        assert e !in more;
      }
    }

    lemma {:induction false} OriginOf(files: seq<Event>, e: Edge) returns (ev: Event)
      requires e in Rebuild(files)
      ensures ev in files && e in EdgesOf(ev)
    {
      var earlier, last := files[..|files| - 1], files[|files| - 1];
      if e in EdgesOf(last) {
        ev := last;
      } else {
        ev := OriginOf(earlier, e);
      }
    }

    lemma {:induction false} EdgesAreListed(files: seq<Event>, ev: Event, e: Edge)
      requires ev in files && e in EdgesOf(ev)
      ensures e in Rebuild(files)
    {
      var earlier, last := files[..|files| - 1], files[|files| - 1];
      if ev != last {
        assert files == earlier + [last];
        EdgesAreListed(earlier, ev, e);
      }
    }

    lemma DistinctFiles(files: seq<Event>, ev: Event)
      requires OneSpellingPerFile(files) && ev in files
      ensures multiset(files)[ev] == 1
    {
      assert Distinct(files);
      DistinctCount(files, ev);
    }

    lemma CountsAgree(files: seq<Event>, chosen: seq<Event>, ev: Event, e: Edge)
      requires OneSpellingPerFile(files) && OneDisk(files, chosen) && (ev in files || ev in chosen) && e in EdgesOf(ev)
      ensures multiset(Rebuild(files))[e] == multiset(Rebuild(chosen))[e]
        <==> multiset(files)[ev] == multiset(chosen)[ev]
      ensures multiset(files)[ev] == multiset(chosen)[ev] <==> ev in files && multiset(chosen)[ev] == 1
    {
      assert ev in files + chosen;
      CountOfFile(files, ev, e);
      CountOfFile(chosen, ev, e);
      SameFactor(multiset(files)[ev], multiset(chosen)[ev], multiset(EdgesOf(ev))[e]);
      if ev in files {
        DistinctFiles(files, ev);
      }
    }

    lemma {:induction false} SameFactor(m: nat, n: nat, c: nat)
      requires c > 0
      ensures Times(m, c) == Times(n, c) <==> m == n
    {
      if m > 0 && n > 0 {
        SameFactor(m - 1, n - 1, c);
      }
    }

    lemma SameBuild(files: seq<Event>, chosen: seq<Event>)
      requires OneSpellingPerFile(files) && OneDisk(files, chosen)
      ensures multiset(Rebuild(files)) == multiset(Rebuild(chosen)) <==> TakesUpOnce(files, chosen)
    {
      if TakesUpOnce(files, chosen) {
        forall e: Edge
          ensures multiset(Rebuild(files))[e] == multiset(Rebuild(chosen))[e]
        {
          if e in Rebuild(files) {
            var ev := OriginOf(files, e);
            CountsAgree(files, chosen, ev, e);
          } else if e in Rebuild(chosen) {
            var ev := OriginOf(chosen, e);
            CountsAgree(files, chosen, ev, e);
          }
        }
      } else {
        var ev :| (ev in files || ev in chosen) && EdgesOf(ev) != [] && !(ev in files && multiset(chosen)[ev] == 1);
        CountsAgree(files, chosen, ev, EdgesOf(ev)[0]);
      }
    }

    /**
     Incremental indexing equals the graph that a build returns, reading the disk as the last
     updates saw it, if and only if the build takes up every current file with an edge exactly
     once and no other file with an edge. The limit, the skipped folders, a file reached twice or
     under another spelling, and a file that was never updated can each break that.
     */
    lemma IncrementalEqualsBuild(events: seq<Event>, files: seq<Event>, roots: seq<Root>, maxFiles: int)
      requires ListsCurrent(files, events) && OneDisk(files, Chosen(roots, maxFiles))
      ensures multiset(Run(events)) == multiset(Rebuild(Chosen(roots, maxFiles)))
        <==> TakesUpOnce(files, Chosen(roots, maxFiles))
    {
      IncrementalEqualsRebuild(events, files);
      SameBuild(files, Chosen(roots, maxFiles));
    }

    lemma SkippedWalk(skipped: Folder)
      requires Pruned(skipped.name)
      ensures Walk(Folder(".", [], [skipped])) == []
    {
      var none: seq<FileNode> := [];
      assert FilesIn(none) == [] && [skipped][1..] == [] && WalkAll([skipped]) == [];
    }

    /** A file in a folder that the walk skips. */
    lemma UpdatedWhereSkipped(ev: Event)
      requires EdgesOf(ev) != []
      ensures var skipped := Folder("node_modules", [FileNode("x.py", ev)], []);
        multiset(Run([ev])) != multiset(Rebuild(Chosen([Directory(Folder(".", [], [skipped]))], 500)))
    {
      var skipped := Folder("node_modules", [FileNode("x.py", ev)], []);
      var root := Directory(Folder(".", [], [skipped]));
      SkippedWalk(skipped);
      assert [root][..0] == [] && Reached([root]) == [];
      BuildIsARun([ev]);
      RebuildSnoc([], ev);
    }

    /** A file named twice. */
    lemma BuiltTwice(ev: Event)
      requires EdgesOf(ev) != []
      ensures multiset(Run([ev])) != multiset(Rebuild(Chosen([File(ev), File(ev)], 500)))
    {
      ReachedTwo(ev, ev);
      BuildIsARun([ev]);
      RebuildTwo(ev, ev);
      SumIsFirst(EdgesOf(ev), EdgesOf(ev));
    }

    /** A file past the limit. */
    lemma PastTheLimit(ev: Event, other: Event)
      requires EdgesOf(ev) != [] && EdgesOf(other) != [] && abspath(ev.path) != abspath(other.path)
      ensures multiset(Run([ev, other])) != multiset(Rebuild(Chosen([File(ev), File(other)], 1)))
    {
      ReachedTwo(ev, other);
      BuildIsARun([ev, other]);
      RebuildTwo(ev, other);
      SumIsFirst(EdgesOf(ev), EdgesOf(other));
      assert [ev, other][..1] == [ev];
    }

    lemma ReachedTwo(ev: Event, other: Event)
      requires EdgesOf(ev) != [] && EdgesOf(other) != []
      ensures Reached([File(ev), File(other)]) == [ev, other]
    {
      assert [File(ev), File(other)][..1] == [File(ev)] && [File(ev)][..0] == [];
      assert Reached([File(ev)]) == [] + [ev] == [ev];
      assert [ev] + [other] == [ev, other];
    }

    lemma RebuildTwo(ev: Event, other: Event)
      ensures Rebuild([ev]) == EdgesOf(ev) && Rebuild([ev, other]) == EdgesOf(ev) + EdgesOf(other)
    {
      RebuildSnoc([], ev);
      RebuildSnoc([ev], other);
      assert [] + [ev] == [ev] && [] + EdgesOf(ev) == EdgesOf(ev) && [ev] + [other] == [ev, other];
    }

    lemma SumIsFirst(xs: seq<Edge>, ys: seq<Edge>)
      ensures multiset(xs + ys) == multiset(xs) <==> ys == []
    {
      if ys == [] {
        assert xs + ys == xs;
      } else {
        assert |multiset(xs + ys)| == |xs| + |ys| && |multiset(xs)| == |xs|;
      }
    }

    // ---------------------------------------------------------- runs

    lemma RunNext(edges: seq<Edge>, events: seq<Event>, i: nat)
      requires i < |events|
      ensures RunFrom(edges, events[..i + 1]) == Update(RunFrom(edges, events[..i]), events[i])
    {
      assert events[..i + 1][..i] == events[..i];
    }

    lemma {:induction false} RunOn(before: seq<Event>, events: seq<Event>)
      ensures Run(before + events) == RunFrom(Run(before), events)
      decreases |events|
    {
      if events == [] {
        assert before + events == before;
      } else {
        var earlier, last := events[..|events| - 1], events[|events| - 1];
        RunOn(before, earlier);
        assert (before + events)[..|before + events| - 1] == before + earlier;
      }
    }

    /** Updates of any graph, each right after its edit. */
    method Replay(graph: EdgeGraph, events: seq<Event>)
      requires graph.Valid() && graph.abspath == abspath
      modifies graph
      ensures graph.Valid() && graph.edges == RunFrom(old(graph.edges), events)
    {
      for i := 0 to |events|
        invariant graph.Valid() && graph.abspath == abspath
        invariant graph.edges == RunFrom(old(graph.edges), events[..i])
      {
        RunNext(old(graph.edges), events, i);
        var _, _ := UpdateFile(graph, events[i]);
      }
      assert events[..|events|] == events;
    }

    /**
     A graph is built and then kept up to date: what was updated since shows its last update, the
     rest is as it was built. Where no file was built twice, it is as if every file built had been
     updated first.
     */
    method BuildAndReplay(roots: seq<Root>, maxFiles: int, events: seq<Event>) returns (graph: EdgeGraph)
      ensures fresh(graph) && graph.Valid() && graph.abspath == abspath
      ensures graph.edges == RunFrom(Rebuild(Chosen(roots, maxFiles)), events)
      ensures forall f ::
        && (Latest(events, f).Some? ==> EdgesFrom(f, graph.edges) == EdgesOf(Latest(events, f).value))
        && (Latest(events, f).None? ==> EdgesFrom(f, graph.edges) == EdgesFrom(f, Rebuild(Chosen(roots, maxFiles))))
      ensures OneSpellingPerFile(Chosen(roots, maxFiles)) ==> graph.edges == Run(Chosen(roots, maxFiles) + events)
    {
      graph := BuildForPaths(roots, maxFiles);
      ghost var chosen := Chosen(roots, maxFiles);
      forall f {
        RunByFile(Rebuild(chosen), events, f);
      }
      if OneSpellingPerFile(chosen) {
        BuildIsARun(chosen);
        RunOn(chosen, events);
      }
      Replay(graph, events);
    }
  }

  /** A builder that finds one edge in every text. */
  function OneEdgeEach(): Builder {
    Builder(Calls, p => p, p => Some("python"), n => true, (text, lang) => Some([Raw("f", text, "call", 1)]))
  }

  lemma OneEdge(ev: Event)
    requires ev.path != "" && ev.state.Readable?
    ensures OneEdgeEach().EdgesOf(ev) == [Edge("f", ev.state.content, "call", 1, Some(ev.path), "python")]
  {
    var b, raws := OneEdgeEach(), [Raw("f", ev.state.content, "call", 1)];
    assert raws[1..] == [];
    assert b.EdgesOfRaws(raws, Some(ev.path), "python")
        == [Edge("f", ev.state.content, "call", 1, Some(ev.path), "python")]
          + b.EdgesOfRaws([], Some(ev.path), "python");
  }

  /** An inheritance builder that finds a base of "B" and a tuple without an end. */
  lemma OneBase(ev: Event, b: Builder)
    requires b.mode == Inheritance && ev.path != "" && ev.state.Readable? && b.language(ev.path) == Some("python")
    requires b.extract(ev.state.content, "python") == Some([Raw("", "A", "extends", 1), Raw("B", "A", "extends", 2)])
    ensures b.EdgesOf(ev) == [Edge("B", "A", "extends", 2, Some(ev.path), "python")]
  {
    var raws := [Raw("", "A", "extends", 1), Raw("B", "A", "extends", 2)];
    var path := Some(ev.path);
    assert raws[1..] == [raws[1]] && raws[1..][1..] == [];
    assert b.EdgesOfRaws(raws[1..], path, "python")
        == [Edge("B", "A", "extends", 2, path, "python")] + b.EdgesOfRaws([], path, "python");
  }

  /** Inputs for which the two ways differ: a skipped folder, a file named twice, and a file past the limit. */
  lemma BuildsThatDiffer()
    ensures var b, ev, other := OneEdgeEach(), Event("x.py", Readable("g")), Event("y.py", Readable("h"));
      var skipped := Folder("node_modules", [FileNode("x.py", ev)], []);
      && multiset(b.Run([ev])) != multiset(b.Rebuild(b.Chosen([Directory(Folder(".", [], [skipped]))], 500)))
      && multiset(b.Run([ev])) != multiset(b.Rebuild(b.Chosen([File(ev), File(ev)], 500)))
      && multiset(b.Run([ev, other])) != multiset(b.Rebuild(b.Chosen([File(ev), File(other)], 1)))
  {
    var b, ev, other := OneEdgeEach(), Event("x.py", Readable("g")), Event("y.py", Readable("h"));
    b.UpdatedWhereSkipped(ev);
    b.BuiltTwice(ev);
    b.PastTheLimit(ev, other);
  }

  /** In the skipped folder and past the limit the answers differ too; naming a file twice changes none. */
  lemma AnswersThatDiffer()
    ensures var b, ev, other := OneEdgeEach(), Event("x.py", Readable("g")), Event("y.py", Readable("h"));
      && !LinksNothingNew(b, [ev], [], b.Rebuild([])) && !LinksNothingNew(b, [ev, other], [ev], b.Rebuild([ev]))
      && LinksNothingNew(b, [ev], [ev, ev], b.Rebuild([ev, ev])) && LinksNothingNew(b, [ev, ev], [ev], b.Run([ev]))
  {
    var b, ev, other := OneEdgeEach(), Event("x.py", Readable("g")), Event("y.py", Readable("h"));
    b.RebuildTwo(ev, other);
    OneEdge(ev);
    OneEdge(other);
    var e, e' := b.EdgesOf(ev)[0], b.EdgesOf(other)[0];
    assert e in b.EdgesOf(ev) && ev in [ev] && e.target !in Ends([], e.source);
    assert e' in b.EdgesOf(other) && other in [ev, other] && e'.target !in Ends(b.EdgesOf(ev), e'.source);
  }

  /** The edges of the files of one list that another lacks link nothing that is not linked in `edges`. */
  ghost predicate LinksNothingNew(b: Builder, files: seq<Event>, others: seq<Event>, edges: seq<Edge>) {
    forall ev, e | ev in files && ev !in others && e in b.EdgesOf(ev) :: e.target in Ends(edges, e.source)
  }

  /**
   Every answer is the same too: the indexes of a replayed graph equal those of the graph a build
   returns, so callers, callees, bases, subclasses and the bounded closures cannot differ, if and
   only if the current files that the build leaves out, and the files it takes up that are not
   current, link nothing new.
   */
  lemma AnswersEqualBuild(
    b: Builder, events: seq<Event>, files: seq<Event>, roots: seq<Root>, maxFiles: int,
    replayed: EdgeGraph, built: EdgeGraph)
    requires b.ListsCurrent(files, events)
    requires replayed.Valid() && replayed.edges == b.Run(events)
    requires built.Valid() && built.edges == b.Rebuild(b.Chosen(roots, maxFiles))
    ensures replayed.outIndex == built.outIndex && replayed.inIndex == built.inIndex
      <==> (
        && LinksNothingNew(b, files, b.Chosen(roots, maxFiles), built.edges)
        && LinksNothingNew(b, b.Chosen(roots, maxFiles), files, replayed.edges))
  {
    var chosen := b.Chosen(roots, maxFiles);
    b.IncrementalEqualsRebuild(events, files);
    SameMembers(replayed.edges, b.Rebuild(files));
    SameIndexesExactly(
      replayed.edges, built.edges, replayed.outIndex, replayed.inIndex, built.outIndex, built.inIndex);
    LinkedExactly(b, files, chosen, replayed.edges, built.edges);
    LinkedExactly(b, chosen, files, built.edges, replayed.edges);
  }

  /** All links of `xs` are in `ys`. */
  ghost predicate Linked(xs: seq<Edge>, ys: seq<Edge>) {
    forall e | e in xs :: e.target in Ends(ys, e.source)
  }

  lemma LinkedExactly(b: Builder, files: seq<Event>, others: seq<Event>, xs: seq<Edge>, ys: seq<Edge>)
    requires forall e :: e in xs <==> e in b.Rebuild(files)
    requires forall e :: e in ys <==> e in b.Rebuild(others)
    ensures Linked(xs, ys) <==> LinksNothingNew(b, files, others, ys)
  {
    forall ev, e | ev in files && e in b.EdgesOf(ev)
      ensures e in xs
    {
      b.EdgesAreListed(files, ev, e);
    }
    if LinksNothingNew(b, files, others, ys) {
      forall e | e in xs
        ensures e.target in Ends(ys, e.source)
      {
        var ev := b.OriginOf(files, e);
        if ev in others {
          b.EdgesAreListed(others, ev, e);
          assert e in ys;
        }
      }
    }
  }

  lemma SameIndexesExactly(
    xs: seq<Edge>, ys: seq<Edge>, outs: Adjacency, ins: Adjacency, outs': Adjacency, ins': Adjacency)
    requires IsOutIndex(outs, xs) && IsInIndex(ins, xs) && IsOutIndex(outs', ys) && IsInIndex(ins', ys)
    ensures outs == outs' && ins == ins' <==> Linked(xs, ys) && Linked(ys, xs)
  {
    if Linked(xs, ys) && Linked(ys, xs) {
      SameLinks(xs, ys);
      SameIndexes(xs, ys, outs, ins, outs', ins');
    } else if !Linked(xs, ys) {
      var e :| e in xs && e.target !in Ends(ys, e.source);
      LinkShows(xs, ys, e, outs, outs');
    } else {
      var e :| e in ys && e.target !in Ends(xs, e.source);
      LinkShows(ys, xs, e, outs', outs);
    }
  }

  lemma LinkShows(all: seq<Edge>, some: seq<Edge>, e: Edge, outs: Adjacency, outs': Adjacency)
    requires e in all && e.target !in Ends(some, e.source)
    requires IsOutIndex(outs, all) && IsOutIndex(outs', some)
    ensures outs != outs'
  {
    assert e.target in Ends(all, e.source);
    assert e.source in outs && e.target in outs[e.source];
    if e.source in outs' {
      assert e.target !in outs'[e.source];
    }
  }

  lemma SameLinks(xs: seq<Edge>, ys: seq<Edge>)
    requires Linked(xs, ys) && Linked(ys, xs)
    ensures forall x :: Ends(xs, x) == Ends(ys, x)
    ensures forall y :: Origins(xs, y) == Origins(ys, y)
  {
    forall x
      ensures Ends(xs, x) == Ends(ys, x)
    {
      forall t
        ensures t in Ends(xs, x) <==> t in Ends(ys, x)
      {
        if t in Ends(xs, x) {
          var e :| e in xs && e.source == x && e.target == t;
        }
        if t in Ends(ys, x) {
          var e :| e in ys && e.source == x && e.target == t;
        }
      }
    }
    forall y
      ensures Origins(xs, y) == Origins(ys, y)
    {
      forall t
        ensures t in Origins(xs, y) <==> t in Origins(ys, y)
      {
        assert t in Origins(xs, y) <==> y in Ends(xs, t);
        assert t in Origins(ys, y) <==> y in Ends(ys, t);
      }
    }
  }

  lemma SameMembers(xs: seq<Edge>, ys: seq<Edge>)
    requires multiset(xs) == multiset(ys)
    ensures forall e :: e in xs <==> e in ys
  {
    forall e: Edge
      ensures e in xs <==> e in ys
    {
      assert e in xs <==> e in multiset(xs);
      assert e in ys <==> e in multiset(ys);
    }
  }

  lemma SameIndexes(
    xs: seq<Edge>, ys: seq<Edge>, outs: Adjacency, ins: Adjacency, outs': Adjacency, ins': Adjacency)
    requires forall x :: Ends(xs, x) == Ends(ys, x)
    requires forall y :: Origins(xs, y) == Origins(ys, y)
    requires IsOutIndex(outs, xs) && IsInIndex(ins, xs) && IsOutIndex(outs', ys) && IsInIndex(ins', ys)
    ensures outs == outs' && ins == ins'
  {
    SourcesHaveEnds(xs);
    SourcesHaveEnds(ys);
    assert outs.Keys == outs'.Keys;
    TargetsHaveOrigins(xs);
    TargetsHaveOrigins(ys);
    assert ins.Keys == ins'.Keys;
  }

  lemma SourcesHaveEnds(edges: seq<Edge>)
    ensures forall x :: x in (set e | e in edges :: e.source) <==> Ends(edges, x) != {}
  {
    forall e | e in edges
      ensures Ends(edges, e.source) != {}
    {
      assert e.target in Ends(edges, e.source);
    }
    forall x | Ends(edges, x) != {}
      ensures x in (set e | e in edges :: e.source)
    {
      var t :| t in Ends(edges, x);
    }
  }

  lemma TargetsHaveOrigins(edges: seq<Edge>)
    ensures forall y :: y in (set e | e in edges :: e.target) <==> Origins(edges, y) != {}
  {
    forall e | e in edges
      ensures Origins(edges, e.target) != {}
    {
      assert e.source in Origins(edges, e.target);
    }
    forall y | Origins(edges, y) != {}
      ensures y in (set e | e in edges :: e.target)
    {
      var t :| t in Origins(edges, y);
    }
  }
}
