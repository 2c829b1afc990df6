/**
 Indexing files by path (omnicode/search/engine.py): every upsert deletes a path's chunks
 before it inserts the new ones. That ordering alone keeps the two stores in agreement.
 */
module SemanticIndex {
  import opened Sequences
  import opened VectorStore

  // ------------------------------------------------------------ canonical paths

  function ReplaceChar(s: string, a: char, b: char): (r: string)
    ensures |r| == |s|
    ensures forall i | 0 <= i < |s| :: r[i] == if s[i] == a then b else s[i]
  {
    seq(|s|, i requires 0 <= i < |s| => if s[i] == a then b else s[i])
  }

  predicate DotSlash(s: string) {
    |s| >= 2 && s[0] == '.' && s[1] == '/'
  }

  function StripDotSlash(s: string): (r: string)
    ensures !DotSlash(r)
  {
    if DotSlash(s) then StripDotSlash(s[2..]) else s
  }

  function Canonical(path: string): string {
    StripDotSlash(ReplaceChar(path, '\\', '/'))
  }

  /** The spelling older indexes used on Windows. */
  function Legacy(path: string): string {
    ReplaceChar(path, '/', '\\')
  }

  ghost predicate IsCanonical(path: string) {
    '\\' !in path && !("./" <= path)
  }

  /** `_norm_path` */
  method NormPath(path: string) returns (p: string)
    ensures p == Canonical(path)
  {
    if path == "" {
      return path;
    }
    p := ReplaceChar(path, '\\', '/');
    while DotSlash(p)
      invariant StripDotSlash(p) == Canonical(path)
      decreases |p|
    {
      p := p[2..];
    }
  }

  lemma {:induction false} StripKeepsOut(s: string, c: char)
    requires forall i | 0 <= i < |s| :: s[i] != c
    ensures c !in StripDotSlash(s)
  {
    if DotSlash(s) {
      StripKeepsOut(s[2..], c);
    }
  }

  lemma CanonicalIsCanonical(path: string)
    ensures IsCanonical(Canonical(path))
  {
    StripKeepsOut(ReplaceChar(path, '\\', '/'), '\\');
  }

  /** One key per file: canonical paths are exactly the fixed points, and other spellings map back to them. */
  lemma CanonicalFixedPoints(path: string)
    ensures Canonical(path) == path <==> IsCanonical(path)
    ensures Canonical(Canonical(path)) == Canonical(path)
    ensures IsCanonical(path) ==> Canonical(Legacy(path)) == path
    ensures IsCanonical(path) ==> (Legacy(path) != path ==> !IsCanonical(Legacy(path)))
  {
    CanonicalIsCanonical(path);
    if IsCanonical(path) {
      assert ReplaceChar(path, '\\', '/') == path;
      assert ReplaceChar(Legacy(path), '\\', '/') == path;
      if Legacy(path) != path {
        var i :| 0 <= i < |path| && Legacy(path)[i] != path[i];
        assert Legacy(path)[i] == '\\';
      }
    }
    assert ReplaceChar(Canonical(path), '\\', '/') == Canonical(path);
  }

  /** A leading "./" goes. */
  lemma LeadingDotSlash(path: string)
    ensures Canonical("./" + path) == Canonical(path)
  {
    var plain, dotted := ReplaceChar(path, '\\', '/'), ReplaceChar("./" + path, '\\', '/');
    assert dotted == "./" + plain && dotted[2..] == plain;
  }

  // ------------------------------------------------------------ chunks of a file

  /** `_limit_semantic_chunks`; a limit of 0 or less means none. */
  function Limit(chunks: seq<Chunk>, limit: int): (r: seq<Chunk>)
    ensures r <= chunks && |r| == if 0 < limit < |chunks| then limit else |chunks|
  {
    if limit <= 0 || |chunks| <= limit then chunks else chunks[..limit]
  }

  /**
   The embedding backend at the time of a call, and how the index status reads beside it: stale or
   invalid, and without metadata.
   */
  datatype Backend = Unavailable | Loaded(dimension: nat, encode: string -> Vec, stale: bool, unlabelled: bool)

  /**
   What a call reports: a count, nothing done, an error, whether there was something to delete, an
   empty index, or a mounted one.
   */
  datatype Outcome = Written(count: nat) | Skipped | Raised | Deleted(existed: bool) | Emptied | Mounted

  datatype Upload = Upload(path: string, content: string, info: Info, limit: int)

  /** A file's current chunks, and the metadata and the vectors of texts they were written with. */
  datatype FileEntry = FileEntry(chunks: seq<Chunk>, info: Info, vector: string -> Vec)

  /** The unit vectors an encoder gives. */
  function Vectors(normalize: Vec -> Vec, encode: string -> Vec): string -> Vec {
    text => normalize(encode(text))
  }

  datatype Fact = Fact(path: string, chunk: Chunk, info: Info)

  function FactOf(row: Row): Fact {
    Fact(row.path, row.chunk, row.info)
  }

  /** The rows are exactly the chunks of `files`, each with the vector of its own text. */
  ghost predicate Holds(rows: map<nat, Row>, files: map<string, FileEntry>) {
    && (forall k | k in rows :: IsFact(files, rows[k]))
    && (forall p, c | p in files && c in files[p].chunks :: Stored(rows, p, c, files[p].info))
  }

  ghost predicate IsFact(files: map<string, FileEntry>, row: Row) {
    && row.path in files && row.chunk in files[row.path].chunks && row.info == files[row.path].info
    && row.embedding == files[row.path].vector(row.chunk.text)
  }

  ghost predicate Stored(rows: map<nat, Row>, path: string, chunk: Chunk, info: Info) {
    exists k :: k in rows && FactOf(rows[k]) == Fact(path, chunk, info)
  }

  function PathsOf(uploads: seq<Upload>): set<string> {
    set u | u in uploads :: Canonical(u.path)
  }

  lemma CanonicalPaths(uploads: seq<Upload>)
    ensures forall p | p in PathsOf(uploads) :: IsCanonical(p)
  {
    forall u | u in uploads
      ensures IsCanonical(Canonical(u.path))
    {
      CanonicalIsCanonical(u.path);
    }
  }

  /** The paths and their legacy spellings. */
  function AllSpellings(paths: set<string>): set<string> {
    paths + set p | p in paths :: Legacy(p)
  }

  lemma PathsSnoc(uploads: seq<Upload>, i: nat)
    requires i < |uploads|
    ensures PathsOf(uploads[..i + 1]) == PathsOf(uploads[..i]) + {Canonical(uploads[i].path)}
  {
    assert uploads[..i + 1] == uploads[..i] + [uploads[i]];
  }

  lemma SpellingsSnoc(paths: set<string>, p: string)
    ensures AllSpellings(paths + {p}) == AllSpellings(paths) + {p, Legacy(p)}
  {
  }

  lemma DeleteHolds(rows: map<nat, Row>, files: map<string, FileEntry>, paths: set<string>)
    requires Holds(rows, files)
    ensures Holds(rows - IdsOf(rows, paths), files - paths)
  {
    var rows' := rows - IdsOf(rows, paths);
    forall p, c | p in files - paths && c in (files - paths)[p].chunks
      ensures Stored(rows', p, c, (files - paths)[p].info)
    {
      assert Stored(rows, p, c, files[p].info);
      var k :| k in rows && FactOf(rows[k]) == Fact(p, c, files[p].info);
      assert k in rows';
    }
  }

  /** Rows added for paths that held nothing. */
  lemma ExtendHolds(
    rows: map<nat, Row>, rows': map<nat, Row>, added: seq<Row>,
    files: map<string, FileEntry>, more: map<string, FileEntry>)
    requires Holds(rows, files) && Extends(rows, rows', added)
    requires files.Keys !! more.Keys
    requires forall row | row in added :: IsFact(more, row)
    requires forall p, c | p in more && c in more[p].chunks ::
      exists row :: row in added && FactOf(row) == Fact(p, c, more[p].info)
    ensures Holds(rows', files + more)
  {
    var files' := files + more;
    forall p, c | p in files' && c in files'[p].chunks
      ensures Stored(rows', p, c, files'[p].info)
    {
      if p in more {
        var row :| row in added && FactOf(row) == Fact(p, c, more[p].info);
        assert row in rows'.Values;
        var k :| k in rows' && rows'[k] == row;
      } else {
        assert Stored(rows, p, c, files[p].info);
        var k :| k in rows && FactOf(rows[k]) == Fact(p, c, files[p].info);
        assert k in rows' && rows'[k] == rows[k];
      }
    }
  }

  // ------------------------------------------------------------ hashes of indexed files

  /** What `indexed_file_hashes` reads from a row; no hash stands for a missing or unusable one. */
  datatype HashRow = HashRow(path: string, workspace: string, hash: string)

  /** An empty workspace selects every row. */
  predicate Selected(row: HashRow, workspace: string) {
    workspace == "" || row.workspace == workspace
  }

  /** All selected rows of `path` among `rows` carry the hash `h`, and there is one. */
  ghost predicate Unanimous(rows: seq<HashRow>, workspace: string, path: string, h: string) {
    && h != ""
    && (exists row :: row in rows && row.path == path && Selected(row, workspace))
    && (forall row | row in rows && row.path == path && Selected(row, workspace) :: row.hash == h)
  }

  ghost predicate Disputed(rows: seq<HashRow>, workspace: string, path: string) {
    exists r, s :: r in rows && s in rows && r.path == s.path == path &&
      Selected(r, workspace) && Selected(s, workspace) && (r.hash == "" || r.hash != s.hash)
  }

  /** The collected hashes are right about one path, given the rows read so far. */
  ghost predicate RightHash(
    rows: seq<HashRow>, workspace: string, path: string, hashes: map<string, string>, missing: set<string>)
  {
    if path in missing then path !in hashes && Disputed(rows, workspace, path)
    else if path in hashes then Unanimous(rows, workspace, path, hashes[path])
    else forall row | row in rows && row.path == path :: !Selected(row, workspace)
  }

  lemma OtherHash(rows: seq<HashRow>, row: HashRow, workspace: string, path: string, hashes: map<string, string>,
      missing: set<string>)
    requires RightHash(rows, workspace, path, hashes, missing) && (row.path != path || !Selected(row, workspace))
    ensures RightHash(rows + [row], workspace, path, hashes, missing)
  {
    assert forall r | r in rows :: r in rows + [row];
  }

  lemma StillDisputed(rows: seq<HashRow>, row: HashRow, workspace: string)
    requires Disputed(rows, workspace, row.path)
    ensures Disputed(rows + [row], workspace, row.path)
  {
    assert forall r | r in rows :: r in rows + [row];
  }

  lemma NewDispute(rows: seq<HashRow>, row: HashRow, workspace: string, hashes: map<string, string>)
    requires Selected(row, workspace)
    requires row.path in hashes ==> Unanimous(rows, workspace, row.path, hashes[row.path])
    requires row.hash == "" || (row.path in hashes && hashes[row.path] != row.hash)
    ensures Disputed(rows + [row], workspace, row.path)
  {
    assert row in rows + [row];
    if row.hash != "" {
      var r :| r in rows && r.path == row.path && Selected(r, workspace);
      assert r in rows + [row];
    }
  }

  lemma SameHash(rows: seq<HashRow>, row: HashRow, workspace: string, hashes: map<string, string>)
    requires Selected(row, workspace) && row.hash != "" && RightHash(rows, workspace, row.path, hashes, {})
    requires row.path in hashes ==> hashes[row.path] == row.hash
    ensures Unanimous(rows + [row], workspace, row.path, row.hash)
  {
    assert row in rows + [row];
  }

  /** The loop's body. */
  method ReadHash(row: HashRow, workspace: string, hashes: map<string, string>, missing: set<string>,
      ghost rows: seq<HashRow>)
    returns (hashes': map<string, string>, missing': set<string>)
    requires forall p :: RightHash(rows, workspace, p, hashes, missing)
    ensures forall p :: RightHash(rows + [row], workspace, p, hashes', missing')
  {
    hashes', missing' := hashes, missing;
    assert RightHash(rows, workspace, row.path, hashes, missing);
    if row.path in missing {
      StillDisputed(rows, row, workspace);
    } else if Selected(row, workspace) {
      if row.hash == "" || (row.path in hashes && hashes[row.path] != row.hash) {
        NewDispute(rows, row, workspace, hashes);
        hashes' := hashes - {row.path};
        missing' := missing + {row.path};
      } else {
        SameHash(rows, row, workspace, hashes);
        hashes' := hashes[row.path := row.hash];
      }
    } else {
      OtherHash(rows, row, workspace, row.path, hashes, missing);
    }
    forall p | p != row.path
      ensures RightHash(rows + [row], workspace, p, hashes', missing')
    {
      OtherHash(rows, row, workspace, p, hashes, missing);
    }
  }

  lemma HashesAreUnanimous(rows: seq<HashRow>, workspace: string, hashes: map<string, string>, missing: set<string>,
      p: string, h: string)
    requires RightHash(rows, workspace, p, hashes, missing)
    ensures (p in hashes && hashes[p] == h) <==> Unanimous(rows, workspace, p, h)
  {
  }

  /** Whatever order the rows come in, a file gets a hash exactly when all its selected rows carry that one. */
  method IndexedFileHashes(rows: seq<HashRow>, workspace: string) returns (hashes: map<string, string>)
    ensures forall p, h :: (p in hashes && hashes[p] == h) <==> Unanimous(rows, workspace, p, h)
  {
    hashes := map[];
    var missing: set<string> := {};
    for i := 0 to |rows|
      invariant forall p :: RightHash(rows[..i], workspace, p, hashes, missing)
    {
      assert rows[..i + 1] == rows[..i] + [rows[i]];
      hashes, missing := ReadHash(rows[i], workspace, hashes, missing, rows[..i]);
    }
    assert rows[..|rows|] == rows;
    forall p, h
      ensures (p in hashes && hashes[p] == h) <==> Unanimous(rows, workspace, p, h)
    {
      assert RightHash(rows, workspace, p, hashes, missing);
      HashesAreUnanimous(rows, workspace, hashes, missing, p, h);
    }
  }

  // ------------------------------------------------------------ hashes of the files held

  function Get(info: Info, key: string): string {
    if key in info then info[key] else ""
  }

  /** The hash a row carries: that of its content, or of the snapshot it was taken from. */
  function HashIn(info: Info): string {
    if Get(info, "content_hash") != "" then Get(info, "content_hash") else Get(info, "snapshot_hash")
  }

  function HashRowOf(path: string, info: Info): HashRow {
    HashRow(path, Get(info, "workspace_id"), HashIn(info))
  }

  /** The file was written last with this hash, for this workspace, and left a chunk. */
  ghost predicate HashOf(files: map<string, FileEntry>, workspace: string, path: string, h: string) {
    && path in files && files[path].chunks != [] && h != ""
    && var info := files[path].info;
    && (if "content_hash" in info && info["content_hash"] != "" then h == info["content_hash"]
        else "snapshot_hash" in info && h == info["snapshot_hash"])
    && (workspace == "" || ("workspace_id" in info && info["workspace_id"] == workspace))
  }

  /** `SELECT file_path, metadata FROM chunks`, in any order. */
  method HashRows(rows: map<nat, Row>) returns (r: seq<HashRow>)
    ensures forall row :: row in r <==> exists k :: k in rows && row == HashRowOf(rows[k].path, rows[k].info)
  {
    r := [];
    var todo := rows.Keys;
    while todo != {}
      invariant todo <= rows.Keys
      invariant forall row :: row in r <==>
        exists k :: k in rows && k !in todo && row == HashRowOf(rows[k].path, rows[k].info)
    {
      var k :| k in todo;
      todo := todo - {k};
      r := r + [HashRowOf(rows[k].path, rows[k].info)];
    }
  }

  /** All rows of a file carry what it was written with. */
  lemma HashesOfFiles(
    table: map<nat, Row>, files: map<string, FileEntry>, rows: seq<HashRow>, workspace: string, path: string, h: string)
    requires Holds(table, files)
    requires forall row :: row in rows <==> exists k :: k in table && row == HashRowOf(table[k].path, table[k].info)
    ensures Unanimous(rows, workspace, path, h) <==> HashOf(files, workspace, path, h)
  {
    forall row | row in rows && row.path == path
      ensures path in files && files[path].chunks != [] && row == HashRowOf(path, files[path].info)
    {
      var k :| k in table && row == HashRowOf(table[k].path, table[k].info);
      assert IsFact(files, table[k]);
    }
    if path in files && files[path].chunks != [] {
      var c := files[path].chunks[0];
      assert c in files[path].chunks && Stored(table, path, c, files[path].info);
      var k :| k in table && FactOf(table[k]) == Fact(path, c, files[path].info);
      assert HashRowOf(table[k].path, table[k].info) in rows;
    }
  }

  // ------------------------------------------------------------ chunk ids

  /** Chunk ids start with their file's path: `owner` recovers it, and a file repeats no id. */
  ghost predicate IdsBelong(owner: string -> string, chunks: seq<Chunk>, path: string) {
    && (forall c | c in chunks :: owner(c.id) == path)
    && (forall i, j | 0 <= i < j < |chunks| :: chunks[i].id != chunks[j].id)
  }

  lemma LimitBelongs(owner: string -> string, chunks: seq<Chunk>, path: string, limit: int)
    requires IdsBelong(owner, chunks, path)
    ensures IdsBelong(owner, Limit(chunks, limit), path)
  {
  }

  ghost predicate AllBelong(owner: string -> string, files: map<string, FileEntry>) {
    forall p | p in files :: IdsBelong(owner, files[p].chunks, p)
  }

  /** No stored chunk has the id of a chunk of `p` that is still to be written. */
  lemma NextIdIsNew(
    owner: string -> string, rows: map<nat, Row>, files: map<string, FileEntry>,
    p: string, chunks: seq<Chunk>, n: nat, info: Info, vector: string -> Vec)
    requires n < |chunks| && IdsBelong(owner, chunks, p) && AllBelong(owner, files) && p !in files
    requires Holds(rows, files[p := FileEntry(chunks[..n], info, vector)])
    ensures forall k | k in rows :: rows[k].chunk.id != chunks[n].id
  {
    forall k | k in rows
      ensures rows[k].chunk.id != chunks[n].id
    {
      assert IsFact(files[p := FileEntry(chunks[..n], info, vector)], rows[k]);
      if rows[k].path == p {
        var i :| 0 <= i < n && chunks[i] == rows[k].chunk;
      } else {
        assert owner(rows[k].chunk.id) == rows[k].path;
      }
    }
  }

  lemma NothingWritten(
    rows: map<nat, Row>, files: map<string, FileEntry>,
    p: string, chunks: seq<Chunk>, info: Info, vector: string -> Vec)
    requires Holds(rows, files) && p !in files
    ensures Holds(rows, files[p := FileEntry(chunks[..0], info, vector)])
  {
    var files' := files[p := FileEntry(chunks[..0], info, vector)];
    forall k | k in rows
      ensures IsFact(files', rows[k])
    {
      assert IsFact(files, rows[k]);
    }
  }

  /** Writing one more chunk of `p`, the others of `p` being written already. */
  lemma OneMoreChunk(
    rows: map<nat, Row>, rows': map<nat, Row>, files: map<string, FileEntry>,
    p: string, chunks: seq<Chunk>, n: nat, info: Info, vector: string -> Vec)
    requires n < |chunks| && Holds(rows, files[p := FileEntry(chunks[..n], info, vector)])
    requires Extends(rows, rows', [Row(p, chunks[n], info, vector(chunks[n].text))])
    ensures Holds(rows', files[p := FileEntry(chunks[..n + 1], info, vector)])
  {
    var row := Row(p, chunks[n], info, vector(chunks[n].text));
    var files0 := files[p := FileEntry(chunks[..n], info, vector)];
    var files' := files[p := FileEntry(chunks[..n + 1], info, vector)];
    assert chunks[..n + 1] == chunks[..n] + [chunks[n]];
    forall q, c | q in files' && c in files'[q].chunks
      ensures Stored(rows', q, c, files'[q].info)
    {
      if q == p && c == chunks[n] {
        assert row in [row];
        assert row in rows'.Values;
        var k :| k in rows' && rows'[k] == row;
      } else {
        assert c in files0[q].chunks;
        assert Stored(rows, q, c, files0[q].info);
        var k :| k in rows && FactOf(rows[k]) == Fact(q, c, files0[q].info);
        assert rows'[k] == rows[k];
      }
    }
  }

  /** The rows are the chunks of `files`, under canonical paths and with ids of their own file. */
  ghost predicate InSync(owner: string -> string, rows: map<nat, Row>, files: map<string, FileEntry>) {
    && Holds(rows, files) && AllBelong(owner, files)
    && forall p | p in files :: IsCanonical(p)
  }

  lemma DeleteInSync(owner: string -> string, rows: map<nat, Row>, files: map<string, FileEntry>, p: string)
    requires InSync(owner, rows, files) && IsCanonical(p)
    ensures InSync(owner, rows - IdsOf(rows, {p}), files - {p})
    ensures |IdsOf(rows, {p})| > 0 <==> HasPath(rows, p)
  {
    DeleteHolds(rows, files, {p});
    CountOfPath(rows, p);
  }

  /** Deleting canonical paths in all spellings touches only the files themselves. */
  lemma DeleteAllInSync(owner: string -> string, rows: map<nat, Row>, files: map<string, FileEntry>, paths: set<string>)
    requires InSync(owner, rows, files) && forall p | p in paths :: IsCanonical(p)
    ensures InSync(owner, rows - IdsOf(rows, AllSpellings(paths)), files - paths)
  {
    DeleteHolds(rows, files, AllSpellings(paths));
    forall p | p in files && p in AllSpellings(paths)
      ensures p in paths
    {
      if p !in paths {
        var q :| q in paths && Legacy(q) == p;
        CanonicalFixedPoints(q);
      }
    }
    assert files - AllSpellings(paths) == files - paths;
  }

  /** An index of canonical paths holds nothing under a legacy spelling. */
  lemma LegacyInSync(owner: string -> string, rows: map<nat, Row>, files: map<string, FileEntry>, p: string)
    requires InSync(owner, rows, files) && IsCanonical(p) && Legacy(p) != p
    ensures IdsOf(rows, {Legacy(p)}) == {} && rows - IdsOf(rows, {Legacy(p)}) == rows
  {
    CanonicalFixedPoints(p);
  }

  ghost predicate HasPath(rows: map<nat, Row>, path: string) {
    exists k :: k in rows && rows[k].path == path
  }

  lemma CountOfPath(rows: map<nat, Row>, path: string)
    ensures |IdsOf(rows, {path})| > 0 <==> HasPath(rows, path)
  {
    if IdsOf(rows, {path}) != {} {
      var k :| k in IdsOf(rows, {path});
      assert rows[k].path == path;
    }
    if HasPath(rows, path) {
      var k :| k in rows && rows[k].path == path;
      assert k in IdsOf(rows, {path});
    }
  }

  // ------------------------------------------------------------ batches

  /** The items of a bulk upsert are the chunks of `batch`, each once. */
  ghost predicate Batches(items: seq<Item>, batch: map<string, FileEntry>) {
    && (forall i | 0 <= i < |items| :: items[i].path in batch)
    && (forall i | 0 <= i < |items| ::
      items[i].chunk in batch[items[i].path].chunks && items[i].info == batch[items[i].path].info)
    && (forall p, c | p in batch && c in batch[p].chunks :: HasItem(items, p, c))
    && (forall i, j | 0 <= i < j < |items| :: items[i].chunk.id != items[j].chunk.id)
  }

  ghost predicate HasItem(items: seq<Item>, path: string, chunk: Chunk) {
    exists i :: 0 <= i < |items| && items[i].path == path && items[i].chunk == chunk
  }

  function ItemsOf(path: string, chunks: seq<Chunk>, info: Info, encode: string -> Vec): (r: seq<Item>)
    ensures |r| == |chunks|
    ensures forall i | 0 <= i < |chunks| :: r[i] == Item(path, chunks[i], info, encode(chunks[i].text))
  {
    seq(|chunks|, i requires 0 <= i < |chunks| => Item(path, chunks[i], info, encode(chunks[i].text)))
  }

  lemma BatchOneFile(
    owner: string -> string, items: seq<Item>, batch: map<string, FileEntry>,
    p: string, chunks: seq<Chunk>, info: Info, encode: string -> Vec, vector: string -> Vec)
    requires Batches(items, batch) && AllBelong(owner, batch)
    requires p !in batch && IdsBelong(owner, chunks, p)
    ensures Batches(items + ItemsOf(p, chunks, info, encode), batch[p := FileEntry(chunks, info, vector)])
    ensures AllBelong(owner, batch[p := FileEntry(chunks, info, vector)])
  {
    var more := ItemsOf(p, chunks, info, encode);
    var items', batch' := items + more, batch[p := FileEntry(chunks, info, vector)];
    forall i, j | 0 <= i < j < |items'|
      ensures items'[i].chunk.id != items'[j].chunk.id
    {
      if i < |items| <= j {
        assert owner(items'[i].chunk.id) == items'[i].path;
        assert owner(items'[j].chunk.id) == p;
      }
    }
    forall q, c | q in batch' && c in batch'[q].chunks
      ensures HasItem(items', q, c)
    {
      if q == p {
        var i :| 0 <= i < |chunks| && chunks[i] == c;
        assert items'[|items| + i].chunk == c;
      } else {
        assert HasItem(items, q, c);
        var i :| 0 <= i < |items| && items[i].path == q && items[i].chunk == c;
        assert items'[i] == items[i];
      }
    }
  }

  /** A batch for paths that hold nothing clashes with no stored chunk. */
  lemma BatchIsNew(
    owner: string -> string, rows: map<nat, Row>, files: map<string, FileEntry>, items: seq<Item>,
    batch: map<string, FileEntry>, added: seq<Row>)
    requires Holds(rows, files) && AllBelong(owner, files) && AllBelong(owner, batch)
    requires Batches(items, batch) && files.Keys !! batch.Keys
    requires |added| == |items| && forall i | 0 <= i < |items| ::
      FactOf(added[i]) == Fact(items[i].path, items[i].chunk, items[i].info)
    ensures NewChunks(rows, added)
  {
    forall k, i | k in rows && 0 <= i < |added|
      ensures rows[k].chunk.id != added[i].chunk.id
    {
      assert owner(rows[k].chunk.id) == rows[k].path;
      assert owner(items[i].chunk.id) == items[i].path;
    }
  }

  lemma BatchHolds(
    rows: map<nat, Row>, rows': map<nat, Row>, files: map<string, FileEntry>, items: seq<Item>,
    batch: map<string, FileEntry>, added: seq<Row>)
    requires Holds(rows, files) && Batches(items, batch) && files.Keys !! batch.Keys
    requires |added| == |items| && forall i | 0 <= i < |items| ::
      FactOf(added[i]) == Fact(items[i].path, items[i].chunk, items[i].info)
    requires forall i | 0 <= i < |items| :: added[i].embedding == batch[items[i].path].vector(items[i].chunk.text)
    requires Extends(rows, rows', added)
    ensures Holds(rows', files + batch)
  {
    forall row | row in added
      ensures IsFact(batch, row)
    {
      var i :| 0 <= i < |added| && added[i] == row;
    }
    forall p, c | p in batch && c in batch[p].chunks
      ensures exists row :: row in added && FactOf(row) == Fact(p, c, batch[p].info)
    {
      assert HasItem(items, p, c);
      var i :| 0 <= i < |items| && items[i].path == p && items[i].chunk == c;
      assert added[i] in added;
    }
    ExtendHolds(rows, rows', added, files, batch);
  }

  lemma Overwrite(files: map<string, FileEntry>, batch: map<string, FileEntry>)
    ensures (files - batch.Keys) + batch == files + batch
  {
  }

  lemma Rewrite(files: map<string, FileEntry>, p: string, entry: FileEntry)
    ensures (files - {p})[p := entry] == files[p := entry]
  {
  }

  function LegacyIds(rows: map<nat, Row>): set<nat> {
    set k | k in rows && '\\' in rows[k].path
  }

  /** `_dedupe_legacy_path_rows`, on a store an older version wrote: the stores agree, only spellings of today stay. */
  method DedupeLegacyRows(store: Store) returns (dropped: nat)
    requires store.Valid()
    modifies store`index, store`rows
    ensures store.Valid() && dropped == |LegacyIds(old(store.rows))|
    ensures forall k :: k in store.rows <==> k in old(store.rows) && '\\' !in old(store.rows)[k].path
    ensures forall k | k in store.rows :: store.rows[k] == old(store.rows)[k]
  {
    dropped := store.DropIds(LegacyIds(store.rows));
  }

  ghost predicate NoChunks(files: map<string, FileEntry>) {
    forall p | p in files :: files[p].chunks == []
  }

  lemma EmptyTable(rows: map<nat, Row>, files: map<string, FileEntry>)
    requires Holds(rows, files)
    ensures rows == map[] <==> NoChunks(files)
  {
    if !NoChunks(files) {
      var p :| p in files && files[p].chunks != [];
      var c := files[p].chunks[0];
      assert c in files[p].chunks && Stored(rows, p, c, files[p].info);
    }
    if rows != map[] {
      var k :| k in rows;
      assert IsFact(files, rows[k]);
    }
  }

  lemma HasChunks(rows: map<nat, Row>, files: map<string, FileEntry>, p: string)
    requires Holds(rows, files)
    ensures HasPath(rows, p) <==> p in files && files[p].chunks != []
  {
    if p in files && files[p].chunks != [] {
      var c := files[p].chunks[0];
      assert c in files[p].chunks && Stored(rows, p, c, files[p].info);
    }
    if HasPath(rows, p) {
      var k :| k in rows && rows[k].path == p;
      assert IsFact(files, rows[k]);
    }
  }

  /** What an engine holds: the files, and the size of its vectors. */
  datatype Held = Held(files: map<string, FileEntry>, dimension: nat)

  predicate CanEmbed(backend: Backend) {
    backend.Loaded? && backend.dimension > 0
  }

  /** Whether a backend may write beside what is held. */
  ghost predicate CanWrite(backend: Backend, held: Held) {
    && CanEmbed(backend)
    && (if backend.dimension == held.dimension then !backend.stale && (backend.unlabelled ==> NoChunks(held.files))
        else NoChunks(held.files))
  }

  lemma ReadyWhenItCanWrite(backend: Backend, held: Held, rows: map<nat, Row>)
    requires Holds(rows, held.files)
    ensures Ready(backend, held.dimension, rows) <==> CanWrite(backend, held)
  {
    EmptyTable(rows, held.files);
  }

  /** When a backend may write: it matches the mounted index, or that index is empty and can be reset to it. */
  predicate Ready(backend: Backend, dimension: nat, rows: map<nat, Row>) {
    && CanEmbed(backend)
    && (if backend.dimension == dimension then !backend.stale && (backend.unlabelled ==> rows == map[])
        else rows == map[])
  }

  /** Whether the index comes through a restart. */
  ghost predicate Heals(intact: bool, configured: nat, held: Held) {
    intact || configured == held.dimension || NoChunks(held.files)
  }

  lemma HealedStore(normalize: Vec -> Vec, before: nat, size: nat, index: seq<Entry>, rows: map<nat, Row>)
    requires NormalizesTo(normalize) && UniqueChunks(rows) && forall k | k in rows :: IsUnit(normalize, before, rows[k])
    requires Rebuilt(index, rows, {}, size)
    ensures StoreHolds(normalize, size, index, rows) <==> size == before || rows == map[]
  {
    RebuiltAgrees(index, rows, {}, size);
    if rows != map[] {
      var k :| k in rows;
      assert IsUnit(normalize, before, rows[k]);
    }
  }

  // ------------------------------------------------------------ the engine

  class Engine {
    const store: Store
    const chunker: (string, string) -> seq<Chunk>
    ghost const owner: string -> string
    /** What the index should hold: each canonical path's chunks of its latest completed upsert. */
    ghost var files: map<string, FileEntry>

    ghost predicate GoodChunker() {
      forall content, path :: IdsBelong(owner, chunker(content, path), path)
    }

    ghost predicate Valid()
      reads this, store
    {
      store.Valid() && GoodChunker() && InSync(owner, store.rows, files)
    }

    constructor (store: Store, chunker: (string, string) -> seq<Chunk>, ghost owner: string -> string)
      requires store.Valid() && store.rows == map[]
      requires forall content, path :: IdsBelong(owner, chunker(content, path), path)
      ensures Valid() && files == map[] && this.store == store && this.chunker == chunker
    {
      this.store, this.chunker, this.owner := store, chunker, owner;
      files := map[];
    }

    /** `prepare_semantic_index`: forced it empties the index, otherwise it may reset it but never loses a row. */
    method Prepare(backend: Backend, force: bool) returns (ready: bool)
      requires store.Valid()
      modifies store
      ensures store.Valid() && store.rows == if ready && force then map[] else old(store.rows)
      ensures ready <==> if force then CanEmbed(backend) else Ready(backend, old(store.dimension), old(store.rows))
      ensures store.dimension == if ready then backend.dimension else old(store.dimension)
    {
      SameSize(store.index, store.rows);
      if backend.Unavailable? || backend.dimension == 0 {
        return false;
      }
      if force || (store.index == [] && store.dimension != backend.dimension) {
        var _ := store.ResetIndex(backend.dimension);
        return true;
      }
      return !backend.stale && !(store.index != [] && backend.unlabelled) && store.dimension == backend.dimension;
    }

    /** The index is emptied on request, for a backend that can embed. */
    method Rebuild(backend: Backend) returns (outcome: Outcome)
      requires Valid()
      modifies this`files, store
      ensures Valid() && (Held(files, store.dimension), outcome) ==
        if CanEmbed(backend) then (Held(map[], backend.dimension), Emptied)
        else (old(Held(files, store.dimension)), Raised)
    {
      var ready := Prepare(backend, true);
      if !ready {
        return Raised;
      }
      files := map[];
      return Emptied;
    }

    /**
     The store is opened again beside its table: with its index file, or without one, from the
     stored embeddings. The index stays right exactly when the file is there, the configured size is
     the one held, or nothing is held.
     */
    method Restart(intact: bool, configured: nat) returns (outcome: Outcome)
      requires Valid()
      modifies store`index, store`dimension
      ensures outcome == Mounted && store.dimension == if intact then old(store.dimension) else configured
      ensures Valid() <==> Heals(intact, configured, old(Held(files, store.dimension)))
    {
      EmptyTable(store.rows, files);
      ghost var before := store.dimension;
      var disk := if intact then Some((store.dimension, store.index)) else None;
      var _ := store.Reopen(disk, {}, configured);
      if !intact {
        HealedStore(store.normalize, before, configured, store.index, store.rows);
      }
      outcome := Mounted;
    }

    /** Deletes a canonical path and its legacy spelling. */
    method DeletePath(p: string) returns (deleted: nat)
      requires Valid() && IsCanonical(p)
      modifies this`files, store
      ensures Valid() && files == old(files) - {p}
      ensures deleted > 0 <==> HasPath(old(store.rows), p)
      ensures store.rows == old(store.rows) - IdsOf(old(store.rows), {p})
      ensures store.dimension == old(store.dimension)
    {
      DeleteInSync(owner, store.rows, files, p);
      deleted := store.DeleteByFile(p);
      files := files - {p};
      var legacy := Legacy(p);
      if legacy != p {
        LegacyInSync(owner, store.rows, files, p);
        var more := store.DeleteByFile(legacy);
        deleted := deleted + more;
      }
    }

    method UpsertContent(path: string, content: string, info: Info, backend: Backend) returns (outcome: Outcome)
      requires Valid()
      requires backend.Loaded? ==> forall text :: |backend.encode(text)| == backend.dimension
      modifies this`files, store
      ensures Valid()
      ensures outcome.Skipped? <==> backend.Unavailable?
      ensures outcome.Written? <==>
        Ready(backend, old(store.dimension), old(store.rows) - IdsOf(old(store.rows), {Canonical(path)}))
      ensures outcome.Written? ==>
        var p, chunks := Canonical(path), chunker(content, Canonical(path));
        && outcome.count == |chunks|
        && files == old(files)[p := FileEntry(chunks, info, Vectors(store.normalize, backend.encode))]
      ensures outcome.Written? ==> forall k | k in store.rows && store.rows[k].path == Canonical(path) ::
        store.rows[k].embedding == store.normalize(backend.encode(store.rows[k].chunk.text))
      ensures !outcome.Written? ==> files == old(files) - {Canonical(path)}
      ensures outcome.Written? || outcome.Skipped? || outcome.Raised?
      ensures store.dimension == if outcome.Written? then backend.dimension else old(store.dimension)
    {
      CanonicalIsCanonical(path);
      var p := NormPath(path);
      var _ := DeletePath(p);
      var chunks := chunker(content, p);
      if backend.Unavailable? {
        return Skipped;
      }
      var ready := Prepare(backend, false);
      if !ready {
        return Raised;
      }
      WriteChunks(p, chunks, info, backend.encode);
      ghost var entry := FileEntry(chunks, info, Vectors(store.normalize, backend.encode));
      Rewrite(old(files), p, entry);
      files := files[p := entry];
      assert forall k | k in store.rows :: IsFact(files, store.rows[k]);
      outcome := Written(|chunks|);
    }

    /** The insertion loop of `upsert_content`. */
    method WriteChunks(p: string, chunks: seq<Chunk>, info: Info, encode: string -> Vec)
      requires Valid() && p !in files && IsCanonical(p) && IdsBelong(owner, chunks, p)
      requires forall text :: |encode(text)| == store.dimension
      modifies store
      ensures store.Valid()
      ensures InSync(owner, store.rows, files[p := FileEntry(chunks, info, Vectors(store.normalize, encode))])
      ensures store.dimension == old(store.dimension)
    {
      ghost var vector := Vectors(store.normalize, encode);
      NothingWritten(store.rows, files, p, chunks, info, vector);
      for i := 0 to |chunks|
        invariant store.Valid() && store.dimension == old(store.dimension)
        invariant Holds(store.rows, files[p := FileEntry(chunks[..i], info, vector)])
      {
        ghost var before := store.rows;
        var item := Item(p, chunks[i], info, encode(chunks[i].text));
        NextIdIsNew(owner, before, files, p, chunks, i, info, vector);
        store.Add(item);
        OneMoreChunk(before, store.rows, files, p, chunks, i, info, vector);
      }
      assert chunks[..|chunks|] == chunks;
    }

    method DeleteFileIndex(path: string) returns (existed: bool)
      requires Valid()
      modifies this`files, store
      ensures Valid() && files == old(files) - {Canonical(path)}
      ensures existed <==> HasPath(old(store.rows), Canonical(path))
      ensures store.dimension == old(store.dimension)
    {
      CanonicalIsCanonical(path);
      var p := NormPath(path);
      var n := DeletePath(p);
      existed := n > 0;
    }

    // ---------------------------------------------------------- bulk upserts

    ghost predicate DistinctPaths(uploads: seq<Upload>) {
      forall i, j | 0 <= i < j < |uploads| :: Canonical(uploads[i].path) != Canonical(uploads[j].path)
    }

    /** The files a bulk upsert writes. */
    ghost function BatchOf(uploads: seq<Upload>, vector: string -> Vec): map<string, FileEntry> {
      if uploads == [] then map[]
      else
        var last := uploads[|uploads| - 1];
        BatchOf(uploads[..|uploads| - 1], vector)[Canonical(last.path) :=
          FileEntry(Limit(chunker(last.content, Canonical(last.path)), last.limit), last.info, vector)]
    }

    function ChunkCount(uploads: seq<Upload>): nat {
      if uploads == [] then 0
      else
        var n := |uploads| - 1;
        ChunkCount(uploads[..n]) + |Limit(chunker(uploads[n].content, Canonical(uploads[n].path)), uploads[n].limit)|
    }

    lemma {:induction false} BatchKeys(uploads: seq<Upload>, vector: string -> Vec)
      ensures BatchOf(uploads, vector).Keys == PathsOf(uploads)
      ensures forall p | p in BatchOf(uploads, vector) :: BatchOf(uploads, vector)[p].vector == vector
    {
      if uploads != [] {
        var n := |uploads| - 1;
        BatchKeys(uploads[..n], vector);
        PathsSnoc(uploads, n);
        assert uploads[..n + 1] == uploads;
      }
    }

    lemma BatchSnoc(uploads: seq<Upload>, i: nat, vector: string -> Vec)
      requires i < |uploads| && DistinctPaths(uploads)
      ensures var u := uploads[i];
        var p := Canonical(u.path);
        && p !in BatchOf(uploads[..i], vector)
        && BatchOf(uploads[..i + 1], vector) ==
          BatchOf(uploads[..i], vector)[p := FileEntry(Limit(chunker(u.content, p), u.limit), u.info, vector)]
    {
      BatchKeys(uploads[..i], vector);
      assert uploads[..i + 1][..i] == uploads[..i];
    }

    method UpsertContents(uploads: seq<Upload>, backend: Backend) returns (outcome: Outcome)
      requires Valid() && DistinctPaths(uploads)
      requires backend.Loaded? ==> forall text :: |backend.encode(text)| == backend.dimension
      modifies this`files, store
      ensures Valid()
      ensures outcome.Written? <==> uploads == [] || Ready(backend, old(store.dimension), old(store.rows))
      ensures outcome.Written? && uploads == [] ==> files == old(files)
      ensures outcome.Written? && uploads != [] ==>
        backend.Loaded? && files == old(files) + BatchOf(uploads, Vectors(store.normalize, backend.encode))
      ensures !outcome.Written? ==> files == old(files)
      ensures outcome.Skipped? <==> uploads != [] && backend.Unavailable?
      ensures outcome.Written? ==> outcome.count == ChunkCount(uploads)
      ensures outcome.Written? || outcome.Skipped? || outcome.Raised?
      ensures store.dimension == if outcome.Written? && uploads != [] then backend.dimension else old(store.dimension)
    {
      if uploads == [] {
        return Written(0);
      }
      if backend.Unavailable? {
        return Skipped;
      }
      var ready := Prepare(backend, false);
      if !ready {
        return Raised;
      }
      ghost var vector := Vectors(store.normalize, backend.encode);
      ghost var batch := BatchOf(uploads, vector);
      BatchKeys(uploads, vector);
      CanonicalPaths(uploads);
      Overwrite(files, batch);
      DeleteAll(uploads);
      var items := ChunkAll(uploads, backend.encode, vector);
      WriteItems(items, batch);
      outcome := Written(|items|);
    }

    /** The insertions of a bulk upsert, for paths that hold nothing. */
    method WriteItems(items: seq<Item>, ghost batch: map<string, FileEntry>)
      requires Valid() && Batches(items, batch) && AllBelong(owner, batch)
      requires files.Keys !! batch.Keys && forall p | p in batch :: IsCanonical(p)
      requires forall i | 0 <= i < |items| :: |items[i].embedding| == store.dimension
      requires forall i | 0 <= i < |items| ::
        store.normalize(items[i].embedding) == batch[items[i].path].vector(items[i].chunk.text)
      modifies this`files, store
      ensures Valid() && files == old(files) + batch
      ensures store.dimension == old(store.dimension)
    {
      ghost var before, added := store.rows, store.RowsOf(items);
      BatchIsNew(owner, before, files, items, batch, added);
      if items == [] {
        assert added == [];
      } else {
        store.AddMany(items);
      }
      BatchHolds(before, store.rows, files, items, batch, added);
      files := files + batch;
    }

    /** The deletions of a bulk upsert: every path and legacy spelling, in one `delete_by_files`. */
    method DeleteAll(uploads: seq<Upload>)
      requires Valid() && forall p | p in PathsOf(uploads) :: IsCanonical(p)
      modifies this`files, store
      ensures Valid() && files == old(files) - PathsOf(uploads)
      ensures store.dimension == old(store.dimension)
    {
      var paths := SpellAll(uploads);
      DeleteAllInSync(owner, store.rows, files, PathsOf(uploads));
      var _ := store.DeleteByFiles(paths);
      files := files - PathsOf(uploads);
    }

    method SpellAll(uploads: seq<Upload>) returns (paths: set<string>)
      ensures paths == AllSpellings(PathsOf(uploads))
    {
      paths := {};
      for i := 0 to |uploads|
        invariant paths == AllSpellings(PathsOf(uploads[..i]))
      {
        var p := NormPath(uploads[i].path);
        PathsSnoc(uploads, i);
        SpellingsSnoc(PathsOf(uploads[..i]), p);
        paths := paths + {p, Legacy(p)};
      }
      assert uploads[..|uploads|] == uploads;
    }

    /** The chunks of the first uploads, embedded. */
    ghost predicate Chunked(
      items: seq<Item>, uploads: seq<Upload>, encode: string -> Vec, vector: string -> Vec)
    {
      && |items| == ChunkCount(uploads)
      && Batches(items, BatchOf(uploads, vector)) && AllBelong(owner, BatchOf(uploads, vector))
      && forall i | 0 <= i < |items| :: items[i].embedding == encode(items[i].chunk.text)
    }

    lemma OneMoreUpload(
      items: seq<Item>, uploads: seq<Upload>, i: nat, encode: string -> Vec, vector: string -> Vec)
      requires GoodChunker() && DistinctPaths(uploads) && i < |uploads| && Chunked(items, uploads[..i], encode, vector)
      ensures var p := Canonical(uploads[i].path);
        var chunks := Limit(chunker(uploads[i].content, p), uploads[i].limit);
        Chunked(items + ItemsOf(p, chunks, uploads[i].info, encode), uploads[..i + 1], encode, vector)
    {
      var p := Canonical(uploads[i].path);
      var chunks := Limit(chunker(uploads[i].content, p), uploads[i].limit);
      BatchSnoc(uploads, i, vector);
      assert uploads[..i + 1][..i] == uploads[..i];
      LimitBelongs(owner, chunker(uploads[i].content, p), p, uploads[i].limit);
      BatchOneFile(owner, items, BatchOf(uploads[..i], vector), p, chunks, uploads[i].info, encode, vector);
    }

    method ChunkAll(uploads: seq<Upload>, encode: string -> Vec, ghost vector: string -> Vec)
      returns (items: seq<Item>)
      requires GoodChunker() && DistinctPaths(uploads)
      ensures Batches(items, BatchOf(uploads, vector)) && AllBelong(owner, BatchOf(uploads, vector))
      ensures forall i | 0 <= i < |items| :: items[i].embedding == encode(items[i].chunk.text)
      ensures |items| == ChunkCount(uploads)
    {
      items := [];
      for i := 0 to |uploads|
        invariant Chunked(items, uploads[..i], encode, vector)
      {
        var p := NormPath(uploads[i].path);
        var chunks := Limit(chunker(uploads[i].content, p), uploads[i].limit);
        OneMoreUpload(items, uploads, i, encode, vector);
        items := items + ItemsOf(p, chunks, uploads[i].info, encode);
      }
      assert uploads[..|uploads|] == uploads;
    }

    // ---------------------------------------------------------- hashes

    /** `indexed_file_hashes`: the hash each path's latest written upsert carried, if it left any chunk. */
    method FileHashes(workspace: string) returns (hashes: map<string, string>)
      requires Valid()
      ensures forall p, h :: (p in hashes && hashes[p] == h) <==> HashOf(files, workspace, p, h)
    {
      var rows := HashRows(store.rows);
      hashes := IndexedFileHashes(rows, workspace);
      forall p, h
        ensures (p in hashes && hashes[p] == h) <==> HashOf(files, workspace, p, h)
      {
        HashesOfFiles(store.rows, files, rows, workspace, p, h);
      }
    }

    // ---------------------------------------------------------- runs

    /**
     One call on what is held, and its outcome: a write replaces what a path held, one that fails
     empties the path, and a bulk write that fails changes nothing.
     */
    ghost function Completed(held: Held, op: Op): (Held, Outcome) {
      match op
      case Upsert(path, content, info, backend) =>
        var p, chunks := Canonical(path), chunker(content, Canonical(path));
        var emptied := Held(held.files - {p}, held.dimension);
        if backend.Unavailable? then (emptied, Skipped)
        else if CanWrite(backend, emptied) then
          (Held(held.files[p := FileEntry(chunks, info, Vectors(store.normalize, backend.encode))], backend.dimension),
           Written(|chunks|))
        else (emptied, Raised)
      case UpsertMany(uploads, backend) =>
        if uploads == [] then (held, Written(0))
        else if backend.Unavailable? then (held, Skipped)
        else if CanWrite(backend, held) then
          (Held(held.files + BatchOf(uploads, Vectors(store.normalize, backend.encode)), backend.dimension),
           Written(ChunkCount(uploads)))
        else (held, Raised)
      case Delete(path) =>
        var p := Canonical(path);
        (Held(held.files - {p}, held.dimension), Deleted(p in held.files && held.files[p].chunks != []))
      case Reset(backend) =>
        if CanEmbed(backend) then (Held(map[], backend.dimension), Emptied) else (held, Raised)
      case Reopened(intact, configured) =>
        (Held(held.files, if intact then held.dimension else configured), Mounted)
    }

    /** Every restart of the run finds an index that it can heal. */
    ghost predicate AllHeal(held: Held, ops: seq<Op>) {
      forall i | 0 <= i < |ops| && ops[i].Reopened? ::
        Heals(ops[i].intact, ops[i].configured, After(held, ops[..i]))
    }

    ghost function After(held: Held, ops: seq<Op>): Held {
      if ops == [] then held else Completed(After(held, ops[..|ops| - 1]), ops[|ops| - 1]).0
    }

    ghost function OutcomesOf(held: Held, ops: seq<Op>): seq<Outcome> {
      if ops == [] then []
      else
        var n := |ops| - 1;
        OutcomesOf(held, ops[..n]) + [Completed(After(held, ops[..n]), ops[n]).1]
    }

    ghost predicate WellFormed(op: Op) {
      && (op.UpsertMany? ==> DistinctPaths(op.uploads))
      && ((op.Upsert? || op.UpsertMany?) && op.backend.Loaded? ==>
        forall text :: |op.backend.encode(text)| == op.backend.dimension)
    }

    /** After any run the stores agree, hold exactly what the map of files says, and every outcome is determined. */
    method Run(ops: seq<Op>) returns (outcomes: seq<Outcome>)
      requires Valid() && (forall op | op in ops :: WellFormed(op)) && AllHeal(Held(files, store.dimension), ops)
      modifies this`files, store
      ensures Valid()
      ensures Held(files, store.dimension) == After(old(Held(files, store.dimension)), ops)
      ensures outcomes == OutcomesOf(old(Held(files, store.dimension)), ops)
    {
      outcomes := [];
      for i := 0 to |ops|
        invariant Valid()
        invariant Held(files, store.dimension) == After(old(Held(files, store.dimension)), ops[..i])
        invariant outcomes == OutcomesOf(old(Held(files, store.dimension)), ops[..i])
      {
        assert ops[..i + 1][..i] == ops[..i];
        var outcome := Perform(ops[i]);
        outcomes := outcomes + [outcome];
      }
      assert ops[..|ops|] == ops;
    }

    method Perform(op: Op) returns (outcome: Outcome)
      requires Valid() && WellFormed(op)
      requires op.Reopened? ==> Heals(op.intact, op.configured, Held(files, store.dimension))
      modifies this`files, store
      ensures Valid() && (Held(files, store.dimension), outcome) == Completed(old(Held(files, store.dimension)), op)
    {
      ghost var held := Held(files, store.dimension);
      match op
      case Upsert(path, content, info, backend) =>
        CanonicalIsCanonical(path);
        DeleteInSync(owner, store.rows, files, Canonical(path));
        ReadyWhenItCanWrite(
          backend, Held(files - {Canonical(path)}, store.dimension), store.rows - IdsOf(store.rows, {Canonical(path)}));
        outcome := UpsertContent(path, content, info, backend);
      case UpsertMany(uploads, backend) =>
        ReadyWhenItCanWrite(backend, held, store.rows);
        outcome := UpsertContents(uploads, backend);
      case Delete(path) =>
        HasChunks(store.rows, files, Canonical(path));
        var existed := DeleteFileIndex(path);
        outcome := Deleted(existed);
      case Reset(backend) =>
        outcome := Rebuild(backend);
      case Reopened(intact, configured) =>
        outcome := Restart(intact, configured);
    }
  }

  datatype Op =
    | Upsert(path: string, content: string, info: Info, backend: Backend)
    | UpsertMany(uploads: seq<Upload>, backend: Backend)
    | Delete(path: string)
    | Reset(backend: Backend)
    | Reopened(intact: bool, configured: nat)
}
