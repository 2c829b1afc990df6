/**
 The two-store semantic index (omnicode/search/vector_store.py): a FAISS id map and a
 SQLite table that must hold the same facts. FAISS is an exact list of (id, vector) pairs,
 which, like `IndexIDMap`, accepts an id it already holds; SQLite is a map from the
 primary key `faiss_id` to its row.
 */
module VectorStore {
  import opened Sequences

  type Vec = seq<real>

  datatype Chunk = Chunk(id: string, kind: string, text: string, detail: string)

  /** Index metadata of the upsert that wrote a row, such as the content hash. */
  type Info = map<string, string>

  datatype Row = Row(path: string, chunk: Chunk, info: Info, embedding: Vec)

  datatype Entry = Entry(id: nat, vec: Vec)

  datatype Item = Item(path: string, chunk: Chunk, info: Info, embedding: Vec)

  datatype Hit = Hit(path: string, chunk: Chunk, info: Info, score: real)

  // ------------------------------------------------------------ the tables

  ghost predicate IsMax(s: set<nat>, m: nat) {
    m in s && forall k | k in s :: k <= m
  }

  lemma {:induction false} MaxExists(s: set<nat>)
    requires s != {}
    ensures exists m :: IsMax(s, m)
    decreases |s|
  {
    var x :| x in s;
    var rest := s - {x};
    if rest == {} {
      assert s == {x};
      assert IsMax(s, x);
    } else {
      MaxExists(rest);
      var m :| IsMax(rest, m);
      assert forall k | k in s :: k == x || k in rest;
      assert IsMax(s, if m > x then m else x);
    }
  }

  /** `MAX(faiss_id)`, with 0 for an empty table, plus one. */
  ghost function NextId(rows: map<nat, Row>): (id: nat)
    ensures forall k | k in rows :: k < id
  {
    if rows.Keys == {} then 1
    else
      var m := MaxKey(rows.Keys);
      m + 1
  }

  ghost function MaxKey(s: set<nat>): (m: nat)
    requires s != {}
    ensures IsMax(s, m)
  {
    MaxExists(s);
    var m :| IsMax(s, m);
    m
  }

  /** `INSERT OR REPLACE`: rows with the same key or the same unique chunk id give way. */
  function InsertOrReplace(rows: map<nat, Row>, id: nat, row: Row): map<nat, Row> {
    (map k | k in rows && rows[k].chunk.id != row.chunk.id :: rows[k])[id := row]
  }

  function IdsOf(rows: map<nat, Row>, paths: set<string>): set<nat> {
    set k | k in rows && rows[k].path in paths
  }

  ghost predicate DistinctIds(index: seq<Entry>) {
    forall i, j | 0 <= i < j < |index| :: index[i].id != index[j].id
  }

  ghost predicate UniqueChunks(rows: map<nat, Row>) {
    forall k, l | k in rows && l in rows && k != l :: rows[k].chunk.id != rows[l].chunk.id
  }

  /** FAISS holds each row id exactly once, with the embedding the row stores. */
  ghost predicate Agree(index: seq<Entry>, rows: map<nat, Row>) {
    && DistinctIds(index)
    && (forall i | 0 <= i < |index| :: index[i].id in rows && index[i].vec == rows[index[i].id].embedding)
    && (forall k | k in rows :: Has(index, k))
  }

  ghost predicate Has(index: seq<Entry>, id: nat) {
    exists i :: 0 <= i < |index| && index[i].id == id
  }

  lemma HasSnoc(index: seq<Entry>, e: Entry)
    ensures Has(index + [e], e.id)
    ensures forall k | Has(index, k) :: Has(index + [e], k)
  {
    assert (index + [e])[|index|] == e;
    forall k | Has(index, k)
      ensures Has(index + [e], k)
    {
      var i :| 0 <= i < |index| && index[i].id == k;
      assert (index + [e])[i].id == k;
    }
  }

  // ------------------------------------------------------------ agreement of each write

  /** Appending a vector and inserting its row agree when the chunk id is new. */
  lemma AddAgrees(index: seq<Entry>, rows: map<nat, Row>, id: nat, row: Row)
    requires Agree(index, rows) && UniqueChunks(rows)
    requires id !in rows
    requires forall k | k in rows :: rows[k].chunk.id != row.chunk.id
    ensures Agree(index + [Entry(id, row.embedding)], InsertOrReplace(rows, id, row))
    ensures UniqueChunks(InsertOrReplace(rows, id, row))
    ensures InsertOrReplace(rows, id, row) == rows[id := row]
  {
    var index' := index + [Entry(id, row.embedding)];
    var rows' := rows[id := row];
    assert (map k | k in rows && rows[k].chunk.id != row.chunk.id :: rows[k]) == rows;
    forall k | k in rows'
      ensures Has(index', k)
    {
      if k == id {
        assert index'[|index|].id == k;
      } else {
        var i :| 0 <= i < |index| && index[i].id == k;
        assert index'[i].id == k;
      }
    }
  }

  /**
   `add` keeps the stores in agreement exactly when no stored row has the chunk's id:
   otherwise the replaced row leaves its vector behind in FAISS.
   */
  lemma AddAgreesExactlyWhenNew(index: seq<Entry>, rows: map<nat, Row>, row: Row)
    requires Agree(index, rows) && UniqueChunks(rows)
    ensures Agree(index + [Entry(NextId(rows), row.embedding)], InsertOrReplace(rows, NextId(rows), row))
      <==> forall k | k in rows :: rows[k].chunk.id != row.chunk.id
  {
    var id := NextId(rows);
    if forall k | k in rows :: rows[k].chunk.id != row.chunk.id {
      AddAgrees(index, rows, id, row);
    } else {
      var k :| k in rows && rows[k].chunk.id == row.chunk.id;
      assert Has(index, k);
      var i :| 0 <= i < |index| && index[i].id == k;
      assert (index + [Entry(id, row.embedding)])[i].id !in InsertOrReplace(rows, id, row);
    }
  }

  /** Adding a stored row once more never keeps them in agreement. */
  lemma StoredOnceMore(index: seq<Entry>, rows: map<nat, Row>, k: nat)
    requires Agree(index, rows) && UniqueChunks(rows) && k in rows
    ensures !Agree(index + [Entry(NextId(rows), rows[k].embedding)], InsertOrReplace(rows, NextId(rows), rows[k]))
  {
    AddAgreesExactlyWhenNew(index, rows, rows[k]);
  }

  /** The vectors `add_many` appends, numbered from `start`. */
  function Entries(start: nat, added: seq<Row>): seq<Entry>
    decreases |added|
  {
    if added == [] then [] else [Entry(start, added[0].embedding)] + Entries(start + 1, added[1..])
  }

  /** `executemany` over numbered rows. */
  function InsertMany(rows: map<nat, Row>, start: nat, added: seq<Row>): map<nat, Row>
    decreases |added|
  {
    if added == [] then rows
    else InsertMany(InsertOrReplace(rows, start, added[0]), start + 1, added[1..])
  }

  /** No chunk id of `added` repeats or is stored already. */
  ghost predicate NewChunks(rows: map<nat, Row>, added: seq<Row>) {
    && (forall i, j | 0 <= i < j < |added| :: added[i].chunk.id != added[j].chunk.id)
    && (forall k, i | k in rows && 0 <= i < |added| :: rows[k].chunk.id != added[i].chunk.id)
  }

  /** Without clashes a batch keeps the stores in agreement, and every old row in place. */
  lemma {:induction false} AddManyAgrees(index: seq<Entry>, rows: map<nat, Row>, start: nat, added: seq<Row>)
    requires Agree(index, rows) && UniqueChunks(rows)
    requires forall k | k in rows :: k < start
    requires NewChunks(rows, added)
    ensures Agree(index + Entries(start, added), InsertMany(rows, start, added))
    ensures UniqueChunks(InsertMany(rows, start, added))
    ensures Extends(rows, InsertMany(rows, start, added), added)
    decreases |added|
  {
    if added == [] {
      assert index + Entries(start, added) == index;
    } else {
      AddAgrees(index, rows, start, added[0]);
      var rows' := rows[start := added[0]];
      AddManyAgrees(index + [Entry(start, added[0].embedding)], rows', start + 1, added[1..]);
      ConcatAssociates(index, [Entry(start, added[0].embedding)], Entries(start + 1, added[1..]));
      ExtendsStep(rows, start, rows', InsertMany(rows', start + 1, added[1..]), added);
    }
  }

  /** The ids of the rows that an insertion leaves alone. */
  ghost function Unreplaced(rows: map<nat, Row>, chunk: string): set<nat> {
    set k | k in rows && rows[k].chunk.id != chunk
  }

  lemma TableSize(rows: map<nat, Row>, id: nat, row: Row)
    requires id !in rows
    ensures |InsertOrReplace(rows, id, row)| == |Unreplaced(rows, row.chunk.id)| + 1
  {
    assert InsertOrReplace(rows, id, row).Keys == Unreplaced(rows, row.chunk.id) + {id};
    assert id !in Unreplaced(rows, row.chunk.id);
    var table := InsertOrReplace(rows, id, row);
    assert |table| == |table.Keys|;
  }

  lemma UnreplacedSize(rows: map<nat, Row>, chunk: string)
    ensures |Unreplaced(rows, chunk)| <= |rows|
    ensures |Unreplaced(rows, chunk)| == |rows| ==> forall k | k in rows :: rows[k].chunk.id != chunk
  {
    SubsetSize(Unreplaced(rows, chunk), rows.Keys);
    assert |rows| == |rows.Keys|;
    if Unreplaced(rows, chunk) == rows.Keys {
      assert forall k | k in rows :: k in Unreplaced(rows, chunk);
    }
  }

  /** An insertion that replaces nothing adds a row, any other one adds none. */
  lemma OneRowAtMost(rows: map<nat, Row>, id: nat, row: Row)
    requires id !in rows
    ensures |InsertOrReplace(rows, id, row)| <= |rows| + 1
    ensures |InsertOrReplace(rows, id, row)| == |rows| + 1 ==> forall k | k in rows :: rows[k].chunk.id != row.chunk.id
  {
    TableSize(rows, id, row);
    UnreplacedSize(rows, row.chunk.id);
  }

  lemma NothingReplaced(rows: map<nat, Row>, id: nat, row: Row)
    requires id !in rows && forall k | k in rows :: rows[k].chunk.id != row.chunk.id
    ensures InsertOrReplace(rows, id, row) == rows[id := row]
  {
    assert (map k | k in rows && rows[k].chunk.id != row.chunk.id :: rows[k]) == rows;
  }

  lemma SubsetSize(s: set<nat>, t: set<nat>)
    requires s <= t
    ensures |s| <= |t| && (|s| == |t| ==> s == t)
  {
    assert t == s + (t - s) && |t| == |s| + |t - s|;
  }

  /** Every clash leaves fewer rows than were written. */
  lemma {:induction false} ClashesLoseRows(rows: map<nat, Row>, start: nat, added: seq<Row>)
    requires forall k | k in rows :: k < start
    ensures |InsertMany(rows, start, added)| <= |rows| + |added|
    ensures |InsertMany(rows, start, added)| == |rows| + |added| ==> NewChunks(rows, added)
    decreases |added|
  {
    if added != [] {
      var first := InsertOrReplace(rows, start, added[0]);
      OneRowAtMost(rows, start, added[0]);
      ClashesLoseRows(first, start + 1, added[1..]);
      if |first| == |rows| + 1 && NewChunks(first, added[1..]) {
        NothingReplaced(rows, start, added[0]);
        NewAfterFirst(rows, start, added);
      }
    }
  }

  lemma NewAfterFirst(rows: map<nat, Row>, start: nat, added: seq<Row>)
    requires added != [] && start !in rows
    requires NewChunks(rows[start := added[0]], added[1..])
    requires forall k | k in rows :: rows[k].chunk.id != added[0].chunk.id
    ensures NewChunks(rows, added)
  {
    var first := rows[start := added[0]];
    forall i | 1 <= i < |added|
      ensures added[i].chunk.id != added[0].chunk.id
      ensures forall k | k in rows :: rows[k].chunk.id != added[i].chunk.id
    {
      assert added[i] == added[1..][i - 1] && first[start] == added[0];
      forall k | k in rows
        ensures rows[k].chunk.id != added[i].chunk.id
      {
        assert first[k] == rows[k];
      }
    }
    forall i, j | 0 <= i < j < |added|
      ensures added[i].chunk.id != added[j].chunk.id
    {
      if i > 0 {
        assert added[i] == added[1..][i - 1] && added[j] == added[1..][j - 1];
      }
    }
  }

  lemma {:induction false} EntriesSize(start: nat, added: seq<Row>)
    ensures |Entries(start, added)| == |added|
    decreases |added|
  {
    if added != [] {
      EntriesSize(start + 1, added[1..]);
    }
  }

  /** A batch keeps the stores in agreement exactly when none of its chunk ids is stored or repeats. */
  lemma AddManyAgreesExactlyWhenNew(index: seq<Entry>, rows: map<nat, Row>, added: seq<Row>)
    requires Agree(index, rows) && UniqueChunks(rows)
    ensures Agree(index + Entries(NextId(rows), added), InsertMany(rows, NextId(rows), added)) <==>
      NewChunks(rows, added)
  {
    var start := NextId(rows);
    if NewChunks(rows, added) {
      AddManyAgrees(index, rows, start, added);
    } else if Agree(index + Entries(start, added), InsertMany(rows, start, added)) {
      SameSize(index, rows);
      SameSize(index + Entries(start, added), InsertMany(rows, start, added));
      EntriesSize(start, added);
      ClashesLoseRows(rows, start, added);
    }
  }

  /** `rows'` is `rows` with `added` under fresh keys. */
  ghost predicate Extends(rows: map<nat, Row>, rows': map<nat, Row>, added: seq<Row>) {
    && (forall k | k in rows :: k in rows' && rows'[k] == rows[k])
    && (forall k | k in rows' && k !in rows :: rows'[k] in added)
    && (forall row | row in added :: row in rows'.Values)
  }

  lemma ExtendsStep(rows: map<nat, Row>, start: nat, rows1: map<nat, Row>, rows2: map<nat, Row>, added: seq<Row>)
    requires added != [] && start !in rows && rows1 == rows[start := added[0]]
    requires Extends(rows1, rows2, added[1..])
    ensures Extends(rows, rows2, added)
  {
    forall row | row in added
      ensures row in rows2.Values
    {
      if row == added[0] {
        assert rows2[start] == row;
      } else {
        assert row in added[1..];
      }
    }
  }

  function NotAmong(ids: set<nat>): Entry -> bool {
    (e: Entry) => e.id !in ids
  }

  /** Dropping a set of ids from both stores. */
  lemma DropAgrees(index: seq<Entry>, rows: map<nat, Row>, ids: set<nat>)
    requires Agree(index, rows) && UniqueChunks(rows)
    ensures Agree(Filter(NotAmong(ids), index), rows - ids) && UniqueChunks(rows - ids)
  {
    var p := NotAmong(ids);
    var kept := Filter(p, index);
    FilterKeepsDistinctIds(p, index);
    forall i | 0 <= i < |kept|
      ensures kept[i].id in rows - ids && kept[i].vec == (rows - ids)[kept[i].id].embedding
    {
      assert kept[i] in kept;
    }
    forall k | k in rows - ids
      ensures Has(kept, k)
    {
      assert Has(index, k);
      var i :| 0 <= i < |index| && index[i].id == k;
      assert index[i] in kept;
      var j :| 0 <= j < |kept| && kept[j] == index[i];
    }
  }

  lemma {:induction false} FilterKeepsDistinctIds(p: Entry -> bool, index: seq<Entry>)
    requires DistinctIds(index)
    ensures DistinctIds(Filter(p, index))
  {
    if index != [] {
      FilterKeepsDistinctIds(p, index[1..]);
      if p(index[0]) {
        var rest := Filter(p, index[1..]);
        forall j | 0 <= j < |rest|
          ensures rest[j].id != index[0].id
        {
          assert rest[j] in index[1..];
        }
      }
    }
  }

  // ------------------------------------------------------------ exact search

  function Dot(a: Vec, b: Vec): real {
    if a == [] || b == [] then 0.0 else a[0] * b[0] + Dot(a[1..], b[1..])
  }

  /** The inner product of vectors of one size grows by the product of one more component of each. */
  lemma {:induction false} DotSnoc(a: Vec, b: Vec, x: real, y: real)
    requires |a| == |b|
    ensures Dot([], []) == 0.0 && Dot(a + [x], b + [y]) == Dot(a, b) + x * y
  {
    if a == [] {
      assert a + [x] == [x] && b + [y] == [y] && [x][1..] == [] && [y][1..] == [];
    } else {
      DotSnoc(a[1..], b[1..], x, y);
      assert (a + [x])[1..] == a[1..] + [x] && (b + [y])[1..] == b[1..] + [y];
    }
  }

  /** `hits` are `k` entries of highest inner product, best first; ties fall either way. */
  ghost predicate IsTopK(hits: seq<nat>, index: seq<Entry>, query: Vec, k: nat) {
    && |hits| == (if k < |index| then k else |index|)
    && Distinct(hits)
    && (forall i | 0 <= i < |hits| :: 0 <= hits[i] < |index|)
    && (forall i, j | 0 <= i < j < |hits| :: Dot(query, index[hits[i]].vec) >= Dot(query, index[hits[j]].vec))
    && (forall i, e: nat | 0 <= i < |hits| && e < |index| && e !in hits ::
      Dot(query, index[hits[i]].vec) >= Dot(query, index[e].vec))
  }

  /** Position `a` scores at least as high as position `b`. */
  function Beats(index: seq<Entry>, query: Vec): (nat, nat) -> bool {
    (a: nat, b: nat) => a < |index| && b < |index| && Dot(query, index[a].vec) >= Dot(query, index[b].vec)
  }

  lemma PrefixIsTopK(hits: seq<nat>, ranked: seq<nat>, index: seq<Entry>, query: Vec, k: nat)
    requires |ranked| == |index| && Distinct(ranked)
    requires forall i | 0 <= i < |ranked| :: ranked[i] < |index|
    requires forall e: nat | e < |index| :: e in ranked
    requires SortedBy(Beats(index, query), ranked)
    requires hits <= ranked && |hits| == if k < |index| then k else |index|
    ensures IsTopK(hits, index, query, k)
  {
    forall i, j | 0 <= i < j < |ranked|
      ensures Dot(query, index[ranked[i]].vec) >= Dot(query, index[ranked[j]].vec)
    {
      assert Beats(index, query)(ranked[i], ranked[j]);
    }
    forall i, e: nat | 0 <= i < |hits| && e < |index| && e !in hits
      ensures Dot(query, index[hits[i]].vec) >= Dot(query, index[e].vec)
    {
      assert e in ranked;
      var j :| 0 <= j < |ranked| && ranked[j] == e;
      assert j >= |hits| && hits[i] == ranked[i];
    }
  }

  /** The flat index: every vector is scored, the best `k` positions are returned. */
  method FlatSearch(index: seq<Entry>, query: Vec, k: nat) returns (hits: seq<nat>)
    ensures IsTopK(hits, index, query, k)
    ensures k >= |index| ==> forall e: nat | e < |index| :: e in hits
  {
    var all: seq<nat> := seq(|index|, i => i);
    var ranked := Sort(Beats(index, query), all);
    SortSorted(Beats(index, query), all);
    DistinctOfMultiset(all, ranked);
    forall e: nat | e < |index|
      ensures e in ranked
    {
      assert all[e] == e;
    }
    hits := if k < |ranked| then ranked[..k] else ranked;
    PrefixIsTopK(hits, ranked, index, query, k);
  }

  // ------------------------------------------------------------ rebuilding the index

  /** An entry taken from a row's stored embedding of this size. */
  ghost predicate Restored(entry: Entry, rows: map<nat, Row>, legacy: set<nat>, size: nat) {
    && entry.id in rows && entry.id !in legacy
    && |rows[entry.id].embedding| == size && entry.vec == rows[entry.id].embedding
  }

  /** The index holds exactly the stored embeddings of this size. */
  ghost predicate Rebuilt(index: seq<Entry>, rows: map<nat, Row>, legacy: set<nat>, size: nat) {
    && DistinctIds(index)
    && (forall i | 0 <= i < |index| :: Restored(index[i], rows, legacy, size))
    && (forall k | k in rows && k !in legacy && |rows[k].embedding| == size :: Has(index, k))
  }

  /** A rebuilt index agrees with the table if and only if every row has a stored embedding of the size. */
  lemma RebuiltAgrees(index: seq<Entry>, rows: map<nat, Row>, legacy: set<nat>, size: nat)
    requires Rebuilt(index, rows, legacy, size)
    ensures Agree(index, rows) <==> forall k | k in rows :: k !in legacy && |rows[k].embedding| == size
  {
    if k :| k in rows && (k in legacy || |rows[k].embedding| != size) {
      assert !Has(index, k);
    }
  }

  /** Some row has a stored embedding of this size. */
  ghost predicate Fits(rows: map<nat, Row>, legacy: set<nat>, size: nat) {
    exists k :: k in rows && k !in legacy && |rows[k].embedding| == size
  }

  lemma RebuiltFits(index: seq<Entry>, rows: map<nat, Row>, legacy: set<nat>, size: nat)
    requires Rebuilt(index, rows, legacy, size)
    ensures index != [] <==> Fits(rows, legacy, size)
  {
    if index != [] {
      assert Restored(index[0], rows, legacy, size);
    }
    if k :| k in rows && k !in legacy && |rows[k].embedding| == size {
      assert Has(index, k);
    }
  }

  /** The stored embeddings of a size, normalized. */
  method Rebuild(normalize: Vec -> Vec, rows: map<nat, Row>, legacy: set<nat>, size: nat) returns (index: seq<Entry>)
    requires forall k | k in rows && k !in legacy :: normalize(rows[k].embedding) == rows[k].embedding
    ensures Rebuilt(index, rows, legacy, size)
  {
    index := [];
    var todo := rows.Keys;
    while todo != {}
      invariant todo <= rows.Keys
      invariant DistinctIds(index)
      invariant forall i | 0 <= i < |index| :: index[i].id !in todo && Restored(index[i], rows, legacy, size)
      invariant forall k | k in rows && k !in todo && k !in legacy && |rows[k].embedding| == size :: Has(index, k)
    {
      var k :| k in todo;
      todo := todo - {k};
      if k !in legacy && |rows[k].embedding| == size {
        HasSnoc(index, Entry(k, normalize(rows[k].embedding)));
        index := index + [Entry(k, normalize(rows[k].embedding))];
      }
    }
  }

  // ------------------------------------------------------------ the store

  /** `normalize_L2` keeps the size of a vector and does nothing the second time. */
  ghost predicate NormalizesTo(normalize: Vec -> Vec) {
    && (forall v :: |normalize(v)| == |v|)
    && (forall v {:trigger normalize(normalize(v))} :: normalize(normalize(v)) == normalize(v))
  }

  /** The stores agree, chunk ids are unique, and vectors are unit ones of the index's size. */
  ghost predicate StoreHolds(normalize: Vec -> Vec, dimension: nat, index: seq<Entry>, rows: map<nat, Row>) {
    && NormalizesTo(normalize)
    && Agree(index, rows) && UniqueChunks(rows)
    && forall k | k in rows :: IsUnit(normalize, dimension, rows[k])
  }

  ghost predicate IsUnit(normalize: Vec -> Vec, dimension: nat, row: Row) {
    |row.embedding| == dimension && normalize(row.embedding) == row.embedding
  }

  lemma AddKeepsStore(normalize: Vec -> Vec, dimension: nat, index: seq<Entry>, rows: map<nat, Row>, id: nat, row: Row)
    requires StoreHolds(normalize, dimension, index, rows) && IsUnit(normalize, dimension, row) && id !in rows
    requires forall k | k in rows :: rows[k].chunk.id != row.chunk.id
    ensures StoreHolds(normalize, dimension, index + [Entry(id, row.embedding)], InsertOrReplace(rows, id, row))
    ensures Extends(rows, InsertOrReplace(rows, id, row), [row])
  {
    AddAgrees(index, rows, id, row);
    assert InsertOrReplace(rows, id, row)[id] == row;
  }

  lemma AddManyKeepsStore(
    normalize: Vec -> Vec, dimension: nat, index: seq<Entry>, rows: map<nat, Row>, start: nat, added: seq<Row>)
    requires StoreHolds(normalize, dimension, index, rows) && NewChunks(rows, added)
    requires (forall k | k in rows :: k < start) && forall row | row in added :: IsUnit(normalize, dimension, row)
    ensures StoreHolds(normalize, dimension, index + Entries(start, added), InsertMany(rows, start, added))
    ensures Extends(rows, InsertMany(rows, start, added), added)
  {
    AddManyAgrees(index, rows, start, added);
  }

  class Store {
    const normalize: Vec -> Vec
    var dimension: nat
    var index: seq<Entry>
    var rows: map<nat, Row>

    /** What every run keeps. */
    ghost predicate Valid()
      reads this
    {
      StoreHolds(normalize, dimension, index, rows)
    }

    constructor (normalize: Vec -> Vec, dimension: nat)
      requires NormalizesTo(normalize)
      ensures Valid() && rows == map[] && index == [] && this.dimension == dimension && this.normalize == normalize
    {
      this.normalize := normalize;
      this.dimension := dimension;
      index, rows := [], map[];
    }

    method NextFaissId() returns (id: nat)
      ensures id == NextId(rows)
    {
      id := 1;
      if rows.Keys != {} {
        var todo := rows.Keys;
        var m :| m in todo;
        todo := todo - {m};
        while todo != {}
          invariant todo <= rows.Keys && m in rows
          invariant forall k | k in rows && k !in todo :: k <= m
        {
          var k :| k in todo;
          todo := todo - {k};
          m := if k > m then k else m;
        }
        id := m + 1;
      }
    }

    /** `add`, for any chunk id: a stored chunk with that id is replaced in SQLite only. */
    method Add(item: Item)
      requires |item.embedding| == dimension
      modifies this`index, this`rows
      ensures var row := RowOf(item);
        && index == old(index) + [Entry(NextId(old(rows)), row.embedding)]
        && rows == InsertOrReplace(old(rows), NextId(old(rows)), row)
      ensures old(Valid()) && (forall k | k in old(rows) :: old(rows)[k].chunk.id != item.chunk.id) ==>
        Valid() && Extends(old(rows), rows, [RowOf(item)])
    {
      var id := NextFaissId();
      var row := RowOf(item);
      if Valid() && forall k | k in rows :: rows[k].chunk.id != item.chunk.id {
        AddKeepsStore(normalize, dimension, index, rows, id, row);
      }
      index := index + [Entry(id, row.embedding)];
      rows := InsertOrReplace(rows, id, row);
    }

    function RowOf(item: Item): Row {
      Row(item.path, item.chunk, item.info, normalize(item.embedding))
    }

    function RowsOf(items: seq<Item>): seq<Row> {
      seq(|items|, i requires 0 <= i < |items| => RowOf(items[i]))
    }

    /** `add_many`: one FAISS append, then one `executemany`. */
    method AddMany(items: seq<Item>)
      requires forall item | item in items :: |item.embedding| == dimension
      modifies this`index, this`rows
      ensures index == old(index) + Entries(NextId(old(rows)), RowsOf(items))
      ensures rows == InsertMany(old(rows), NextId(old(rows)), RowsOf(items))
      ensures old(Valid()) && NewChunks(old(rows), RowsOf(items)) ==> Valid() && Extends(old(rows), rows, RowsOf(items))
    {
      var start := NextFaissId();
      var added := RowsOf(items);
      if Valid() && NewChunks(rows, added) {
        AddManyKeepsStore(normalize, dimension, index, rows, start, added);
      }
      rows := Executemany(rows, start, added);
      index := index + Entries(start, added);
    }

    method Executemany(rows: map<nat, Row>, start: nat, added: seq<Row>) returns (r: map<nat, Row>)
      ensures r == InsertMany(rows, start, added)
    {
      r := rows;
      for i := 0 to |added|
        invariant InsertMany(rows, start, added) == InsertMany(r, start + i, added[i..])
      {
        assert added[i..][1..] == added[i + 1..];
        r := InsertOrReplace(r, start + i, added[i]);
      }
    }

    /** `delete_by_file` */
    method DeleteByFile(path: string) returns (deleted: nat)
      modifies this`index, this`rows
      ensures old(Valid()) ==> Valid()
      ensures index == Filter(NotAmong(IdsOf(old(rows), {path})), old(index))
      ensures rows == old(rows) - IdsOf(old(rows), {path})
      ensures deleted == |IdsOf(old(rows), {path})|
    {
      deleted := DropIds(IdsOf(rows, {path}));
    }

    /** `delete_by_files` */
    method DeleteByFiles(paths: set<string>) returns (deleted: nat)
      modifies this`index, this`rows
      ensures old(Valid()) ==> Valid()
      ensures index == Filter(NotAmong(IdsOf(old(rows), paths)), old(index))
      ensures rows == old(rows) - IdsOf(old(rows), paths)
      ensures deleted == |IdsOf(old(rows), paths)|
    {
      deleted := DropIds(IdsOf(rows, paths));
    }

    /** Removes the ids from FAISS first, then the rows from SQLite; nothing is written for no ids. */
    method DropIds(ids: set<nat>) returns (deleted: nat)
      modifies this`index, this`rows
      ensures old(Valid()) ==> Valid()
      ensures index == Filter(NotAmong(ids), old(index)) && rows == old(rows) - ids
      ensures deleted == |ids|
    {
      deleted := |ids|;
      if ids == {} {
        assert rows - ids == rows;
        FilterAll(NotAmong(ids), index);
        return;
      }
      if Valid() {
        DropAgrees(index, rows, ids);
      }
      index := Filter(NotAmong(ids), index);
      rows := rows - ids;
    }

    /** `reset_index` with its metadata cleared, of a store in any state; a size below 1 is refused. */
    method ResetIndex(target: int) returns (ok: bool)
      requires NormalizesTo(normalize)
      modifies this`dimension, this`index, this`rows
      ensures ok <==> target > 0
      ensures ok ==> Valid() && rows == map[] && index == [] && dimension == target
      ensures !ok ==> rows == old(rows) && index == old(index) && dimension == old(dimension)
    {
      if target <= 0 {
        return false;
      }
      dimension, index, rows := target, [], map[];
      return true;
    }

    /**
     Starting up beside a table in any state: `disk` is what the FAISS file holds, its vectors' size
     first, or None when it cannot be read; `legacy` are the rows without a stored embedding. An
     index without vectors is rebuilt from the stored embeddings of the configured size, and
     starting up fails where it is of another size and would have to take one of them. Otherwise
     the stores agree afterwards if and only if the file did with the table or, where it held
     nothing, every row has a stored embedding of that size.
     */
    method Reopen(disk: Option<(nat, seq<Entry>)>, legacy: set<nat>, configured: nat) returns (ok: bool)
      requires NormalizesTo(normalize)
      requires forall k | k in rows && k !in legacy :: normalize(rows[k].embedding) == rows[k].embedding
      modifies this`index, this`dimension
      ensures dimension == if disk.Some? then disk.value.0 else configured
      ensures !ok <==> disk.Some? && disk.value.1 == [] && disk.value.0 != configured && Fits(rows, legacy, configured)
      ensures ok ==>
        if disk.Some? && disk.value.1 != [] then index == disk.value.1 else Rebuilt(index, rows, legacy, configured)
      ensures ok ==> (Agree(index, rows) <==>
        if disk.Some? && disk.value.1 != [] then Agree(disk.value.1, rows)
        else forall k | k in rows :: k !in legacy && |rows[k].embedding| == configured)
      ensures old(Valid()) && disk == Some((old(dimension), old(index))) ==> ok && Valid()
    {
      if disk.Some? {
        dimension, index := disk.value.0, disk.value.1;
      } else {
        dimension, index := configured, [];
      }
      ok := RebuildWhenEmpty(legacy, configured);
      if ok && (disk.None? || disk.value.1 == []) {
        RebuiltAgrees(index, rows, legacy, configured);
      }
    }

    /** The self-heal step of `_init_db`; FAISS refuses vectors of another size than the index's. */
    method RebuildWhenEmpty(legacy: set<nat>, size: nat) returns (ok: bool)
      requires NormalizesTo(normalize)
      requires forall k | k in rows && k !in legacy :: normalize(rows[k].embedding) == rows[k].embedding
      modifies this`index
      ensures old(index) != [] || !ok ==> index == old(index)
      ensures !ok <==> old(index) == [] && dimension != size && Fits(rows, legacy, size)
      ensures ok && old(index) == [] ==> Rebuilt(index, rows, legacy, size)
    {
      if index != [] || rows == map[] {
        return true;
      }
      var rebuilt := Rebuild(normalize, rows, legacy, size);
      RebuiltFits(rebuilt, rows, legacy, size);
      if rebuilt != [] && dimension != size {
        return false;
      }
      index := rebuilt;
      return true;
    }

    /**
     An index without vectors finds nothing. With the stores in agreement a search ranks exactly: no
     row that passes the filter and is left out scores above a hit. Without a filter nothing is
     missed; with one, five times as many vectors are looked at, and nothing is missed when those
     are all there are.
     */
    method Search(query: Vec, topK: nat, filter: Option<Row -> bool>) returns (hits: seq<Hit>, ghost ids: seq<nat>)
      requires topK >= 1
      ensures index == [] ==> hits == []
      ensures Valid() ==> |hits| <= topK && Ranked(rows, normalize(query), filter, hits, ids)
      ensures Valid() && filter.None? ==> |hits| == if topK < |rows| then topK else |rows|
      ensures Valid() && |rows| <= topK * 5 && |hits| < topK ==>
        forall k | k in rows && (filter.Some? ==> filter.value(rows[k])) :: k in ids
    {
      if Agree(index, rows) {
        SameSize(index, rows);
      }
      hits, ids := [], [];
      if |index| == 0 {
        return;
      }
      var q := normalize(query);
      var fetch := if filter.Some? then topK * 5 else topK;
      var found := FlatSearch(index, q, fetch);
      hits, ids := LookUp(index, rows, q, found, filter, topK);
      if Agree(index, rows) {
        SearchIsExact(index, rows, q, fetch, found, filter, topK, hits, ids);
      }
    }
  }

  /**
   The hits are distinct rows that pass, with their scores, best first, and no row that passes
   and is left out scores above one of them.
   */
  ghost predicate Ranked(rows: map<nat, Row>, q: Vec, filter: Option<Row -> bool>, hits: seq<Hit>, ids: seq<nat>) {
    && |hits| == |ids| && Distinct(ids)
    && (forall i | 0 <= i < |ids| :: ids[i] in rows && hits[i] == HitOf(rows[ids[i]], q))
    && (filter.Some? ==> forall i | 0 <= i < |ids| :: filter.value(rows[ids[i]]))
    && (forall i, j | 0 <= i < j < |hits| :: hits[i].score >= hits[j].score)
    && (forall i, k | 0 <= i < |hits| && k in rows && (filter.Some? ==> filter.value(rows[k])) && k !in ids ::
      hits[i].score >= Dot(q, rows[k].embedding))
  }

  function HitOf(row: Row, q: Vec): Hit {
    Hit(row.path, row.chunk, row.info, Dot(q, row.embedding))
  }

  /** Without a filter every row passes. */
  predicate Passes(filter: Option<Row -> bool>, row: Row) {
    filter.None? || filter.value(row)
  }

  function PassesAt(index: seq<Entry>, rows: map<nat, Row>, filter: Option<Row -> bool>): nat -> bool {
    (e: nat) => e < |index| && index[e].id in rows && Passes(filter, rows[index[e].id])
  }

  /** The first `k` of the places found whose rows pass. */
  function Taken(index: seq<Entry>, rows: map<nat, Row>, filter: Option<Row -> bool>, found: seq<nat>,
      k: nat): seq<nat> {
    var passing := Filter(PassesAt(index, rows, filter), found);
    if k < |passing| then passing[..k] else passing
  }

  /** The hits of these places, and the ids of their rows. */
  ghost predicate Collects(index: seq<Entry>, rows: map<nat, Row>, q: Vec, places: seq<nat>, hits: seq<Hit>,
      ids: seq<nat>) {
    && |hits| == |ids| == |places|
    && forall j | 0 <= j < |ids| :: HitAt(index, rows, q, places[j], hits[j], ids[j])
  }

  ghost predicate HitAt(index: seq<Entry>, rows: map<nat, Row>, q: Vec, place: nat, hit: Hit, id: nat) {
    && place < |index| && id == index[place].id && id in rows
    && hit == Hit(rows[id].path, rows[id].chunk, rows[id].info, Dot(q, index[place].vec))
  }

  /** The hits of those of the first `i` places found whose rows pass. */
  ghost predicate Looked(
    index: seq<Entry>, rows: map<nat, Row>, q: Vec, filter: Option<Row -> bool>, found: seq<nat>, i: nat,
    hits: seq<Hit>, ids: seq<nat>)
  {
    i <= |found| && Collects(index, rows, q, Filter(PassesAt(index, rows, filter), found[..i]), hits, ids)
  }

  lemma OneMoreHit(
    index: seq<Entry>, rows: map<nat, Row>, q: Vec, filter: Option<Row -> bool>, found: seq<nat>, i: nat,
    hits: seq<Hit>, ids: seq<nat>, hit: Hit, id: nat)
    requires Looked(index, rows, q, filter, found, i, hits, ids) && i < |found|
    requires PassesAt(index, rows, filter)(found[i]) && HitAt(index, rows, q, found[i], hit, id)
    ensures Looked(index, rows, q, filter, found, i + 1, hits + [hit], ids + [id])
  {
    FilterSnoc(PassesAt(index, rows, filter), found, i);
  }

  lemma OneMoreMiss(
    index: seq<Entry>, rows: map<nat, Row>, q: Vec, filter: Option<Row -> bool>, found: seq<nat>, i: nat,
    hits: seq<Hit>, ids: seq<nat>)
    requires Looked(index, rows, q, filter, found, i, hits, ids) && i < |found|
    requires !PassesAt(index, rows, filter)(found[i])
    ensures Looked(index, rows, q, filter, found, i + 1, hits, ids)
  {
    FilterSnoc(PassesAt(index, rows, filter), found, i);
  }

  lemma LookedEnough(
    index: seq<Entry>, rows: map<nat, Row>, q: Vec, filter: Option<Row -> bool>, found: seq<nat>, i: nat, k: nat,
    hits: seq<Hit>, ids: seq<nat>)
    requires Looked(index, rows, q, filter, found, i, hits, ids)
    requires |hits| == k || (|hits| < k && i == |found|)
    ensures Collects(index, rows, q, Taken(index, rows, filter, found, k), hits, ids)
  {
    FilterPrefix(PassesAt(index, rows, filter), found, i);
    if i == |found| {
      assert found[..i] == found;
    }
  }

  /** The loop of `search` over the positions FAISS found, which stops at `topK` hits. */
  method LookUp(
    index: seq<Entry>, rows: map<nat, Row>, q: Vec, found: seq<nat>, filter: Option<Row -> bool>, topK: nat)
    returns (hits: seq<Hit>, ghost ids: seq<nat>)
    requires topK >= 1 && forall i | 0 <= i < |found| :: found[i] < |index|
    ensures Collects(index, rows, q, Taken(index, rows, filter, found, topK), hits, ids)
  {
    hits, ids := [], [];
    for i := 0 to |found|
      invariant |hits| < topK && Looked(index, rows, q, filter, found, i, hits, ids)
    {
      var entry := index[found[i]];
      if entry.id in rows && Passes(filter, rows[entry.id]) {
        var row := rows[entry.id];
        var hit := Hit(row.path, row.chunk, row.info, Dot(q, entry.vec));
        OneMoreHit(index, rows, q, filter, found, i, hits, ids, hit, entry.id);
        hits, ids := hits + [hit], ids + [entry.id];
        if |hits| >= topK {
          LookedEnough(index, rows, q, filter, found, i + 1, topK, hits, ids);
          return;
        }
      } else {
        OneMoreMiss(index, rows, q, filter, found, i, hits, ids);
      }
    }
    LookedEnough(index, rows, q, filter, found, |found|, topK, hits, ids);
  }

  /** Distinct places whose rows pass, best first, none better left out. */
  ghost predicate Best(index: seq<Entry>, rows: map<nat, Row>, q: Vec, filter: Option<Row -> bool>, places: seq<nat>) {
    && Distinct(places)
    && (forall i | 0 <= i < |places| :: PassesAt(index, rows, filter)(places[i]))
    && (forall i, j | 0 <= i < j < |places| :: Dot(q, index[places[i]].vec) >= Dot(q, index[places[j]].vec))
    && (forall i, e: nat | 0 <= i < |places| && PassesAt(index, rows, filter)(e) && e !in places ::
      Dot(q, index[places[i]].vec) >= Dot(q, index[e].vec))
  }

  lemma BestThatPass(
    index: seq<Entry>, rows: map<nat, Row>, q: Vec, fetch: nat, found: seq<nat>, filter: Option<Row -> bool>, k: nat)
    requires Agree(index, rows) && IsTopK(found, index, q, fetch)
    ensures Best(index, rows, q, filter, Taken(index, rows, filter, found, k))
  {
    var p, taken := PassesAt(index, rows, filter), Taken(index, rows, filter, found, k);
    var passing: seq<nat> := Filter(p, found);
    PassingSorted(index, q, p, fetch, found, passing);
    forall i, e: nat | 0 <= i < |taken| && p(e) && e !in taken
      ensures Dot(q, index[taken[i]].vec) >= Dot(q, index[e].vec)
    {
      LeftOut(index, q, p, fetch, found, passing, taken, i, e);
    }
  }

  lemma AllTaken(index: seq<Entry>, rows: map<nat, Row>, found: seq<nat>, filter: Option<Row -> bool>, k: nat)
    requires Agree(index, rows) && forall i | 0 <= i < |found| :: found[i] < |index|
    ensures |Taken(index, rows, filter, found, k)| <= k
    ensures filter.None? && |found| <= k ==> Taken(index, rows, filter, found, k) == found
    ensures |Taken(index, rows, filter, found, k)| < k ==>
      forall e | e in found && PassesAt(index, rows, filter)(e) :: e in Taken(index, rows, filter, found, k)
  {
    if filter.None? {
      FilterAll(PassesAt(index, rows, filter), found);
    }
  }

  lemma PassingSorted(index: seq<Entry>, q: Vec, p: nat -> bool, fetch: nat, found: seq<nat>, passing: seq<nat>)
    requires IsTopK(found, index, q, fetch) && passing == Filter(p, found)
    ensures Distinct(passing) && forall i | 0 <= i < |passing| ::
      passing[i] in found && passing[i] < |index| && p(passing[i])
    ensures forall i, j | 0 <= i < j < |passing| :: Dot(q, index[passing[i]].vec) >= Dot(q, index[passing[j]].vec)
  {
    FilterSorted(Beats(index, q), p, found);
    forall i | 0 <= i < |passing|
      ensures passing[i] in found && passing[i] < |index| && p(passing[i])
    {
      assert passing[i] in passing;
    }
    forall i, j | 0 <= i < j < |passing|
      ensures Dot(q, index[passing[i]].vec) >= Dot(q, index[passing[j]].vec)
    {
      assert Beats(index, q)(passing[i], passing[j]);
    }
  }

  /** What is left out was found after the hits, or not found and so no better. */
  lemma LeftOut(
    index: seq<Entry>, q: Vec, p: nat -> bool, fetch: nat, found: seq<nat>, passing: seq<nat>, taken: seq<nat>, i: nat,
    e: nat)
    requires IsTopK(found, index, q, fetch) && passing == Filter(p, found) && taken <= passing
    requires i < |taken| && e < |index| && p(e) && e !in taken
    ensures taken[i] < |index| && Dot(q, index[taken[i]].vec) >= Dot(q, index[e].vec)
  {
    PassingSorted(index, q, p, fetch, found, passing);
    if e in found {
      assert e in passing;
      var j :| 0 <= j < |passing| && passing[j] == e;
      assert taken[i] == passing[i] && i < j;
    } else {
      assert taken[i] == passing[i];
      var j :| 0 <= j < |found| && found[j] == passing[i];
    }
  }

  lemma RankedHits(
    index: seq<Entry>, rows: map<nat, Row>, q: Vec, filter: Option<Row -> bool>, places: seq<nat>,
    hits: seq<Hit>, ids: seq<nat>)
    requires Agree(index, rows) && Best(index, rows, q, filter, places) && Collects(index, rows, q, places, hits, ids)
    ensures Ranked(rows, q, filter, hits, ids)
  {
    forall i | 0 <= i < |ids|
      ensures ids[i] in rows && Passes(filter, rows[ids[i]]) && hits[i] == HitOf(rows[ids[i]], q)
    {
      assert HitAt(index, rows, q, places[i], hits[i], ids[i]) && PassesAt(index, rows, filter)(places[i]);
    }
    forall i, j | 0 <= i < j < |ids|
      ensures ids[i] != ids[j]
    {
      assert HitAt(index, rows, q, places[i], hits[i], ids[i]) && HitAt(index, rows, q, places[j], hits[j], ids[j]);
    }
    forall i, k | 0 <= i < |hits| && k in rows && Passes(filter, rows[k]) && k !in ids
      ensures hits[i].score >= HitOf(rows[k], q).score
    {
      var e := PlaceOf(index, rows, q, filter, places, hits, ids, k);
      assert HitAt(index, rows, q, places[i], hits[i], ids[i]);
    }
  }

  /** Where FAISS holds a row that passes; its place is among the places exactly when its id is among the ids. */
  lemma PlaceOf(
    index: seq<Entry>, rows: map<nat, Row>, q: Vec, filter: Option<Row -> bool>, places: seq<nat>,
    hits: seq<Hit>, ids: seq<nat>, k: nat) returns (e: nat)
    requires Agree(index, rows) && Collects(index, rows, q, places, hits, ids) && k in rows && Passes(filter, rows[k])
    ensures PassesAt(index, rows, filter)(e) && index[e].id == k && index[e].vec == rows[k].embedding
    ensures e in places ==> k in ids
  {
    assert Has(index, k);
    e :| e < |index| && index[e].id == k;
    if e in places {
      var j :| 0 <= j < |places| && places[j] == e;
      assert HitAt(index, rows, q, places[j], hits[j], ids[j]);
    }
  }

  lemma SearchIsExact(
    index: seq<Entry>, rows: map<nat, Row>, q: Vec, fetch: nat, found: seq<nat>, filter: Option<Row -> bool>, k: nat,
    hits: seq<Hit>, ids: seq<nat>)
    requires Agree(index, rows) && IsTopK(found, index, q, fetch) && k <= fetch && (filter.None? ==> k == fetch)
    requires fetch >= |index| ==> forall e: nat | e < |index| :: e in found
    requires Collects(index, rows, q, Taken(index, rows, filter, found, k), hits, ids)
    ensures |hits| <= k && Ranked(rows, q, filter, hits, ids)
    ensures filter.None? ==> |hits| == |found|
    ensures fetch >= |index| && |hits| < k ==> forall id | id in rows && Passes(filter, rows[id]) :: id in ids
  {
    var taken := Taken(index, rows, filter, found, k);
    BestThatPass(index, rows, q, fetch, found, filter, k);
    AllTaken(index, rows, found, filter, k);
    RankedHits(index, rows, q, filter, taken, hits, ids);
    if fetch >= |index| && |hits| < k {
      forall id | id in rows && Passes(filter, rows[id])
        ensures id in ids
      {
        var e := PlaceOf(index, rows, q, filter, taken, hits, ids, id);
      }
    }
  }

  lemma SameSize(index: seq<Entry>, rows: map<nat, Row>)
    requires Agree(index, rows)
    ensures |index| == |rows|
  {
    var ids := seq(|index|, i requires 0 <= i < |index| => index[i].id);
    forall k
      ensures k in rows.Keys <==> k in ids
    {
      if k in rows {
        assert Has(index, k);
        var i :| 0 <= i < |index| && index[i].id == k;
        assert ids[i] == k;
      }
    }
    ListsSize(ids, rows.Keys);
    assert |rows| == |rows.Keys|;
  }

  lemma {:induction false} ListsSize<T(!new)>(xs: seq<T>, s: set<T>)
    requires Lists(xs, s)
    ensures |xs| == |s|
  {
    if xs == [] {
      assert s == {};
    } else {
      assert xs[0] in s;
      var rest := s - {xs[0]};
      forall x
        ensures x in xs[1..] <==> x in rest
      {
        assert xs == [xs[0]] + xs[1..];
      }
      ListsSize(xs[1..], rest);
    }
  }

  /** A store whose index file is lost and whose size has changed meanwhile: its one chunk is no longer found. */
  method LostAtAnotherSize(normalize: Vec -> Vec, item: Item, query: Vec, topK: nat)
    returns (store: Store, hits: seq<Hit>)
    requires NormalizesTo(normalize) && |item.embedding| == 2 && topK >= 1
    ensures fresh(store) && |store.rows| == 1 && !Agree(store.index, store.rows)
    ensures hits == []
  {
    store := new Store(normalize, 2);
    store.Add(item);
    ghost var id := NextId(map[]);
    assert store.rows == map[id := store.RowOf(item)];
    assert id in store.rows && |store.rows[id].embedding| == 2;
    var _ := store.Reopen(None, {}, 3);
    RebuiltFits(store.index, store.rows, {}, 3);
    ghost var ids;
    hits, ids := store.Search(query, topK, None);
  }

  /** A chunk that is added twice: FAISS keeps both vectors, SQLite one row. */
  method AddedTwice(normalize: Vec -> Vec, item: Item) returns (store: Store)
    requires NormalizesTo(normalize)
    ensures fresh(store) && |store.index| == 2 && |store.rows| == 1 && !Agree(store.index, store.rows)
  {
    store := new Store(normalize, |item.embedding|);
    store.Add(item);
    ghost var row, id := store.RowOf(item), NextId(map[]);
    assert store.rows == map[id := row];
    StoredOnceMore(store.index, store.rows, id);
    store.Add(item);
    assert store.rows == map[NextId(map[id := row]) := row];
  }
}
