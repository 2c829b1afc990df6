/**
 Memory deduplication (memory_system/memory_manager.py). Rows are kept in id order; the
 content fingerprint is an abstract key, None for the rows that carry none.
 */
module MemoryDedup {
  import opened Sequences

  datatype Row = Row(
    key: Option<string>, content: string, importance: nat, tags: seq<string>, files: seq<string>, access: nat,
    active: bool)

  datatype Request = Request(key: string, content: string, importance: nat, tags: seq<string>, files: seq<string>)

  // ------------------------------------------------------------ merging lists

  /** The elements of `xs` in first-seen order. */
  function Dedup(xs: seq<string>): seq<string> {
    if xs == [] then []
    else
      var n := |xs| - 1;
      if xs[n] in xs[..n] then Dedup(xs[..n]) else Dedup(xs[..n]) + [xs[n]]
  }

  /** The elements of `all` without repetition, in the order of their first places in it. */
  ghost predicate FirstSeen(out: seq<string>, all: seq<string>) {
    Distinct(out) && (forall x :: x in out <==> x in all) && InOrder(out, all)
  }

  lemma {:induction false} DedupLists(xs: seq<string>)
    ensures FirstSeen(Dedup(xs), xs)
  {
    if xs != [] {
      var n := |xs| - 1;
      DedupLists(xs[..n]);
      assert xs == xs[..n] + [xs[n]];
      if xs[n] in xs[..n] {
        InOrderMore(Dedup(xs[..n]), xs[..n], xs[n]);
      } else {
        InOrderSnoc(Dedup(xs[..n]), xs[..n], xs[n]);
      }
    }
  }

  /** Dropping duplicates early changes nothing. */
  lemma {:induction false} DedupEarly(xs: seq<string>, ys: seq<string>)
    ensures Dedup(Dedup(xs) + ys) == Dedup(xs + ys)
  {
    DedupLists(xs);
    if ys == [] {
      assert Dedup(xs) + ys == Dedup(xs) && xs + ys == xs;
      DedupOfDistinct(Dedup(xs));
    } else {
      var n := |ys| - 1;
      DedupEarly(xs, ys[..n]);
      assert (Dedup(xs) + ys)[..|Dedup(xs)| + n] == Dedup(xs) + ys[..n];
      assert (xs + ys)[..|xs| + n] == xs + ys[..n];
      assert ys[n] in Dedup(xs) + ys[..n] <==> ys[n] in xs + ys[..n];
    }
  }

  lemma {:induction false} DedupOfDistinct(xs: seq<string>)
    requires Distinct(xs)
    ensures Dedup(xs) == xs
  {
    if xs != [] {
      var n := |xs| - 1;
      DedupOfDistinct(xs[..n]);
      assert xs == xs[..n] + [xs[n]];
    }
  }

  /** A list that repeats what came before adds nothing. */
  lemma {:induction false} DedupKnown(xs: seq<string>, ys: seq<string>)
    requires forall y | y in ys :: y in xs
    ensures Dedup(xs + ys) == Dedup(xs)
  {
    if ys == [] {
      assert xs + ys == xs;
    } else {
      var n := |ys| - 1;
      assert ys == ys[..n] + [ys[n]];
      DedupKnown(xs, ys[..n]);
      assert (xs + ys)[..|xs| + n] == xs + ys[..n];
    }
  }

  /** `_merge_lists` */
  method MergeLists(a: seq<string>, b: seq<string>) returns (out: seq<string>)
    ensures out == Dedup(a + b) && FirstSeen(out, a + b)
  {
    var all := a + b;
    var seen: set<string> := {};
    out := [];
    for i := 0 to |all|
      invariant out == Dedup(all[..i])
      invariant forall x :: x in seen <==> x in all[..i]
    {
      assert all[..i + 1] == all[..i] + [all[i]];
      if all[i] !in seen {
        seen := seen + {all[i]};
        out := out + [all[i]];
      }
    }
    assert all[..|all|] == all;
    DedupLists(all);
  }

  // ------------------------------------------------------------ online: store_memory

  function Max(a: nat, b: nat): nat {
    if b > a then b else a
  }

  predicate Matches(row: Row, key: string) {
    row.active && row.key == Some(key)
  }

  function NewRow(req: Request): Row {
    Row(Some(req.key), req.content, req.importance, req.tags, req.files, 1, true)
  }

  function Bumped(row: Row, req: Request): Row {
    row.(
      importance := Max(row.importance, req.importance),
      tags := Dedup(row.tags + req.tags), files := Dedup(row.files + req.files), access := row.access + 1)
  }

  /** The table after `store_memory`: the oldest active match is bumped, or a row is added. */
  function Stored(rows: seq<Row>, req: Request): seq<Row> {
    if rows == [] then [NewRow(req)]
    else if Matches(rows[0], req.key) then [Bumped(rows[0], req)] + rows[1..]
    else [rows[0]] + Stored(rows[1..], req)
  }

  function Online(reqs: seq<Request>): seq<Row> {
    if reqs == [] then [] else Stored(Online(reqs[..|reqs| - 1]), reqs[|reqs| - 1])
  }

  /** Inserting without looking for duplicates. */
  function Raw(reqs: seq<Request>): seq<Row> {
    if reqs == [] then [] else Raw(reqs[..|reqs| - 1]) + [NewRow(reqs[|reqs| - 1])]
  }

  // ------------------------------------------------------------ batch: dedupe_existing

  /** `int(ac or 1)` */
  function Counted(row: Row): nat {
    if row.access == 0 then 1 else row.access
  }

  function SameKey(key: string): Row -> bool {
    (row: Row) => Matches(row, key)
  }

  /** The active rows of one fingerprint, oldest first. */
  function Group(rows: seq<Row>, key: string): seq<Row> {
    Filter(SameKey(key), rows)
  }

  function TotalAccess(group: seq<Row>): nat {
    if group == [] then 0 else TotalAccess(group[..|group| - 1]) + Counted(group[|group| - 1])
  }

  function TopImportance(group: seq<Row>): nat {
    if group == [] then 0 else Max(TopImportance(group[..|group| - 1]), group[|group| - 1].importance)
  }

  function AllTags(group: seq<Row>): seq<string> {
    if group == [] then [] else AllTags(group[..|group| - 1]) + group[|group| - 1].tags
  }

  function AllFiles(group: seq<Row>): seq<string> {
    if group == [] then [] else AllFiles(group[..|group| - 1]) + group[|group| - 1].files
  }

  /** What the oldest row of a group becomes; a group of one is left alone. */
  function Collapse(group: seq<Row>): Row
    requires group != []
  {
    if |group| == 1 then group[0]
    else
      group[0].(
        access := TotalAccess(group), importance := TopImportance(group),
        tags := Dedup(AllTags(group)), files := Dedup(AllFiles(group)))
  }

  /** No earlier active row of `rows` has the key of row `i`. */
  predicate Leads(rows: seq<Row>, i: nat)
    requires i < |rows| && rows[i].key.Some?
  {
    Group(rows[..i], rows[i].key.value) == []
  }

  /** Row `i` after the batch pass. */
  function DedupedRow(rows: seq<Row>, i: nat): Row
    requires i < |rows|
  {
    var row := rows[i];
    if !row.active || row.key.None? then row
    else if Leads(rows, i) then
      assert row in Group(rows, row.key.value);
      Collapse(Group(rows, row.key.value))
    else row.(active := false)
  }

  function Deduped(rows: seq<Row>): (r: seq<Row>)
    ensures |r| == |rows| && forall i | 0 <= i < |rows| :: r[i] == DedupedRow(rows, i)
  {
    seq(|rows|, i requires 0 <= i < |rows| => DedupedRow(rows, i))
  }

  function Active(rows: seq<Row>): seq<Row> {
    Filter((row: Row) => row.active, rows)
  }

  // ------------------------------------------------------------ the reference: one row at a time

  function Merged(a: Row, b: Row): Row {
    a.(
      access := Counted(a) + Counted(b), importance := Max(a.importance, b.importance),
      tags := Dedup(a.tags + b.tags), files := Dedup(a.files + b.files))
  }

  /** Adds a row to a list that has at most one row per key. */
  function Absorb(rows: seq<Row>, row: Row): seq<Row> {
    if !row.active then rows
    else if row.key.None? || rows == [] then rows + [row]
    else if Matches(rows[0], row.key.value) then [Merged(rows[0], row)] + rows[1..]
    else [rows[0]] + Absorb(rows[1..], row)
  }

  function Collapsed(rows: seq<Row>): seq<Row> {
    if rows == [] then [] else Absorb(Collapsed(rows[..|rows| - 1]), rows[|rows| - 1])
  }

  // ------------------------------------------------------------ batch equals the reference

  /** The active rows the batch pass leaves at positions `i` and up. */
  function ActiveFrom(rows: seq<Row>, i: nat): seq<Row>
    requires i <= |rows|
    decreases |rows| - i
  {
    if i == |rows| then []
    else if DedupedRow(rows, i).active then [DedupedRow(rows, i)] + ActiveFrom(rows, i + 1)
    else ActiveFrom(rows, i + 1)
  }

  lemma {:induction false} ActiveFromIsActive(rows: seq<Row>, i: nat)
    requires i <= |rows|
    ensures ActiveFrom(rows, i) == Active(Deduped(rows)[i..])
    decreases |rows| - i
  {
    if i < |rows| {
      ActiveFromIsActive(rows, i + 1);
      assert Deduped(rows)[i..][1..] == Deduped(rows)[i + 1..];
    }
  }

  lemma GroupSnoc(rows: seq<Row>, row: Row, key: string)
    ensures Group(rows + [row], key) == if Matches(row, key) then Group(rows, key) + [row] else Group(rows, key)
  {
    FilterAppend(SameKey(key), rows, [row]);
  }

  lemma CollapseSnoc(group: seq<Row>, row: Row)
    requires group != []
    ensures Collapse(group + [row]) == Merged(Collapse(group), row)
  {
    var grown := group + [row];
    assert grown[..|group|] == group && grown[0] == group[0];
    assert TotalAccess(grown) == TotalAccess(group) + Counted(row);
    assert TopImportance(grown) == Max(TopImportance(group), row.importance);
    assert AllTags(grown) == AllTags(group) + row.tags && AllFiles(grown) == AllFiles(group) + row.files;
    if |group| == 1 {
      CollapseOne(group);
    } else {
      assert TotalAccess(group) >= 1;
      DedupEarly(AllTags(group), row.tags);
      DedupEarly(AllFiles(group), row.files);
    }
  }

  lemma CollapseOne(group: seq<Row>)
    requires |group| == 1
    ensures TotalAccess(group) == Counted(group[0]) && TopImportance(group) == group[0].importance
    ensures AllTags(group) == group[0].tags && AllFiles(group) == group[0].files
  {
    assert group[..0] == [];
    assert AllTags(group) == [] + group[0].tags && AllFiles(group) == [] + group[0].files;
  }

  /** A further row changes an earlier one only if it leads the same group. */
  lemma DedupedRowSnoc(rows: seq<Row>, row: Row, i: nat)
    requires i < |rows|
    ensures DedupedRow(rows + [row], i) ==
      if row.active && row.key.Some? && Matches(rows[i], row.key.value) && Leads(rows, i)
      then Merged(DedupedRow(rows, i), row) else DedupedRow(rows, i)
  {
    var rows' := rows + [row];
    assert rows'[..i] == rows[..i] && rows'[i] == rows[i];
    if rows[i].active && rows[i].key.Some? {
      var key := rows[i].key.value;
      GroupSnoc(rows, row, key);
      assert rows[i] in Group(rows, key);
      if Matches(row, key) && Leads(rows, i) {
        CollapseSnoc(Group(rows, key), row);
      }
    }
  }

  /** The key of an active row before `i` has its leader there. */
  lemma GroupPrefix(rows: seq<Row>, i: nat, key: string)
    requires i < |rows|
    ensures Group(rows[..i + 1], key) ==
      if Matches(rows[i], key) then Group(rows[..i], key) + [rows[i]] else Group(rows[..i], key)
  {
    assert rows[..i + 1] == rows[..i] + [rows[i]];
    GroupSnoc(rows[..i], rows[i], key);
  }

  /** From `i` on, one more row is absorbed, unless its group is led before `i`. */
  lemma {:induction false} ActiveFromSnoc(rows: seq<Row>, row: Row, i: nat)
    requires i <= |rows|
    ensures ActiveFrom(rows + [row], i) ==
      if row.active && row.key.Some? && Group(rows[..i], row.key.value) != [] then ActiveFrom(rows, i)
      else Absorb(ActiveFrom(rows, i), row)
    decreases |rows| - i
  {
    var rows' := rows + [row];
    if i == |rows| {
      assert rows'[..i] == rows && rows[..i] == rows && rows'[i] == row;
      assert ActiveFrom(rows', i + 1) == [];
      if row.active && row.key.Some? {
        GroupSnoc(rows, row, row.key.value);
      }
    } else {
      ActiveFromSnoc(rows, row, i + 1);
      DedupedRowSnoc(rows, row, i);
      DedupedKey(rows, i);
      var d, rest := DedupedRow(rows, i), ActiveFrom(rows, i + 1);
      assert ([d] + rest)[1..] == rest;
      if !row.active || row.key.None? {
        assert [d] + (rest + [row]) == [d] + rest + [row];
      } else {
        GroupPrefix(rows, i, row.key.value);
      }
    }
  }

  /** A row that stays active keeps its key, and a group's leader stays active. */
  lemma DedupedKey(rows: seq<Row>, i: nat)
    requires i < |rows|
    ensures DedupedRow(rows, i).active ==> DedupedRow(rows, i).key == rows[i].key
    ensures rows[i].active && rows[i].key.Some? && Leads(rows, i) ==> DedupedRow(rows, i).active
  {
    if rows[i].active && rows[i].key.Some? {
      assert rows[i] in Group(rows, rows[i].key.value);
      GroupKeys(rows, rows[i].key.value);
    }
  }

  lemma GroupKeys(rows: seq<Row>, key: string)
    ensures forall row | row in Group(rows, key) :: Matches(row, key)
    ensures Group(rows, key) != [] ==> Matches(Group(rows, key)[0], key)
  {
    if Group(rows, key) != [] {
      assert Group(rows, key)[0] in Group(rows, key);
    }
  }

  /** The batch pass leaves exactly what absorbing the rows one at a time gives, in the same order. */
  lemma {:induction false} BatchIsCollapsed(rows: seq<Row>)
    ensures Active(Deduped(rows)) == Collapsed(rows)
  {
    ActiveFromIsActive(rows, 0);
    assert Deduped(rows)[0..] == Deduped(rows);
    if rows != [] {
      var earlier, last := rows[..|rows| - 1], rows[|rows| - 1];
      BatchIsCollapsed(earlier);
      ActiveFromIsActive(earlier, 0);
      assert Deduped(earlier)[0..] == Deduped(earlier);
      assert rows == earlier + [last];
      ActiveFromSnoc(earlier, last, 0);
      assert earlier[..0] == [];
    }
  }

  // ------------------------------------------------------------ the results

  lemma {:induction false} AbsorbNewIsStored(rows: seq<Row>, req: Request)
    requires forall i | 0 <= i < |rows| :: rows[i].access >= 1
    ensures Absorb(rows, NewRow(req)) == Stored(rows, req)
    ensures forall i | 0 <= i < |Stored(rows, req)| :: Stored(rows, req)[i].access >= 1
  {
    if rows != [] && !Matches(rows[0], req.key) {
      AbsorbNewIsStored(rows[1..], req);
    }
  }

  lemma {:induction false} OnlineIsCollapsed(reqs: seq<Request>)
    ensures Online(reqs) == Collapsed(Raw(reqs))
    ensures forall i | 0 <= i < |Online(reqs)| :: Online(reqs)[i].access >= 1
  {
    if reqs != [] {
      var n := |reqs| - 1;
      OnlineIsCollapsed(reqs[..n]);
      AbsorbNewIsStored(Online(reqs[..n]), reqs[n]);
      assert Raw(reqs)[..|Raw(reqs)| - 1] == Raw(reqs[..n]);
    }
  }

  /** Storing requests one by one leaves the rows that inserting all and deduplicating once leaves. */
  lemma OnlineEqualsBatch(reqs: seq<Request>)
    ensures Online(reqs) == Active(Deduped(Raw(reqs)))
  {
    OnlineIsCollapsed(reqs);
    BatchIsCollapsed(Raw(reqs));
  }

  ghost predicate OneRowPerKey(rows: seq<Row>) {
    forall i, j | 0 <= i < j < |rows| && rows[i].key.Some? :: rows[i].key != rows[j].key
  }

  /** Absorbing a row keeps the rows active and brings no key but its own. */
  lemma {:induction false} AbsorbedKeys(rows: seq<Row>, row: Row)
    requires forall i | 0 <= i < |rows| :: rows[i].active
    ensures forall r | r in Absorb(rows, row) ::
      r.active && (r.key == row.key || exists s :: s in rows && s.key == r.key)
  {
    if row.active && row.key.Some? && rows != [] && !Matches(rows[0], row.key.value) {
      AbsorbedKeys(rows[1..], row);
    }
  }

  lemma {:induction false} AbsorbKeys(rows: seq<Row>, row: Row)
    requires OneRowPerKey(rows) && forall i | 0 <= i < |rows| :: rows[i].active
    ensures OneRowPerKey(Absorb(rows, row)) && forall i | 0 <= i < |Absorb(rows, row)| :: Absorb(rows, row)[i].active
  {
    AbsorbedKeys(rows, row);
    if row.active && row.key.Some? && rows != [] && !Matches(rows[0], row.key.value) {
      AbsorbKeys(rows[1..], row);
      AbsorbedKeys(rows[1..], row);
    }
  }

  /** After the batch pass every fingerprint has one active row. */
  lemma {:induction false} CollapsedKeys(rows: seq<Row>)
    ensures OneRowPerKey(Collapsed(rows)) && forall i | 0 <= i < |Collapsed(rows)| :: Collapsed(rows)[i].active
  {
    if rows != [] {
      CollapsedKeys(rows[..|rows| - 1]);
      AbsorbKeys(Collapsed(rows[..|rows| - 1]), rows[|rows| - 1]);
    }
  }

  lemma BatchLeavesOnePerKey(rows: seq<Row>)
    ensures OneRowPerKey(Active(Deduped(rows)))
  {
    BatchIsCollapsed(rows);
    CollapsedKeys(rows);
  }

  // ------------------------------------------------------------ conservation and idempotence

  lemma {:induction false} TotalAppend(xs: seq<Row>, ys: seq<Row>)
    ensures TotalAccess(xs + ys) == TotalAccess(xs) + TotalAccess(ys)
  {
    if ys == [] {
      assert xs + ys == xs;
    } else {
      var n := |ys| - 1;
      assert (xs + ys)[..|xs| + n] == xs + ys[..n];
      TotalAppend(xs, ys[..n]);
    }
  }

  lemma TotalOne(row: Row)
    ensures TotalAccess([row]) == Counted(row)
  {
    assert [row][..0] == [];
  }

  lemma {:induction false} AbsorbConserves(rows: seq<Row>, row: Row)
    ensures TotalAccess(Absorb(rows, row)) == TotalAccess(rows) + if row.active then Counted(row) else 0
  {
    TotalOne(row);
    if row.active && row.key.Some? && rows != [] {
      assert rows == [rows[0]] + rows[1..];
      TotalAppend([rows[0]], rows[1..]);
      TotalOne(rows[0]);
      if Matches(rows[0], row.key.value) {
        TotalOne(Merged(rows[0], row));
        TotalAppend([Merged(rows[0], row)], rows[1..]);
      } else {
        AbsorbConserves(rows[1..], row);
        TotalAppend([rows[0]], Absorb(rows[1..], row));
      }
    } else if row.active {
      TotalAppend(rows, [row]);
    }
  }

  lemma ActiveTotal(rows: seq<Row>, row: Row)
    ensures TotalAccess(Active(rows + [row])) == TotalAccess(Active(rows)) + if row.active then Counted(row) else 0
  {
    FilterAppend((r: Row) => r.active, rows, [row]);
    TotalAppend(Active(rows), Active([row]));
    TotalOne(row);
  }

  lemma {:induction false} CollapsedConserves(rows: seq<Row>)
    ensures TotalAccess(Collapsed(rows)) == TotalAccess(Active(rows))
  {
    if rows != [] {
      var earlier, last := rows[..|rows| - 1], rows[|rows| - 1];
      CollapsedConserves(earlier);
      AbsorbConserves(Collapsed(earlier), last);
      assert rows == earlier + [last];
      ActiveTotal(earlier, last);
    }
  }

  /** The batch pass moves access counts between rows and loses none, a count of 0 reading as 1. */
  lemma BatchConservesAccess(rows: seq<Row>)
    ensures TotalAccess(Active(Deduped(rows))) == TotalAccess(Active(rows))
  {
    BatchIsCollapsed(rows);
    CollapsedConserves(rows);
  }

  /** The plain sum of the access counts. */
  function SumAccess(rows: seq<Row>): nat {
    if rows == [] then 0 else SumAccess(rows[..|rows| - 1]) + rows[|rows| - 1].access
  }

  ghost predicate AllAccessed(rows: seq<Row>) {
    forall i | 0 <= i < |rows| :: rows[i].access >= 1
  }

  /** How many rows were never counted as accessed. */
  function Unaccessed(rows: seq<Row>): nat {
    if rows == [] then 0 else Unaccessed(rows[..|rows| - 1]) + if rows[|rows| - 1].access == 0 then 1 else 0
  }

  /** A count of 0 reads as 1. */
  lemma {:induction false} TotalExactly(rows: seq<Row>)
    ensures TotalAccess(rows) == SumAccess(rows) + Unaccessed(rows)
    ensures AllAccessed(rows) ==> Unaccessed(rows) == 0
  {
    if rows != [] {
      TotalExactly(rows[..|rows| - 1]);
    }
  }

  lemma {:induction false} AbsorbAccessed(rows: seq<Row>, row: Row)
    requires AllAccessed(rows) && row.access >= 1
    ensures AllAccessed(Absorb(rows, row))
  {
    if row.active && row.key.Some? && rows != [] && !Matches(rows[0], row.key.value) {
      AbsorbAccessed(rows[1..], row);
      assert Absorb(rows, row) == [rows[0]] + Absorb(rows[1..], row);
    }
  }

  lemma {:induction false} CollapsedAccessed(rows: seq<Row>)
    requires AllAccessed(rows)
    ensures AllAccessed(Collapsed(rows))
  {
    if rows != [] {
      CollapsedAccessed(rows[..|rows| - 1]);
      AbsorbAccessed(Collapsed(rows[..|rows| - 1]), rows[|rows| - 1]);
    }
  }

  /** Where every row was accessed, as every stored one was, the sum itself is conserved. */
  lemma BatchConservesSum(rows: seq<Row>)
    requires AllAccessed(rows)
    ensures SumAccess(Active(Deduped(rows))) == SumAccess(Active(rows)) && AllAccessed(Active(Deduped(rows)))
  {
    BatchConservesAccess(rows);
    BatchIsCollapsed(rows);
    CollapsedAccessed(rows);
    TotalExactly(Active(Deduped(rows)));
    forall i | 0 <= i < |Active(rows)|
      ensures Active(rows)[i].access >= 1
    {
      assert Active(rows)[i] in Active(rows);
    }
    TotalExactly(Active(rows));
  }

  /** Storing, one by one or without looking for duplicates, leaves no row without an access. */
  lemma {:induction false} StoredAccessed(reqs: seq<Request>)
    ensures AllAccessed(Online(reqs)) && AllAccessed(Raw(reqs))
  {
    if reqs != [] {
      StoredAccessed(reqs[..|reqs| - 1]);
      AbsorbNewIsStored(Online(reqs[..|reqs| - 1]), reqs[|reqs| - 1]);
    }
  }

  lemma {:induction false} GroupOfActive(rows: seq<Row>, key: string)
    ensures Group(Active(rows), key) == Group(rows, key)
  {
    if rows != [] {
      GroupOfActive(rows[1..], key);
      if rows[0].active {
        assert ([rows[0]] + Active(rows[1..]))[1..] == Active(rows[1..]);
      }
    }
  }

  lemma {:induction false} SmallGroups(rows: seq<Row>, key: string)
    requires OneRowPerKey(rows)
    ensures |Group(rows, key)| <= 1
  {
    if rows != [] {
      SmallGroups(rows[1..], key);
      if Matches(rows[0], key) {
        forall row | row in rows[1..]
          ensures !Matches(row, key)
        {
          var i :| 0 <= i < |rows[1..]| && rows[1..][i] == row;
          assert rows[i + 1] == row;
        }
        FilterNone(SameKey(key), rows[1..]);
      }
    }
  }

  /** Where every fingerprint has one active row, the batch pass does nothing. */
  lemma DedupedOfUnique(rows: seq<Row>)
    requires OneRowPerKey(Active(rows))
    ensures Deduped(rows) == rows
  {
    forall i | 0 <= i < |rows|
      ensures DedupedRow(rows, i) == rows[i]
    {
      if rows[i].active && rows[i].key.Some? {
        var key := rows[i].key.value;
        GroupOfActive(rows, key);
        SmallGroups(Active(rows), key);
        assert rows == rows[..i] + rows[i..];
        FilterAppend(SameKey(key), rows[..i], rows[i..]);
        assert rows[i] == rows[i..][0] && rows[i] in Group(rows[i..], key);
        assert Group(rows, key) == Group(rows[..i], key) + Group(rows[i..], key);
      }
    }
  }

  lemma BatchIsIdempotent(rows: seq<Row>)
    ensures Deduped(Deduped(rows)) == Deduped(rows)
  {
    BatchLeavesOnePerKey(rows);
    DedupedOfUnique(Deduped(rows));
  }

  // ------------------------------------------------------------ what the rows hold

  function RequestKeys(reqs: seq<Request>): seq<string> {
    if reqs == [] then [] else RequestKeys(reqs[..|reqs| - 1]) + [reqs[|reqs| - 1].key]
  }

  function Asks(key: string): Request -> bool {
    (req: Request) => req.key == key
  }

  /** The requests with a key, as they came. */
  function Asked(reqs: seq<Request>, key: string): seq<Request> {
    Filter(Asks(key), reqs)
  }

  function AskedTags(asked: seq<Request>): seq<string> {
    if asked == [] then [] else AskedTags(asked[..|asked| - 1]) + asked[|asked| - 1].tags
  }

  function AskedFiles(asked: seq<Request>): seq<string> {
    if asked == [] then [] else AskedFiles(asked[..|asked| - 1]) + asked[|asked| - 1].files
  }

  /** What the row of a key holds, `asked` being the requests with that key. */
  ghost predicate HoldsAsked(row: Row, asked: seq<Request>) {
    && asked != [] && row.active && row.content == asked[0].content && row.access == |asked|
    && (forall req | req in asked :: req.importance <= row.importance)
    && (exists req :: req in asked && req.importance == row.importance)
    && row.tags == (if |asked| == 1 then asked[0].tags else Dedup(AskedTags(asked)))
    && row.files == (if |asked| == 1 then asked[0].files else Dedup(AskedFiles(asked)))
  }

  /** One row for each key that was asked for, in the order in which the keys first came. */
  ghost predicate Holds(rows: seq<Row>, reqs: seq<Request>) {
    var keys := Dedup(RequestKeys(reqs));
    && |rows| == |keys|
    && forall i | 0 <= i < |rows| :: rows[i].key == Some(keys[i]) && HoldsAsked(rows[i], Asked(reqs, keys[i]))
  }

  lemma {:induction false} KeysAsked(reqs: seq<Request>, req: Request)
    requires req in reqs
    ensures req.key in RequestKeys(reqs)
  {
    var n := |reqs| - 1;
    assert reqs == reqs[..n] + [reqs[n]];
    if req != reqs[n] {
      KeysAsked(reqs[..n], req);
    }
  }

  lemma AskedSnoc(asked: seq<Request>, req: Request)
    ensures AskedTags(asked + [req]) == AskedTags(asked) + req.tags
    ensures AskedFiles(asked + [req]) == AskedFiles(asked) + req.files
  {
    assert (asked + [req])[..|asked|] == asked;
  }

  lemma AskedOne(req: Request)
    ensures AskedTags([req]) == req.tags && AskedFiles([req]) == req.files
  {
    AskedSnoc([], req);
    assert [] + [req] == [req] && [] + req.tags == req.tags && [] + req.files == req.files;
  }

  lemma HighestGrows(top: nat, asked: seq<Request>, req: Request)
    requires (forall r | r in asked :: r.importance <= top) && exists r :: r in asked && r.importance == top
    ensures forall r | r in asked + [req] :: r.importance <= Max(top, req.importance)
    ensures exists r :: r in asked + [req] && r.importance == Max(top, req.importance)
  {
    var high :| high in asked && high.importance == top;
    assert high in asked + [req] && req in asked + [req];
  }

  lemma BumpedHolds(row: Row, asked: seq<Request>, req: Request)
    requires HoldsAsked(row, asked)
    ensures HoldsAsked(Bumped(row, req), asked + [req])
  {
    AskedSnoc(asked, req);
    if |asked| == 1 {
      AskedOne(asked[0]);
      assert asked == [asked[0]];
    } else {
      DedupEarly(AskedTags(asked), req.tags);
      DedupEarly(AskedFiles(asked), req.files);
    }
    HighestGrows(row.importance, asked, req);
  }

  lemma NewHolds(req: Request)
    ensures HoldsAsked(NewRow(req), [req])
  {
    assert req in [req];
  }

  /** A stored request changes the first row that matches it, or adds one. */
  lemma {:induction false} StoredAt(rows: seq<Row>, req: Request, i: nat)
    requires i <= |rows| && (i < |rows| ==> Matches(rows[i], req.key))
    requires forall j | 0 <= j < i :: !Matches(rows[j], req.key)
    ensures Stored(rows, req) == if i < |rows| then rows[i := Bumped(rows[i], req)] else rows + [NewRow(req)]
  {
    if rows != [] {
      HeadAndTail(rows);
      if i > 0 {
        StoredAt(rows[1..], req, i - 1);
      }
    }
  }

  lemma RequestKeysSnoc(reqs: seq<Request>, req: Request)
    ensures RequestKeys(reqs + [req]) == RequestKeys(reqs) + [req.key]
    ensures Dedup(RequestKeys(reqs) + [req.key])
         == Dedup(RequestKeys(reqs)) + if req.key in RequestKeys(reqs) then [] else [req.key]
  {
    assert (reqs + [req])[..|reqs|] == reqs;
    var keys := RequestKeys(reqs);
    assert (keys + [req.key])[..|keys|] == keys;
  }

  lemma AskedMore(reqs: seq<Request>, req: Request, key: string)
    ensures Asked(reqs + [req], key) == if key == req.key then Asked(reqs, key) + [req] else Asked(reqs, key)
    ensures key !in RequestKeys(reqs) ==> Asked(reqs, key) == []
  {
    FilterAppend(Asks(key), reqs, [req]);
    if key !in RequestKeys(reqs) {
      forall r | r in reqs ensures !Asks(key)(r) {
        KeysAsked(reqs, r);
      }
      FilterNone(Asks(key), reqs);
    }
  }

  lemma StoredHolds(rows: seq<Row>, reqs: seq<Request>, req: Request)
    requires Holds(rows, reqs)
    ensures Holds(Stored(rows, req), reqs + [req])
  {
    var keys := Dedup(RequestKeys(reqs));
    DedupLists(RequestKeys(reqs));
    RequestKeysSnoc(reqs, req);
    var i := FirstAt(keys, req.key);
    StoredAt(rows, req, i);
    if i < |rows| {
      BumpedHolds(rows[i], Asked(reqs, req.key), req);
      AskedMore(reqs, req, req.key);
    } else {
      AskedMore(reqs, req, req.key);
      NewHolds(req);
    }
    var after, all := Stored(rows, req), Dedup(RequestKeys(reqs + [req]));
    forall j | 0 <= j < |after|
      ensures after[j].key == Some(all[j]) && HoldsAsked(after[j], Asked(reqs + [req], all[j]))
    {
      if j != i {
        AskedMore(reqs, req, keys[j]);
        assert keys[j] != req.key;
      } else if i == |rows| {
        assert [] + [req] == [req];
      }
    }
  }

  /**
   After any requests: a row for each key, in the order in which the keys first came, with the
   content of the key's first request and the highest importance, all the tags and files and
   the number of its requests.
   */
  lemma {:induction false} OnlineHolds(reqs: seq<Request>)
    ensures Holds(Online(reqs), reqs) && FirstSeen(Dedup(RequestKeys(reqs)), RequestKeys(reqs))
  {
    DedupLists(RequestKeys(reqs));
    if reqs != [] {
      var n := |reqs| - 1;
      OnlineHolds(reqs[..n]);
      StoredHolds(Online(reqs[..n]), reqs[..n], reqs[n]);
      assert reqs == reqs[..n] + [reqs[n]];
    }
  }

  /** Two active rows of one fingerprint. */
  predicate Twins(a: Row, b: Row) {
    a.active && b.active && a.key.Some? && a.key == b.key
  }

  /** The oldest row of a group, `r` after the batch pass: the highest importance and all the tags and files. */
  ghost predicate TakesOver(rows: seq<Row>, row: Row, r: Row)
    requires row.key.Some?
  {
    && r.active && r.key == row.key && r.content == row.content
    && r.access == TotalAccess(Group(rows, row.key.value))
    && (forall s | s in rows && Twins(s, row) :: s.importance <= r.importance)
    && (exists s :: s in rows && Twins(s, row) && s.importance == r.importance)
    && Distinct(r.tags) && (forall x :: x in r.tags <==> exists s :: s in rows && Twins(s, row) && x in s.tags)
    && Distinct(r.files) && (forall x :: x in r.files <==> exists s :: s in rows && Twins(s, row) && x in s.files)
  }

  lemma {:induction false} TopOfGroup(group: seq<Row>)
    requires group != []
    ensures forall s | s in group :: s.importance <= TopImportance(group)
    ensures exists s :: s in group && s.importance == TopImportance(group)
  {
    var n := |group| - 1;
    var earlier, last := group[..n], group[n];
    assert group == earlier + [last] && last in group;
    if n > 0 {
      TopOfGroup(earlier);
      var top :| top in earlier && top.importance == TopImportance(earlier);
      assert top in group;
    }
    forall s | s in group ensures s.importance <= TopImportance(group) {
      assert s == last || s in earlier;
    }
  }

  lemma {:induction false} TagsOfGroup(group: seq<Row>)
    ensures forall x :: x in AllTags(group) <==> exists s :: s in group && x in s.tags
    ensures forall x :: x in AllFiles(group) <==> exists s :: s in group && x in s.files
  {
    if group != [] {
      var n := |group| - 1;
      assert group == group[..n] + [group[n]];
      assert group[n] in group;
      TagsOfGroup(group[..n]);
    }
  }

  /** The group of a leader, cut at the leader. */
  lemma GroupAtLeader(rows: seq<Row>, i: nat)
    requires i < |rows| && rows[i].active && rows[i].key.Some? && Leads(rows, i)
    ensures var key := rows[i].key.value; Group(rows, key) == [rows[i]] + Group(rows[i + 1..], key)
  {
    var key := rows[i].key.value;
    FilterPrefix(SameKey(key), rows, i);
    assert rows[i..][0] == rows[i] && rows[i..][1..] == rows[i + 1..];
  }

  /** Each row after the batch pass, read off the rows before it. */
  lemma BatchRow(rows: seq<Row>, i: nat)
    requires i < |rows|
    ensures var r, row := Deduped(rows)[i], rows[i];
      if !row.active || row.key.None? then r == row
      else if exists j: nat :: j < i && Twins(rows[j], row) then r == row.(active := false)
      else if exists j: nat :: i < j < |rows| && Twins(rows[j], row) then TakesOver(rows, row, r)
      else r == row
  {
    var row := rows[i];
    if row.active && row.key.Some? {
      var key := row.key.value;
      LeadsExactly(rows, i);
      if Leads(rows, i) {
        GroupAtLeader(rows, i);
        var later := Group(rows[i + 1..], key);
        if later == [] {
          forall j: nat | i < j < |rows| ensures !Twins(rows[j], row) {
            assert rows[j] == rows[i + 1..][j - i - 1];
            GroupHas(rows[i + 1..], rows[j], key);
          }
        } else {
          assert later[0] in rows[i + 1..];
          var k: nat :| k < |rows[i + 1..]| && rows[i + 1..][k] == later[0];
          assert Twins(rows[i + 1 + k], row);
          CollapsedTakesOver(rows, i);
        }
      }
    }
  }

  lemma GroupHas(rows: seq<Row>, row: Row, key: string)
    requires row in rows
    ensures Matches(row, key) ==> row in Group(rows, key)
  {
  }

  lemma LeadsExactly(rows: seq<Row>, i: nat)
    requires i < |rows| && rows[i].active && rows[i].key.Some?
    ensures Leads(rows, i) <==> !exists j: nat :: j < i && Twins(rows[j], rows[i])
  {
    var key := rows[i].key.value;
    var earlier := Group(rows[..i], key);
    if earlier != [] {
      assert earlier[0] in rows[..i];
      var j: nat :| j < i && rows[..i][j] == earlier[0];
      assert Twins(rows[j], rows[i]);
    } else {
      forall j: nat | j < i ensures !Twins(rows[j], rows[i]) {
        assert rows[j] == rows[..i][j];
        GroupHas(rows[..i], rows[j], key);
      }
    }
  }

  lemma CollapsedTakesOver(rows: seq<Row>, i: nat)
    requires i < |rows| && rows[i].active && rows[i].key.Some? && Leads(rows, i)
    requires |Group(rows, rows[i].key.value)| > 1
    ensures TakesOver(rows, rows[i], Deduped(rows)[i])
  {
    var row, group := rows[i], Group(rows, rows[i].key.value);
    assert forall s :: s in group <==> s in rows && Twins(s, row);
    GroupAtLeader(rows, i);
    TopOfGroup(group);
    TagsOfGroup(group);
    DedupLists(AllTags(group));
    DedupLists(AllFiles(group));
  }

  // ------------------------------------------------------------ the store

  lemma EarlierMatch(rows: seq<Row>, a: nat, b: nat, key: string)
    requires a < |rows| && b < |rows|
    ensures a < b && Matches(rows[a], key) ==> Group(rows[..b], key) != []
  {
    if a < b && Matches(rows[a], key) {
      assert rows[..b][a] == rows[a];
      assert rows[a] in Group(rows[..b], key);
    }
  }

  /** Only the oldest row of a group leads it. */
  lemma LeaderIsFirst(rows: seq<Row>, keep: nat, i: nat, key: string)
    requires keep < |rows| && i < |rows| && Matches(rows[keep], key) && Matches(rows[i], key) && Leads(rows, keep)
    ensures Leads(rows, i) <==> i == keep
  {
    EarlierMatch(rows, i, keep, key);
    EarlierMatch(rows, keep, i, key);
  }

  lemma ActiveSnoc(rows: seq<Row>, row: Row)
    ensures |Active(rows + [row])| == |Active(rows)| + if row.active then 1 else 0
  {
    FilterAppend((r: Row) => r.active, rows, [row]);
  }

  /** Row for row, the group of `key` collapsed and every other row as it was. */
  ghost function GroupCollapsed(rows: seq<Row>, key: string): seq<Row> {
    seq(|rows|, i requires 0 <= i < |rows| => CollapsedRow(rows, key, i))
  }

  ghost function CollapsedRow(rows: seq<Row>, key: string, i: nat): Row
    requires i < |rows|
  {
    if Matches(rows[i], key) then DedupedRow(rows, i) else rows[i]
  }

  /** The first `|r|` rows, collapsed into the row at `keep` where they are of the group. */
  ghost predicate Collapsing(rows: seq<Row>, key: string, keep: nat, r: seq<Row>, archived: int) {
    && |r| <= |rows| && (forall j | 0 <= j < |r| :: r[j] == CollapsedRow(rows, key, j))
    && Counts(rows, key, keep, r, archived)
  }

  ghost predicate Counts(rows: seq<Row>, key: string, keep: nat, r: seq<Row>, archived: int)
    requires |r| <= |rows|
  {
    && archived == |Group(rows[..|r|], key)| - (if |r| > keep then 1 else 0)
    && |Active(r)| + archived == |Active(rows[..|r|])|
  }

  lemma OneMoreCount(rows: seq<Row>, key: string, keep: nat, r: seq<Row>, archived: int, row: Row)
    requires |r| < |rows| && Counts(rows, key, keep, r, archived)
    requires keep < |rows| && Matches(rows[keep], key)
    requires row.active <==> if Matches(rows[|r|], key) then |r| == keep else rows[|r|].active
    ensures Counts(
      rows, key, keep, r + [row], if Matches(rows[|r|], key) && |r| != keep then archived + 1 else archived)
  {
    GroupPrefix(rows, |r|, key);
    assert rows[..|r| + 1] == rows[..|r|] + [rows[|r|]];
    ActiveSnoc(rows[..|r|], rows[|r|]);
    ActiveSnoc(r, row);
  }

  lemma OneMoreCollapsed(rows: seq<Row>, key: string, keep: nat, r: seq<Row>, archived: int, row: Row)
    requires Collapsing(rows, key, keep, r, archived) && |r| < |rows|
    requires keep < |rows| && Matches(rows[keep], key) && row == CollapsedRow(rows, key, |r|)
    requires Matches(rows[|r|], key) ==> (row.active <==> |r| == keep)
    ensures Collapsing(
      rows, key, keep, r + [row], if Matches(rows[|r|], key) && |r| != keep then archived + 1 else archived)
  {
    OneMoreCount(rows, key, keep, r, archived, row);
  }

  /** The loop of `dedupe_existing` over one duplicate group. */
  method CollapseGroup(rows: seq<Row>, key: string) returns (r: seq<Row>, archived: nat)
    requires |Group(rows, key)| > 1
    ensures r == GroupCollapsed(rows, key)
    ensures archived == |Group(rows, key)| - 1 && |Active(r)| + archived == |Active(rows)|
  {
    var keep, leader := MergeGroup(rows, key);
    r, archived := [], 0;
    for i := 0 to |rows|
      invariant |r| == i && Collapsing(rows, key, keep, r, archived)
    {
      var row := rows[i];
      var count := archived;
      if Matches(rows[i], key) {
        LeaderIsFirst(rows, keep, i, key);
        if i == keep {
          row := leader;
        } else {
          row, count := row.(active := false), count + 1;
        }
      }
      OneMoreCollapsed(rows, key, keep, r, archived, row);
      r, archived := r + [row], count;
    }
    assert rows[..|rows|] == rows;
  }

  /** The accumulators of one group, after the rows of it that have been read. */
  ghost predicate Accumulates(group: seq<Row>, total: nat, importance: nat, tags: seq<string>, files: seq<string>) {
    && total == TotalAccess(group) && importance == TopImportance(group)
    && tags == Dedup(AllTags(group)) && files == Dedup(AllFiles(group))
  }

  lemma GroupTotals(group: seq<Row>, row: Row)
    ensures TotalAccess(group + [row]) == TotalAccess(group) + Counted(row)
    ensures TopImportance(group + [row]) == Max(TopImportance(group), row.importance)
    ensures AllTags(group + [row]) == AllTags(group) + row.tags &&
      AllFiles(group + [row]) == AllFiles(group) + row.files
  {
    assert (group + [row])[..|group|] == group;
  }

  lemma AccumulateFirst(row: Row)
    ensures Accumulates([row], Counted(row), row.importance, Dedup(row.tags + row.tags), Dedup(row.files + row.files))
  {
    GroupTotals([], row);
    assert [] + [row] == [row] && [] + row.tags == row.tags && [] + row.files == row.files;
    DedupKnown(row.tags, row.tags);
    DedupKnown(row.files, row.files);
  }

  lemma AccumulateNext(group: seq<Row>, row: Row, total: nat, importance: nat, tags: seq<string>, files: seq<string>)
    requires Accumulates(group, total, importance, tags, files)
    ensures Accumulates(group + [row], total + Counted(row), Max(importance, row.importance),
                        Dedup(tags + row.tags), Dedup(files + row.files))
  {
    GroupTotals(group, row);
    DedupEarly(AllTags(group), row.tags);
    DedupEarly(AllFiles(group), row.files);
  }

  /** The accumulators over one group, started from its oldest row. */
  method MergeGroup(rows: seq<Row>, key: string) returns (keep: nat, leader: Row)
    requires |Group(rows, key)| > 1
    ensures keep < |rows| && Matches(rows[keep], key) && Leads(rows, keep)
    ensures leader == Collapse(Group(rows, key)) && leader.active
  {
    var found := false;
    var total: nat, importance: nat, tags: seq<string>, files: seq<string> := 0, 0, [], [];
    keep := 0;
    for i := 0 to |rows|
      invariant found <==> Group(rows[..i], key) != []
      invariant found ==>
        keep < i && Matches(rows[keep], key) && Leads(rows, keep) && Group(rows[..i], key)[0] == rows[keep]
      invariant Accumulates(Group(rows[..i], key), total, importance, tags, files)
    {
      var row := rows[i];
      GroupPrefix(rows, i, key);
      if Matches(row, key) {
        ghost var before := Group(rows[..i], key);
        if found {
          AccumulateNext(before, row, total, importance, tags, files);
        } else {
          AccumulateFirst(row);
          assert before + [row] == [row];
          found, keep, importance, tags, files := true, i, row.importance, row.tags, row.files;
        }
        total := total + Counted(row);
        importance := Max(importance, row.importance);
        tags := MergeLists(tags, row.tags);
        files := MergeLists(files, row.files);
      }
    }
    assert rows[..|rows|] == rows;
    leader := rows[keep].(access := total, importance := importance, tags := tags, files := files);
  }

  /** `GROUP BY content_fingerprint HAVING COUNT(*) > 1` over the active rows that carry one. */
  function DuplicateKeys(rows: seq<Row>): set<string> {
    set i | 0 <= i < |rows| && rows[i].active && rows[i].key.Some? && |Group(rows, rows[i].key.value)| > 1 ::
      rows[i].key.value
  }

  lemma {:induction false} SameGroup(xs: seq<Row>, ys: seq<Row>, key: string)
    requires |xs| == |ys|
    requires forall i | 0 <= i < |xs| :: Matches(xs[i], key) || Matches(ys[i], key) ==> xs[i] == ys[i]
    ensures Group(xs, key) == Group(ys, key)
  {
    if xs != [] {
      SameGroup(xs[1..], ys[1..], key);
    }
  }

  /** An active row whose fingerprint is one of `keys`. */
  predicate Among(row: Row, keys: set<string>) {
    row.active && row.key.Some? && row.key.value in keys
  }

  /** One request more. */
  lemma StoredNext(rows: seq<Row>, req: Request)
    ensures forall reqs | rows == Online(reqs) :: Stored(rows, req) == Online(reqs + [req])
  {
    forall reqs | rows == Online(reqs) ensures Stored(rows, req) == Online(reqs + [req]) {
      assert (reqs + [req])[..|reqs|] == reqs;
    }
  }

  class Memories {
    var rows: seq<Row>

    constructor ()
      ensures rows == []
    {
      rows := [];
    }

    method StoreMemory(req: Request)
      modifies this
      ensures rows == Stored(old(rows), req)
      ensures forall reqs | old(rows) == Online(reqs) :: rows == Online(reqs + [req])
    {
      var i := 0;
      while i < |rows| && !Matches(rows[i], req.key)
        invariant 0 <= i <= |rows| && rows == old(rows)
        invariant forall j | 0 <= j < i :: !Matches(rows[j], req.key)
      {
        i := i + 1;
      }
      StoredAt(rows, req, i);
      if i < |rows| {
        var row := rows[i];
        var tags := MergeLists(row.tags, req.tags);
        var files := MergeLists(row.files, req.files);
        rows := rows[i := row.(
          importance := Max(row.importance, req.importance), tags := tags, files := files, access := row.access + 1)];
      } else {
        rows := rows + [NewRow(req)];
      }
      StoredNext(old(rows), req);
    }

    method DedupeExisting() returns (groups: nat, archived: nat)
      modifies this
      ensures rows == Deduped(old(rows))
      ensures groups == |DuplicateKeys(old(rows))| && archived == |Active(old(rows))| - |Active(rows)|
    {
      var keys := DuplicateKeys(rows);
      groups, archived := |keys|, 0;
      ghost var start := rows;
      var todo := keys;
      ghost var done: set<string> := {};
      while todo != {}
        invariant (forall k :: k in keys <==> k in todo || k in done) && forall k | k in todo :: k !in done
        invariant rows == PartlyDeduped(start, done) && |Active(rows)| + archived == |Active(start)|
      {
        var key :| key in todo;
        todo := todo - {key};
        StillDuplicate(start, rows, done, key);
        var changed, more := CollapseGroup(rows, key);
        OneMoreGroup(start, rows, done, key);
        rows, archived, done := changed, archived + more, done + {key};
      }
      assert done == keys;
      AllDeduped(start);
    }

    lemma StillDuplicate(start: seq<Row>, now: seq<Row>, done: set<string>, key: string)
      requires now == PartlyDeduped(start, done) && key !in done && key in DuplicateKeys(start)
      ensures |Group(now, key)| > 1
    {
      Untouched(start, now, done, key);
    }

    /** The groups of `done` are collapsed, the other rows are as they were. */
    ghost function PartlyDeduped(start: seq<Row>, done: set<string>): seq<Row> {
      seq(|start|, i requires 0 <= i < |start| => if Among(start[i], done) then DedupedRow(start, i) else start[i])
    }

    lemma OneMoreGroup(start: seq<Row>, now: seq<Row>, done: set<string>, key: string)
      requires now == PartlyDeduped(start, done) && key !in done
      ensures GroupCollapsed(now, key) == PartlyDeduped(start, done + {key})
    {
      Untouched(start, now, done, key);
      forall i | 0 <= i < |start|
        ensures CollapsedRow(now, key, i) == if Among(start[i], done + {key}) then DedupedRow(start, i) else start[i]
      {
        if Matches(start[i], key) {
          SameGroup(start[..i], now[..i], key);
        }
      }
    }

    lemma AllDeduped(start: seq<Row>)
      ensures PartlyDeduped(start, DuplicateKeys(start)) == Deduped(start)
    {
      forall i | 0 <= i < |start|
        ensures PartlyDeduped(start, DuplicateKeys(start))[i] == DedupedRow(start, i)
      {
        Settled(start, i);
      }
    }

    /** Collapsing other groups leaves the group of `key` as it was. */
    lemma Untouched(start: seq<Row>, now: seq<Row>, done: set<string>, key: string)
      requires now == PartlyDeduped(start, done) && key !in done
      ensures Group(now, key) == Group(start, key)
      ensures forall i | 0 <= i < |start| :: Matches(now[i], key) <==> Matches(start[i], key)
      ensures forall i | 0 <= i < |start| && Matches(start[i], key) :: now[i] == start[i]
    {
      forall i | 0 <= i < |start|
        ensures Matches(start[i], key) || Matches(now[i], key) ==> now[i] == start[i]
      {
        DedupedKey(start, i);
      }
      SameGroup(now, start, key);
    }

    /** A row outside every duplicate group is left alone. */
    lemma Settled(rows: seq<Row>, i: nat)
      requires i < |rows|
      ensures !Among(rows[i], DuplicateKeys(rows)) ==> DedupedRow(rows, i) == rows[i]
    {
      if rows[i].active && rows[i].key.Some? && rows[i].key.value !in DuplicateKeys(rows) {
        var key := rows[i].key.value;
        assert |Group(rows, key)| <= 1;
        assert rows == rows[..i] + rows[i..];
        FilterAppend(SameKey(key), rows[..i], rows[i..]);
        assert rows[i] == rows[i..][0] && rows[i] in Group(rows[i..], key);
        assert Group(rows, key) == Group(rows[..i], key) + Group(rows[i..], key);
      }
    }
  }
}
