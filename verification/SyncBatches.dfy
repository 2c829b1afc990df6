/** Chunked uploads of the local agent (omnicode_adapters/agent/client.py). */
module SyncBatches {
  import opened Sequences

  /** A file to upload; its size in bytes is what the packing counts. */
  datatype Payload = Payload(path: string, size: nat)

  datatype AgentResult = AgentResult(
    pushed: int, deleted: int, skipped: int, errors: seq<string>,
    accepted: Option<int>, indexed: Option<int>, protocol: Option<string>)
  {
    /** `AgentResult.merge`: counts add up, errors queue up, the later revision wins. */
    function Merge(other: AgentResult): AgentResult {
      AgentResult(
        pushed + other.pushed, deleted + other.deleted, skipped + other.skipped, errors + other.errors,
        if other.accepted.Some? then other.accepted else accepted,
        if other.indexed.Some? then other.indexed else indexed,
        if other.protocol.Some? then other.protocol else protocol)
    }
  }

  const EMPTY_RESULT := AgentResult(0, 0, 0, [], None, None, None)

  /** What the remote answers to one batch: an error, or counts and revisions (0 when it names none). */
  datatype Reply = Failed(error: string) | Replied(filesAccepted: int, accepted: int, indexed: int)

  function Bytes(batch: seq<Payload>): nat {
    if batch == [] then 0 else Bytes(batch[..|batch| - 1]) + batch[|batch| - 1].size
  }

  function Concat(batches: seq<seq<Payload>>): seq<Payload> {
    if batches == [] then [] else Concat(batches[..|batches| - 1]) + batches[|batches| - 1]
  }

  /** The payloads of the paths that are not skipped, in order. */
  function Accepted(files: seq<Option<Payload>>): seq<Payload> {
    if files == [] then []
    else
      var n := |files| - 1;
      Accepted(files[..n]) + if files[n].Some? then [files[n].value] else []
  }

  lemma {:induction false} BytesAppend(xs: seq<Payload>, ys: seq<Payload>)
    ensures Bytes(xs + ys) == Bytes(xs) + Bytes(ys)
  {
    if ys == [] {
      assert xs + ys == xs;
    } else {
      var n := |ys| - 1;
      assert (xs + ys)[..|xs| + n] == xs + ys[..n];
      BytesAppend(xs, ys[..n]);
    }
  }

  lemma ConcatSnoc(batches: seq<seq<Payload>>, batch: seq<Payload>)
    ensures Concat(batches + [batch]) == Concat(batches) + batch
  {
    assert (batches + [batch])[..|batches|] == batches;
  }

  /** A batch the packer may send: not empty, and within both limits unless it is one oversized file. */
  ghost predicate Fits(batch: seq<Payload>, maxFiles: nat, maxBytes: nat) {
    batch != [] && |batch| <= maxFiles && (Bytes(batch) <= maxBytes || |batch| == 1)
  }

  // ------------------------------------------------------------ when a batch is closed

  /** The last file of a batch fills it by itself. */
  ghost predicate Oversized(batch: seq<Payload>, maxBytes: nat) {
    batch != [] && batch[|batch| - 1].size >= maxBytes
  }

  /** A batch is closed before a file of this size: it is full, or has no room, or holds an oversized file. */
  ghost predicate Closes(batch: seq<Payload>, next: nat, maxFiles: nat, maxBytes: nat) {
    |batch| >= maxFiles || Bytes(batch) + next > maxBytes || Oversized(batch, maxBytes)
  }

  /** Each batch is closed exactly when it has to be: before the file that follows, and after an oversized one. */
  ghost predicate Chained(batches: seq<seq<Payload>>, maxFiles: nat, maxBytes: nat) {
    && (forall i | 0 <= i < |batches| :: batches[i] != [])
    && (forall i, j | 0 <= i < |batches| && 0 <= j < |batches[i]| - 1 :: batches[i][j].size < maxBytes)
    && (forall i | 0 <= i < |batches| - 1 :: Closes(batches[i], batches[i + 1][0].size, maxFiles, maxBytes))
  }

  /** A batch that is open counts as the last one. */
  function WithOpen(closed: seq<seq<Payload>>, batch: seq<Payload>): seq<seq<Payload>> {
    if batch == [] then closed else closed + [batch]
  }

  /** Between two files: the open batch takes on more, and without one the last was closed for an oversized file. */
  ghost predicate Settled(closed: seq<seq<Payload>>, batch: seq<Payload>, maxFiles: nat, maxBytes: nat) {
    && Chained(WithOpen(closed, batch), maxFiles, maxBytes)
    && (if batch != [] then !Oversized(batch, maxBytes)
        else closed != [] ==> Oversized(closed[|closed| - 1], maxBytes))
  }

  lemma ChainedFront(closed: seq<seq<Payload>>, batch: seq<Payload>, maxFiles: nat, maxBytes: nat)
    requires Chained(closed + [batch], maxFiles, maxBytes)
    ensures Chained(closed, maxFiles, maxBytes)
  {
    var all := closed + [batch];
    assert forall i | 0 <= i < |closed| :: all[i] == closed[i];
  }

  lemma ChainedSnoc(closed: seq<seq<Payload>>, batch: seq<Payload>, maxFiles: nat, maxBytes: nat)
    requires Chained(closed, maxFiles, maxBytes) && batch != []
    requires forall j | 0 <= j < |batch| - 1 :: batch[j].size < maxBytes
    requires closed != [] ==> Closes(closed[|closed| - 1], batch[0].size, maxFiles, maxBytes)
    ensures Chained(closed + [batch], maxFiles, maxBytes)
  {
  }

  /** A file that fits joins the open batch. */
  lemma ChainedGrows(closed: seq<seq<Payload>>, batch: seq<Payload>, file: Payload, maxFiles: nat, maxBytes: nat)
    requires Settled(closed, batch, maxFiles, maxBytes) && batch != []
    ensures Chained(closed + [batch + [file]], maxFiles, maxBytes)
  {
    var all := closed + [batch];
    assert all[|closed|] == batch;
    ChainedFront(closed, batch, maxFiles, maxBytes);
    assert closed != [] ==> all[|closed| - 1] == closed[|closed| - 1];
    ChainedSnoc(closed, batch + [file], maxFiles, maxBytes);
  }

  /** What a round of the loop leaves, when `full` says whether the open batch was closed first. */
  lemma SettledNext(
    closed: seq<seq<Payload>>, batch: seq<Payload>, file: Payload, full: bool, maxFiles: nat, maxBytes: nat)
    requires Settled(closed, batch, maxFiles, maxBytes)
    requires full <==> batch != [] && (|batch| >= maxFiles || Bytes(batch) + file.size > maxBytes)
    ensures var before, grown := if full then closed + [batch] else closed, (if full then [] else batch) + [file];
      if file.size >= maxBytes then Settled(before + [grown], [], maxFiles, maxBytes)
      else Settled(before, grown, maxFiles, maxBytes)
  {
    var before, grown := if full then closed + [batch] else closed, (if full then [] else batch) + [file];
    if full || batch == [] {
      assert grown == [file];
      ChainedSnoc(before, grown, maxFiles, maxBytes);
    } else {
      ChainedGrows(closed, batch, file, maxFiles, maxBytes);
    }
    assert grown[|grown| - 1] == file;
  }

  lemma {:induction false} ConcatCons(batch: seq<Payload>, rest: seq<seq<Payload>>)
    ensures Concat([batch] + rest) == batch + Concat(rest)
  {
    if rest == [] {
      assert [batch] + rest == [batch] && [batch][..0] == [];
      assert batch + [] == batch && [] + batch == batch;
    } else {
      var n := |rest| - 1;
      var front, last := rest[..n], rest[n];
      ConcatCons(batch, front);
      assert [batch] + rest == ([batch] + front) + [last] && rest == front + [last];
      ConcatSnoc([batch] + front, last);
      ConcatSnoc(front, last);
      ConcatAssociates(batch, Concat(front), last);
    }
  }

  /** The start of a batch within the limits need not be closed before the file that follows in it. */
  lemma NotClosed(batch: seq<Payload>, m: nat, maxFiles: nat, maxBytes: nat)
    requires 0 < m < |batch| && Fits(batch, maxFiles, maxBytes)
    requires forall j | 0 <= j < |batch| - 1 :: batch[j].size < maxBytes
    ensures !Closes(batch[..m], batch[m].size, maxFiles, maxBytes)
  {
    var start, file := batch[..m], batch[m];
    assert batch[..m + 1] == start + [file];
    assert (start + [file])[..m] == start;
    assert batch == batch[..m + 1] + batch[m + 1..];
    BytesAppend(batch[..m + 1], batch[m + 1..]);
  }

  /** Of two batches at the start of the same files the first is not the shorter one. */
  lemma NoShorterHead(a: seq<seq<Payload>>, b: seq<seq<Payload>>, maxFiles: nat, maxBytes: nat)
    requires a != [] && b != [] && Concat(a) == Concat(b)
    requires Chained(a, maxFiles, maxBytes) && Chained(b, maxFiles, maxBytes) && Fits(b[0], maxFiles, maxBytes)
    ensures |a[0]| >= |b[0]|
  {
    var m := |a[0]|;
    HeadIsPrefix(a);
    HeadIsPrefix(b);
    if m < |b[0]| {
      NextHead(a);
      SharedStart(a[0], b[0], Concat(a));
      NotClosed(b[0], m, maxFiles, maxBytes);
    }
  }

  lemma SharedStart(a: seq<Payload>, b: seq<Payload>, all: seq<Payload>)
    requires a <= all && b <= all && |a| < |b|
    ensures b[..|a|] == a && b[|a|] == all[|a|]
  {
  }

  lemma HeadIsPrefix(a: seq<seq<Payload>>)
    requires a != []
    ensures a[0] <= Concat(a) && Concat(a[1..]) == Concat(a)[|a[0]|..]
  {
    HeadAndTail(a);
    ConcatCons(a[0], a[1..]);
  }

  /** Where there are more files than the first batch holds, the next one starts the second batch. */
  lemma NextHead(a: seq<seq<Payload>>)
    requires a != [] && |Concat(a)| > |a[0]| && forall i | 0 <= i < |a| :: a[i] != []
    ensures |a| > 1 && a[1][0] == Concat(a)[|a[0]|]
  {
    HeadIsPrefix(a);
    var rest := a[1..];
    if rest != [] {
      HeadIsPrefix(rest);
    }
  }

  /** The limits and the rule for closing leave one way to pack the files. */
  lemma {:induction false} OnePacking(a: seq<seq<Payload>>, b: seq<seq<Payload>>, maxFiles: nat, maxBytes: nat)
    requires Concat(a) == Concat(b) && Chained(a, maxFiles, maxBytes) && Chained(b, maxFiles, maxBytes)
    requires (forall x | x in a :: Fits(x, maxFiles, maxBytes)) && forall x | x in b :: Fits(x, maxFiles, maxBytes)
    ensures a == b
  {
    NonemptyConcat(a);
    NonemptyConcat(b);
    if a != [] && b != [] {
      assert a[0] in a && b[0] in b;
      NoShorterHead(a, b, maxFiles, maxBytes);
      NoShorterHead(b, a, maxFiles, maxBytes);
      HeadIsPrefix(a);
      HeadIsPrefix(b);
      assert a[0] == Concat(a)[..|a[0]|] == b[0];
      ChainedTail(a, maxFiles, maxBytes);
      ChainedTail(b, maxFiles, maxBytes);
      OnePacking(a[1..], b[1..], maxFiles, maxBytes);
      HeadAndTail(a);
      HeadAndTail(b);
    }
  }

  lemma NonemptyConcat(a: seq<seq<Payload>>)
    requires forall i | 0 <= i < |a| :: a[i] != []
    ensures Concat(a) == [] <==> a == []
  {
    if a != [] {
      var last := a[|a| - 1];
      assert last != [];
    }
  }

  lemma ChainedTail(a: seq<seq<Payload>>, maxFiles: nat, maxBytes: nat)
    requires a != [] && Chained(a, maxFiles, maxBytes)
    ensures Chained(a[1..], maxFiles, maxBytes)
  {
    var rest := a[1..];
    assert forall i | 0 <= i < |rest| :: rest[i] == a[i + 1];
  }

  function Sum(sizes: seq<nat>): nat {
    if sizes == [] then 0 else Sum(sizes[..|sizes| - 1]) + sizes[|sizes| - 1]
  }

  /**
   Why each closed batch was closed: it is full by count, or its bytes together with those of
   the file that found no room (`turned[i]`, 0 after an oversized file) reach the byte limit.
   */
  ghost predicate Justified(closed: seq<seq<Payload>>, turned: seq<nat>, maxFiles: nat, maxBytes: nat) {
    |turned| == |closed| &&
    forall i | 0 <= i < |closed| :: |closed[i]| >= maxFiles || Bytes(closed[i]) + turned[i] >= maxBytes
  }

  lemma PayOne(count: nat, bytes: nat, turned: nat, maxFiles: nat, maxBytes: nat)
    requires count >= maxFiles || bytes + turned >= maxBytes
    ensures maxFiles * maxBytes <= count * maxBytes + maxFiles * (bytes + turned)
  {
    if count >= maxFiles {
      assert count * maxBytes >= maxFiles * maxBytes;
    } else {
      assert maxFiles * (bytes + turned) >= maxFiles * maxBytes;
    }
  }

  /** Summed up, the reasons bound the number of closed batches. */
  lemma {:induction false} PayAll(closed: seq<seq<Payload>>, turned: seq<nat>, maxFiles: nat, maxBytes: nat)
    requires Justified(closed, turned, maxFiles, maxBytes)
    ensures |closed| * (maxFiles * maxBytes) <=
      |Concat(closed)| * maxBytes + maxFiles * (Bytes(Concat(closed)) + Sum(turned))
  {
    if closed != [] {
      var k := |closed| - 1;
      PayAll(closed[..k], turned[..k], maxFiles, maxBytes);
      PayOne(|closed[k]|, Bytes(closed[k]), turned[k], maxFiles, maxBytes);
      BytesAppend(Concat(closed[..k]), closed[k]);
      Distribute(
        k, |Concat(closed[..k])|, Bytes(Concat(closed[..k])) + Sum(turned[..k]), |closed[k]|,
        Bytes(closed[k]) + turned[k], maxFiles, maxBytes);
    }
  }

  lemma Distribute(k: nat, n: nat, t: nat, count: nat, bytes: nat, maxFiles: nat, maxBytes: nat)
    requires k * (maxFiles * maxBytes) <= n * maxBytes + maxFiles * t
    requires maxFiles * maxBytes <= count * maxBytes + maxFiles * bytes
    ensures (k + 1) * (maxFiles * maxBytes) <= (n + count) * maxBytes + maxFiles * (t + bytes)
  {
  }

  lemma Relax(k: nat, n: nat, t: nat, n': nat, all: nat, maxFiles: nat, maxBytes: nat)
    requires k * (maxFiles * maxBytes) <= n * maxBytes + maxFiles * t
    requires n <= n' && t <= 2 * all
    ensures k * (maxFiles * maxBytes) <= n' * maxBytes + 2 * all * maxFiles
    ensures (k - 1) * (maxFiles * maxBytes) <= n' * maxBytes + 2 * all * maxFiles
  {
    assert n * maxBytes <= n' * maxBytes;
    assert maxFiles * t <= maxFiles * (2 * all);
    assert (k - 1) * (maxFiles * maxBytes) == k * (maxFiles * maxBytes) - maxFiles * maxBytes;
  }

  /** The result of `_push_sync_batch` for a reply, uploads only. */
  function Outcome(reply: Reply, clientRevision: int): AgentResult {
    match reply
    case Failed(error) => AgentResult(0, 0, 0, [error], None, None, Some("/sync/batch"))
    case Replied(files, accepted, indexed) =>
      var revision := if accepted != 0 then accepted else clientRevision;
      AgentResult(files, 0, 0, [], Some(revision), Some(if indexed != 0 then indexed else revision),
        Some("/sync/batch"))
  }

  /** The cached revision after a reply: a failure leaves it. */
  function NextRevision(reply: Reply, revision: int): int {
    if reply.Failed? then revision else if reply.accepted != 0 then reply.accepted else revision + 1
  }

  function RevisionAfter(replies: nat -> Reply, revision: int, k: nat): int {
    if k == 0 then revision else NextRevision(replies(k - 1), RevisionAfter(replies, revision, k - 1))
  }

  /** All results of `k` batches merged in order, each sent on top of the revision before it. */
  function MergedResults(start: AgentResult, replies: nat -> Reply, revision: int, k: nat, skipped: nat): AgentResult {
    if k == 0 then start.(skipped := start.skipped + skipped)
    else
      MergedResults(start, replies, revision, k - 1, skipped)
        .Merge(Outcome(replies(k - 1), RevisionAfter(replies, revision, k - 1) + 1))
  }

  lemma {:induction false} OneMoreSkipped(start: AgentResult, replies: nat -> Reply, revision: int, k: nat,
      skipped: nat)
    ensures var r := MergedResults(start, replies, revision, k, skipped);
      MergedResults(start, replies, revision, k, skipped + 1) == r.(skipped := r.skipped + 1)
  {
    if k > 0 {
      OneMoreSkipped(start, replies, revision, k - 1, skipped);
    }
  }

  function FilesAccepted(replies: nat -> Reply, k: nat): int {
    if k == 0 then 0
    else FilesAccepted(replies, k - 1) + if replies(k - 1).Replied? then replies(k - 1).filesAccepted else 0
  }

  function Successes(replies: nat -> Reply, k: nat): nat {
    if k == 0 then 0 else Successes(replies, k - 1) + if replies(k - 1).Replied? then 1 else 0
  }

  /** The errors of the requests that failed, in order. */
  function FailuresOf(replies: nat -> Reply, k: nat): seq<string> {
    if k == 0 then []
    else FailuresOf(replies, k - 1) + if replies(k - 1).Failed? then [replies(k - 1).error] else []
  }

  /** An empty result changes nothing, on either side. */
  lemma MergeEmpty(r: AgentResult)
    ensures EMPTY_RESULT.Merge(r) == r && r.Merge(EMPTY_RESULT) == r
  {
    assert r.errors + [] == r.errors;
  }

  /** Results may be merged in any grouping. */
  lemma MergeAssociates(a: AgentResult, b: AgentResult, c: AgentResult)
    ensures a.Merge(b).Merge(c) == a.Merge(b.Merge(c))
  {
    ConcatAssociates(a.errors, b.errors, c.errors);
  }

  /** The index revision reported is that of the last success, or else the revision gone on from. */
  lemma {:induction false} IndexedMeaning(
    start: AgentResult, replies: nat -> Reply, revision: int, k: nat, skipped: nat, j: nat)
    requires j < k && replies(j).Replied? && forall i | j < i < k :: replies(i).Failed?
    ensures MergedResults(start, replies, revision, k, skipped).indexed ==
      Some(if replies(j).indexed != 0 then replies(j).indexed else RevisionAfter(replies, revision, k))
  {
    if j < k - 1 {
      IndexedMeaning(start, replies, revision, k - 1, skipped, j);
    }
  }

  /**
   What the caller of `k` requests is told: the files the remote took, one error for each request
   that failed, and, once any succeeded, the very revision the client goes on from.
   */
  lemma {:induction false} MergedMeaning(start: AgentResult, replies: nat -> Reply, revision: int, k: nat, skipped: nat)
    ensures Successes(replies, k) <= k
    ensures var r := MergedResults(start, replies, revision, k, skipped);
      && r.pushed == start.pushed + FilesAccepted(replies, k) && r.deleted == start.deleted
      && r.skipped == start.skipped + skipped
      && r.errors == start.errors + FailuresOf(replies, k)
      && |r.errors| == |start.errors| + (k - Successes(replies, k))
      && r.protocol == (if k == 0 then start.protocol else Some("/sync/batch"))
      && (Successes(replies, k) == 0 ==> r.indexed == start.indexed)
      && r.accepted == if Successes(replies, k) == 0 then start.accepted else Some(RevisionAfter(replies, revision, k))
    ensures Successes(replies, k) == 0 ==> RevisionAfter(replies, revision, k) == revision
  {
    if k > 0 {
      MergedMeaning(start, replies, revision, k - 1, skipped);
      var last := Outcome(replies(k - 1), RevisionAfter(replies, revision, k - 1) + 1);
      ConcatAssociates(start.errors, FailuresOf(replies, k - 1), last.errors);
    } else {
      assert start.errors + [] == start.errors;
    }
  }

  /** The remote never names a revision at or below the one the client had when it asked. */
  ghost predicate Growing(replies: nat -> Reply, revision: int, k: nat) {
    forall j | 0 <= j < k && replies(j).Replied? && replies(j).accepted != 0 ::
      replies(j).accepted > RevisionAfter(replies, revision, j)
  }

  /**
   Against such a remote revisions rise with every success and stay put otherwise, so the request
   after a failure carries the client revision of the failed one.
   */
  lemma {:induction false} RevisionsRise(replies: nat -> Reply, revision: int, j: nat, k: nat)
    requires j <= k && Growing(replies, revision, k)
    ensures Successes(replies, k) >= Successes(replies, j)
    ensures RevisionAfter(replies, revision, k) >=
      RevisionAfter(replies, revision, j) + (Successes(replies, k) - Successes(replies, j))
    ensures RevisionAfter(replies, revision, k) == RevisionAfter(replies, revision, j)
      <==> Successes(replies, k) == Successes(replies, j)
  {
    if j < k {
      RevisionsRise(replies, revision, j, k - 1);
    }
  }

  /** What a `push_batch` call starts from. */
  datatype Call = Call(start: AgentResult, replies: nat -> Reply, revision: int, sent: seq<seq<Payload>>)

  function SkippedIn(files: seq<Option<Payload>>): nat {
    if files == [] then 0 else SkippedIn(files[..|files| - 1]) + if files[|files| - 1].None? then 1 else 0
  }

  class AgentClient {
    const maxFiles: nat
    const maxBytes: nat
    var syncRevision: int
    /** Every batch posted so far. */
    ghost var sent: seq<seq<Payload>>

    /** Limits below 1 are raised to 1. */
    constructor (maxFiles: int, maxBytes: int, revision: int)
      ensures this.maxFiles >= 1 && this.maxFiles == (if maxFiles > 1 then maxFiles else 1)
      ensures this.maxBytes >= 1 && this.maxBytes == (if maxBytes > 1 then maxBytes else 1)
      ensures syncRevision == revision && sent == []
    {
      this.maxFiles := if maxFiles > 1 then maxFiles else 1;
      this.maxBytes := if maxBytes > 1 then maxBytes else 1;
      syncRevision := revision;
      sent := [];
    }

    method PushSyncBatch(batch: seq<Payload>, reply: Reply) returns (r: AgentResult)
      modifies this
      ensures sent == old(sent) + [batch]
      ensures r == Outcome(reply, old(syncRevision) + 1) && syncRevision == NextRevision(reply, old(syncRevision))
    {
      var clientRevision := syncRevision + 1;
      sent := sent + [batch];
      match reply
      case Failed(error) =>
        r := EMPTY_RESULT.(errors := [error], protocol := Some("/sync/batch"));
      case Replied(files, accepted, indexed) =>
        var revision := if accepted != 0 then accepted else clientRevision;
        r := AgentResult(files, 0, 0, [], Some(revision), Some(if indexed != 0 then indexed else revision),
          Some("/sync/batch"));
        syncRevision := revision;
    }

    /**
     The state of the packing loop: `closed` are the batches sent, `batch` is open, and
     `read` are the payloads read so far, with `ahead` bytes of a file still to be placed.
     */
    ghost predicate Packing(
      closed: seq<seq<Payload>>, turned: seq<nat>, batch: seq<Payload>, batchBytes: nat, read: seq<Payload>, ahead: nat)
    {
      && Concat(closed) + batch == read
      && batchBytes == Bytes(batch)
      && (forall b | b in closed :: Fits(b, maxFiles, maxBytes))
      && (batch != [] ==> Fits(batch, maxFiles, maxBytes))
      && Justified(closed, turned, maxFiles, maxBytes) && Sum(turned) <= Bytes(read) + ahead
    }

    /** Closing a batch, `next` being the size of the file it has no room for. */
    lemma CloseBatch(closed: seq<seq<Payload>>, turned: seq<nat>, batch: seq<Payload>, batchBytes: nat,
        read: seq<Payload>, next: nat)
      requires Packing(closed, turned, batch, batchBytes, read, 0) && batch != []
      requires |batch| >= maxFiles || batchBytes + next >= maxBytes
      ensures Packing(closed + [batch], turned + [next], [], 0, read, next)
    {
      ConcatSnoc(closed, batch);
      assert (turned + [next])[..|turned|] == turned;
      assert Concat(closed + [batch]) + [] == read;
    }

    /** Adding a file that fits, or starting a batch with it. */
    lemma AddFile(closed: seq<seq<Payload>>, turned: seq<nat>, batch: seq<Payload>, batchBytes: nat,
        read: seq<Payload>, ahead: nat, file: Payload)
      requires Packing(closed, turned, batch, batchBytes, read, ahead) && ahead <= file.size
      requires maxFiles >= 1 && |batch| < maxFiles && (batch != [] ==> batchBytes + file.size <= maxBytes)
      ensures Packing(closed, turned, batch + [file], batchBytes + file.size, read + [file], 0)
    {
      assert (batch + [file])[..|batch|] == batch;
      assert (read + [file])[..|read|] == read;
      assert Concat(closed) + (batch + [file]) == read + [file];
    }

    lemma AcceptedSnoc(files: seq<Option<Payload>>, i: nat)
      requires i < |files|
      ensures Accepted(files[..i + 1]) ==
        if files[i].Some? then Accepted(files[..i]) + [files[i].value] else Accepted(files[..i])
      ensures SkippedIn(files[..i + 1]) == SkippedIn(files[..i]) + if files[i].None? then 1 else 0
    {
      assert files[..i + 1][..i] == files[..i];
      assert Accepted(files[..i]) + [] == Accepted(files[..i]);
    }

    /** The bound on the closed batches, when at most one more is open. */
    lemma NextFitBound(closed: seq<seq<Payload>>, turned: seq<nat>, batch: seq<Payload>, batchBytes: nat,
        read: seq<Payload>)
      requires Packing(closed, turned, batch, batchBytes, read, 0)
      ensures |closed| * (maxFiles * maxBytes) <= |read| * maxBytes + 2 * Bytes(read) * maxFiles
      ensures (|closed| - 1) * (maxFiles * maxBytes) <= |read| * maxBytes + 2 * Bytes(read) * maxFiles
    {
      PayAll(closed, turned, maxFiles, maxBytes);
      BytesAppend(Concat(closed), batch);
      Relax(|closed|, |Concat(closed)|, Bytes(Concat(closed)) + Sum(turned), |read|, Bytes(read), maxFiles, maxBytes);
    }

    /** `batches` were sent since the call began, and every reply to them is merged into `result`. */
    ghost predicate Merged(call: Call, batches: seq<seq<Payload>>, result: AgentResult, skipped: nat)
      reads this
    {
      && sent == call.sent + batches
      && syncRevision == RevisionAfter(call.replies, call.revision, |batches|)
      && result == MergedResults(call.start, call.replies, call.revision, |batches|, skipped)
    }

    lemma MergedSkip(call: Call, batches: seq<seq<Payload>>, result: AgentResult, files: seq<Option<Payload>>, i: nat)
      requires i < |files| && files[i].None?
      requires Merged(call, batches, result, SkippedIn(files[..i]))
      ensures Merged(call, batches, result.(skipped := result.skipped + 1), SkippedIn(files[..i + 1]))
    {
      AcceptedSnoc(files, i);
      var skipped := SkippedIn(files[..i]);
      assert SkippedIn(files[..i + 1]) == skipped + 1;
      OneMoreSkipped(call.start, call.replies, call.revision, |batches|, skipped);
    }

    /** The nested `_flush` on a batch that is not empty. */
    method Flush(batch: seq<Payload>, result: AgentResult, reply: Reply, ghost call: Call,
        ghost batches: seq<seq<Payload>>, ghost skipped: nat)
      returns (r: AgentResult)
      requires Merged(call, batches, result, skipped) && reply == call.replies(|batches|)
      modifies this
      ensures Merged(call, batches + [batch], r, skipped)
    {
      var outcome := PushSyncBatch(batch, reply);
      r := result.Merge(outcome);
      ConcatAssociates(call.sent, batches, [batch]);
    }

    /**
     `push_batch`: a skipped path is None. After failed retries of earlier work nothing is sent.
     Otherwise the accepted files go out in order, each in exactly one batch within the
     limits, in no more batches than the next-fit bound allows, and every result is merged.
     */
    method PushBatch(files: seq<Option<Payload>>, pending: AgentResult, replies: nat -> Reply)
      returns (result: AgentResult, ghost batches: seq<seq<Payload>>)
      requires maxFiles >= 1 && maxBytes >= 1
      modifies this
      ensures pending.errors != [] ==> sent == old(sent) && result == EMPTY_RESULT.Merge(pending)
      ensures pending.errors == [] ==>
        && Concat(batches) == Accepted(files)
        && (forall b | b in batches :: Fits(b, maxFiles, maxBytes)) && Chained(batches, maxFiles, maxBytes)
        && (|batches| - 1) * (maxFiles * maxBytes) <=
          |Accepted(files)| * maxBytes + 2 * Bytes(Accepted(files)) * maxFiles
        && Merged(
          Call(EMPTY_RESULT.Merge(pending), replies, old(syncRevision), old(sent)), batches, result, SkippedIn(files))
    {
      result := EMPTY_RESULT.Merge(pending);
      batches := [];
      if result.errors != [] {
        return;
      }
      ghost var call := Call(result, replies, syncRevision, sent);
      var batch, k;
      ghost var turned;
      result, batch, k, batches, turned := Pack(files, result, replies, call);
      NextFitBound(batches, turned, batch, Bytes(batch), Accepted(files));
      if batch != [] {
        ConcatSnoc(batches, batch);
        result := Flush(batch, result, replies(k), call, batches, SkippedIn(files));
        batches := batches + [batch];
      }
    }

    /** The packing loop; the last batch may stay open. */
    method Pack(files: seq<Option<Payload>>, start: AgentResult, replies: nat -> Reply, ghost call: Call)
      returns (result: AgentResult, batch: seq<Payload>, k: nat, ghost batches: seq<seq<Payload>>,
        ghost turned: seq<nat>)
      requires maxFiles >= 1 && maxBytes >= 1
      requires call == Call(start, replies, syncRevision, sent)
      modifies this
      ensures k == |batches| && Packing(batches, turned, batch, Bytes(batch), Accepted(files), 0)
      ensures Settled(batches, batch, maxFiles, maxBytes)
      ensures Merged(call, batches, result, SkippedIn(files))
    {
      result, batch, k, batches, turned := start, [], 0, [], [];
      var batchBytes: nat := 0;
      for i := 0 to |files|
        invariant k == |batches| && Packing(batches, turned, batch, batchBytes, Accepted(files[..i]), 0)
        invariant Settled(batches, batch, maxFiles, maxBytes)
        invariant Merged(call, batches, result, SkippedIn(files[..i]))
      {
        AcceptedSnoc(files, i);
        match files[i]
        case None =>
          MergedSkip(call, batches, result, files, i);
          result := result.(skipped := result.skipped + 1);
        case Some(file) =>
          result, batch, batchBytes, k, batches, turned := Place(
            file, result, batch, batchBytes, k, replies, call, batches, turned, Accepted(files[..i]),
            SkippedIn(files[..i + 1]));
      }
      assert files[..|files|] == files;
    }

    /** One file: close the open batch if the file does not fit, append it, close an oversized one at once. */
    method Place(
      file: Payload, result: AgentResult, batch: seq<Payload>, batchBytes: nat, k: nat, replies: nat -> Reply,
      ghost call: Call, ghost batches: seq<seq<Payload>>, ghost turned: seq<nat>, ghost read: seq<Payload>,
      ghost skipped: nat)
      returns (
        result': AgentResult, batch': seq<Payload>, batchBytes': nat, k': nat,
        ghost batches': seq<seq<Payload>>, ghost turned': seq<nat>)
      requires maxFiles >= 1 && maxBytes >= 1
      requires k == |batches| && call.replies == replies
      requires Packing(batches, turned, batch, batchBytes, read, 0) && Merged(call, batches, result, skipped)
      requires Settled(batches, batch, maxFiles, maxBytes)
      modifies this
      ensures k' == |batches'|
      ensures Packing(batches', turned', batch', batchBytes', read + [file], 0) &&
        Merged(call, batches', result', skipped)
      ensures Settled(batches', batch', maxFiles, maxBytes)
    {
      var full := |batch| >= maxFiles || (batch != [] && batchBytes + file.size > maxBytes);
      SettledNext(batches, batch, file, full, maxFiles, maxBytes);
      result', batch', batchBytes', k', batches', turned' :=
        FlushIf(full, file.size, result, batch, batchBytes, k, replies, call, batches, turned, read, skipped);
      AddFile(batches', turned', batch', batchBytes', read, if full then file.size else 0, file);
      batch', batchBytes' := batch' + [file], batchBytes' + file.size;
      result', batch', batchBytes', k', batches', turned' :=
        FlushIf(
          file.size >= maxBytes, 0, result', batch', batchBytes', k', replies, call, batches', turned', read + [file],
          skipped);
    }

    /** `_flush` under a condition; `next` is the size of the file that found no room. */
    method FlushIf(
      full: bool, next: nat, result: AgentResult, batch: seq<Payload>, batchBytes: nat, k: nat, replies: nat -> Reply,
      ghost call: Call, ghost batches: seq<seq<Payload>>, ghost turned: seq<nat>, ghost read: seq<Payload>,
      ghost skipped: nat)
      returns (
        result': AgentResult, batch': seq<Payload>, batchBytes': nat, k': nat,
        ghost batches': seq<seq<Payload>>, ghost turned': seq<nat>)
      requires k == |batches| && call.replies == replies
      requires Packing(batches, turned, batch, batchBytes, read, 0) && Merged(call, batches, result, skipped)
      requires full ==> batch != [] && (|batch| >= maxFiles || batchBytes + next >= maxBytes)
      modifies this
      ensures k' == |batches'|
      ensures Packing(batches', turned', batch', batchBytes', read, if full then next else 0) &&
        Merged(call, batches', result', skipped)
      ensures batch' == (if full then [] else batch) && batchBytes' == (if full then 0 else batchBytes)
      ensures batches' == if full then batches + [batch] else batches
    {
      result', batch', batchBytes', k', batches', turned' := result, batch, batchBytes, k, batches, turned;
      if full {
        CloseBatch(batches, turned, batch, batchBytes, read, next);
        result' := Flush(batch, result, replies(k), call, batches, skipped);
        batch', batchBytes', k', batches', turned' := [], 0, k + 1, batches + [batch], turned + [next];
      }
    }
  }
}
