/**
 Failover routing (omnicode/llm/router.py): the provider chain of a request, the calls along it,
 and the per-provider aggregates kept of all calls.
 */
module FailoverRouter {
  import opened Sequences
  import opened TextLines

  // ------------------------------------------------------------ calls and their aggregates

  datatype Response = Response(content: string, tokens: nat, cost: real)

  /** One entry of the call log: a response, or the failure that took its place. */
  datatype CallRecord = CallRecord(
    provider: string, duration: real, response: Option<Response>, error: Option<string>, strategy: string)

  datatype ProviderStats = ProviderStats(
    total: nat, successes: nat, failures: nat, tokens: nat, cost: real, latency: real, lastError: Option<string>,
    consecutiveFailures: nat)
  {
    predicate Healthy() {
      consecutiveFailures < 3
    }

    function After(call: CallRecord): ProviderStats {
      var timed := this.(total := total + 1, latency := latency + call.duration);
      if call.response.Some? then timed.(
        successes := successes + 1, consecutiveFailures := 0,
        tokens := tokens + call.response.value.tokens, cost := cost + call.response.value.cost)
      else timed.(failures := failures + 1, consecutiveFailures := consecutiveFailures + 1, lastError := call.error)
    }
  }

  const NO_CALLS := ProviderStats(0, 0, 0, 0, 0.0, 0.0, None, 0)

  /** The aggregates of a list of calls to one provider. */
  function StatsOf(calls: seq<CallRecord>): ProviderStats {
    if calls == [] then NO_CALLS else StatsOf(calls[..|calls| - 1]).After(calls[|calls| - 1])
  }

  function CallsTo(log: seq<CallRecord>, name: string): seq<CallRecord> {
    if log == [] then []
    else
      var front, last := CallsTo(log[..|log| - 1], name), log[|log| - 1];
      if last.provider == name then front + [last] else front
  }

  /** The last `k` calls failed, and the one before them did not. */
  ghost predicate TrailingFailures(calls: seq<CallRecord>, k: nat) {
    && k <= |calls|
    && (forall i | |calls| - k <= i < |calls| :: calls[i].response.None?)
    && (k < |calls| ==> calls[|calls| - k - 1].response.Some?)
  }

  function Succeeded(calls: seq<CallRecord>): nat {
    if calls == [] then 0
    else Succeeded(calls[..|calls| - 1]) + if calls[|calls| - 1].response.Some? then 1 else 0
  }

  /** Over any calls the counters add up, and the run of failures is the trailing one. */
  lemma {:induction false} StatsCount(calls: seq<CallRecord>)
    ensures var stats := StatsOf(calls);
      stats.total == |calls| == stats.successes + stats.failures && stats.successes == Succeeded(calls)
      && TrailingFailures(calls, stats.consecutiveFailures)
  {
    if calls != [] {
      var front := calls[..|calls| - 1];
      StatsCount(front);
      var k := StatsOf(front).consecutiveFailures;
      assert k < |front| ==> calls[|front| - k - 1] == front[|front| - k - 1];
    }
  }

  function Duration(calls: seq<CallRecord>): real {
    if calls == [] then 0.0 else Duration(calls[..|calls| - 1]) + calls[|calls| - 1].duration
  }

  function Cost(calls: seq<CallRecord>): real {
    if calls == [] then 0.0
    else
      var last := calls[|calls| - 1].response;
      Cost(calls[..|calls| - 1]) + if last.Some? then last.value.cost else 0.0
  }

  function Tokens(calls: seq<CallRecord>): nat {
    if calls == [] then 0
    else
      var last := calls[|calls| - 1].response;
      Tokens(calls[..|calls| - 1]) + if last.Some? then last.value.tokens else 0
  }

  /** Time, cost and tokens are summed up. */
  lemma {:induction false} StatsSums(calls: seq<CallRecord>)
    ensures var stats := StatsOf(calls);
      stats.latency == Duration(calls) && stats.cost == Cost(calls) && stats.tokens == Tokens(calls)
  {
    if calls != [] {
      StatsSums(calls[..|calls| - 1]);
    }
  }

  /** The error kept is that of the last failure. */
  lemma {:induction false} LastErrorKept(calls: seq<CallRecord>, i: nat)
    requires i < |calls| && calls[i].response.None?
    requires forall j | i < j < |calls| :: calls[j].response.Some?
    ensures StatsOf(calls).lastError == calls[i].error
  {
    if i < |calls| - 1 {
      LastErrorKept(calls[..|calls| - 1], i);
    }
  }

  /** A provider is healthy unless its last three calls all failed. */
  lemma HealthyExactly(calls: seq<CallRecord>)
    ensures StatsOf(calls).Healthy()
      <==> |calls| < 3 || exists i :: |calls| - 3 <= i < |calls| && calls[i].response.Some?
  {
    StatsCount(calls);
    var k := StatsOf(calls).consecutiveFailures;
    if k < 3 && |calls| >= 3 {
      assert calls[|calls| - k - 1].response.Some?;
    }
  }

  /** The latest `n` entries of a log, newest first. */
  ghost predicate IsLatest(recent: seq<CallRecord>, log: seq<CallRecord>, n: nat) {
    && |recent| == (if |log| < n then |log| else n)
    && forall i | 0 <= i < |recent| :: recent[i] == log[|log| - 1 - i]
  }

  // ------------------------------------------------------------ routing

  datatype Strategy = CostOptimized | QualityFirst | Fastest | TaskBased

  datatype Config = Config(name: string, enabled: bool, group: Option<string>)

  const VALID_ROLES: set<string> :=
    {"default", "quality", "cost", "fastest", "edit", "scan", "review", "summary", "chat"}

  const TASK_HINTS: map<string, Strategy> := map[
    "edit" := QualityFirst, "refactor" := QualityFirst, "review" := QualityFirst,
    "scan" := CostOptimized, "index" := CostOptimized, "embed" := CostOptimized,
    "summary" := Fastest, "chat" := Fastest]

  function Lower(c: char): char {
    if 'A' <= c <= 'Z' then c + ('a' - 'A') else c
  }

  function LowerAll(s: string): string {
    if s == "" then "" else [Lower(s[0])] + LowerAll(s[1..])
  }

  function RoleOf(strategy: Strategy): Option<string> {
    match strategy
    case QualityFirst => Some("quality")
    case CostOptimized => Some("cost")
    case Fastest => Some("fastest")
    case TaskBased => None
  }

  /** `_resolve_role`; no task is the empty one. */
  function ResolveRole(strategy: Strategy, task: string): Option<string> {
    var t := Strip(LowerAll(task));
    if task != "" && t in VALID_ROLES then Some(t)
    else if RoleOf(strategy).Some? then RoleOf(strategy)
    else if task != "" && LowerAll(task) in TASK_HINTS then RoleOf(TASK_HINTS[LowerAll(task)])
    else None
  }

  /** The strategy whose chain is used. */
  function Mapped(strategy: Strategy, task: string): Strategy {
    if strategy.TaskBased? && task != "" then
      if LowerAll(task) in TASK_HINTS then TASK_HINTS[LowerAll(task)] else QualityFirst
    else strategy
  }

  /** The names that are live, each at its first occurrence. */
  function FirstLive(names: seq<string>, live: set<string>): seq<string> {
    if names == [] then []
    else
      var front, last := FirstLive(names[..|names| - 1], live), names[|names| - 1];
      if last in live && last !in front then front + [last] else front
  }

  lemma FirstLiveSnoc(names: seq<string>, live: set<string>, i: nat)
    requires i < |names|
    ensures var front := FirstLive(names[..i], live);
      FirstLive(names[..i + 1], live) == if names[i] in live && names[i] !in front then front + [names[i]] else front
  {
    assert names[..i + 1][..i] == names[..i];
  }

  /** The loop that removes duplicates and names that are not live. */
  method KeepFirstLive(names: seq<string>, live: set<string>) returns (ordered: seq<string>)
    ensures ordered == FirstLive(names, live)
  {
    ordered := [];
    var seen: set<string> := {};
    for i := 0 to |names|
      invariant ordered == FirstLive(names[..i], live)
      invariant forall n :: n in seen <==> n in ordered
    {
      FirstLiveSnoc(names, live, i);
      if names[i] in seen || names[i] !in live {
        continue;
      }
      seen := seen + {names[i]};
      ordered := ordered + [names[i]];
    }
    assert names[..|names|] == names;
  }

  lemma {:induction false} FirstLiveLists(names: seq<string>, live: set<string>)
    ensures Distinct(FirstLive(names, live))
    ensures forall x :: x in FirstLive(names, live) <==> x in names && x in live
  {
    if names != [] {
      FirstLiveLists(names[..|names| - 1], live);
      assert names == names[..|names| - 1] + [names[|names| - 1]];
    }
  }

  /** `sorted(names, key=lambda n: not healthy(n))` */
  function HealthyFirst(names: seq<string>, healthy: string -> bool): seq<string> {
    Sort((a, b) => healthy(a) || !healthy(b), names)
  }

  lemma InsertHealthy(healthy: string -> bool, le: (string, string) -> bool, x: string, ys: seq<string>)
    requires healthy(x) && forall a, b :: le(a, b) == (healthy(a) || !healthy(b))
    ensures Insert(le, x, ys) == [x] + ys
  {
    if ys == [] {
      assert [x] + ys == [x];
    }
  }

  lemma PushFront(head: string, rest: seq<string>, x: string, down: seq<string>)
    ensures [head] + (rest + [x] + down) == [head] + rest + [x] + down
  {
  }

  lemma {:induction false} InsertUnhealthy(
    healthy: string -> bool, le: (string, string) -> bool, x: string, up: seq<string>, down: seq<string>)
    requires !healthy(x) && forall a, b :: le(a, b) == (healthy(a) || !healthy(b))
    requires (forall i | 0 <= i < |up| :: healthy(up[i])) && (forall i | 0 <= i < |down| :: !healthy(down[i]))
    ensures Insert(le, x, up + down) == up + [x] + down
  {
    if up == [] {
      assert up + down == down && up + [x] + down == [x] + down;
      assert down == [] ==> [x] + down == [x];
    } else {
      assert (up + down)[0] == up[0] && (up + down)[1..] == up[1..] + down;
      InsertUnhealthy(healthy, le, x, up[1..], down);
      PushFront(up[0], up[1..], x, down);
      HeadAndTail(up);
    }
  }

  /** The sort is stable: the healthy ones first and then the others, both in their old order. */
  lemma {:induction false} HealthyFirstParts(names: seq<string>, healthy: string -> bool)
    ensures HealthyFirst(names, healthy) == Filter(healthy, names) + Filter(n => !healthy(n), names)
  {
    SortByHealth(names, healthy, (a, b) => healthy(a) || !healthy(b), n => !healthy(n));
  }

  lemma {:induction false} SortByHealth(
    names: seq<string>, healthy: string -> bool, le: (string, string) -> bool, down: string -> bool)
    requires forall a, b :: le(a, b) == (healthy(a) || !healthy(b))
    requires forall n :: down(n) == !healthy(n)
    ensures Sort(le, names) == Filter(healthy, names) + Filter(down, names)
  {
    if names != [] {
      SortByHealth(names[1..], healthy, le, down);
      var up, rest := Filter(healthy, names[1..]), Filter(down, names[1..]);
      if healthy(names[0]) {
        InsertHealthy(healthy, le, names[0], up + rest);
        ConcatAssociates([names[0]], up, rest);
      } else {
        InsertUnhealthy(healthy, le, names[0], up, rest);
        ConcatAssociates(up, [names[0]], rest);
      }
    }
  }

  // ------------------------------------------------------------ the chain of a request

  /** The selected providers of a role, then of the default, as far as they are live. */
  function Selected(assignments: map<string, string>, role: Option<string>, live: set<string>): seq<string> {
    var first :=
      if role.Some? && role.value in assignments && assignments[role.value] in live then [assignments[role.value]]
      else [];
    if "default" in assignments && assignments["default"] in live && assignments["default"] !in first
    then first + [assignments["default"]] else first
  }

  function AutoChain(strategy: Strategy, quality: seq<string>, cost: seq<string>): seq<string> {
    match strategy
    case CostOptimized => cost + quality
    case Fastest => cost
    case _ => quality + cost
  }

  /** The preference order of a request: explicit selections, then the chain of the strategy. */
  function Preferred(
    assignments: map<string, string>, strategy: Strategy, task: string, quality: seq<string>, cost: seq<string>,
    live: set<string>): seq<string>
  {
    Selected(assignments, ResolveRole(strategy, task), live) + AutoChain(Mapped(strategy, task), quality, cost)
  }

  /** `chain` holds these providers once each, healthy ones first, each class in preference order. */
  ghost predicate IsChain(chain: seq<string>, preferred: seq<string>, live: set<string>, healthy: string -> bool) {
    && Distinct(chain)
    && (forall n :: n in chain <==> n in preferred && n in live)
    && (forall i, j | 0 <= i < j < |chain| :: healthy(chain[j]) ==> healthy(chain[i]))
    && (forall i, j | 0 <= i < j < |chain| && healthy(chain[i]) == healthy(chain[j]) ::
          FirstAt(preferred, chain[i]) < FirstAt(preferred, chain[j]))
  }

  lemma {:induction false} FirstLiveInOrder(names: seq<string>, live: set<string>)
    ensures InOrder(FirstLive(names, live), names)
  {
    if names != [] {
      var front, last := names[..|names| - 1], names[|names| - 1];
      assert names == front + [last];
      FirstLiveInOrder(front, live);
      FirstLiveLists(front, live);
      var before := FirstLive(front, live);
      forall i | 0 <= i < |before|
        ensures FirstAt(names, before[i]) == FirstAt(front, before[i]) < |front|
      {
        assert before[i] in front;
        FirstAtFront(front, last, before[i]);
      }
      if last in live && last !in before {
        assert last !in front;
        assert FirstAt(names, last) == |front|;
      }
    }
  }

  lemma {:induction false} FilterDistinct(p: string -> bool, names: seq<string>)
    requires Distinct(names)
    ensures Distinct(Filter(p, names))
  {
    if names != [] {
      FilterDistinct(p, names[1..]);
      assert forall x | x in Filter(p, names[1..]) :: x in names[1..];
    }
  }

  lemma JoinedInOrder(up: seq<string>, down: seq<string>, places: seq<string>, healthy: string -> bool)
    requires InOrder(up, places) && InOrder(down, places)
    requires (forall n | n in up :: healthy(n)) && (forall n | n in down :: !healthy(n))
    ensures var all := up + down;
      (forall i, j | 0 <= i < j < |all| :: healthy(all[j]) ==> healthy(all[i])) &&
      (forall i, j | 0 <= i < j < |all| && healthy(all[i]) == healthy(all[j]) ::
         FirstAt(places, all[i]) < FirstAt(places, all[j]))
  {
    var all := up + down;
    forall i | 0 <= i < |all|
      ensures healthy(all[i]) == (i < |up|)
    {
      assert if i < |up| then all[i] == up[i] else all[i] == down[i - |up|];
    }
  }

  lemma ChainOf(preferred: seq<string>, live: set<string>, healthy: string -> bool)
    ensures IsChain(HealthyFirst(FirstLive(preferred, live), healthy), preferred, live, healthy)
  {
    var ordered := FirstLive(preferred, live);
    FirstLiveLists(preferred, live);
    FirstLiveInOrder(preferred, live);
    HealthyFirstParts(ordered, healthy);
    var down := n => !healthy(n);
    FilterInOrder(healthy, ordered, preferred);
    FilterInOrder(down, ordered, preferred);
    FilterDistinct(healthy, ordered);
    FilterDistinct(down, ordered);
    JoinedInOrder(Filter(healthy, ordered), Filter(down, ordered), preferred, healthy);
  }

  /** Unless the strategy comes down to FASTEST, the chain of a request holds every live provider. */
  lemma EveryProviderInChain(
    chain: seq<string>, assignments: map<string, string>, strategy: Strategy, task: string,
    quality: seq<string>, cost: seq<string>, live: set<string>, healthy: string -> bool)
    requires IsChain(chain, Preferred(assignments, strategy, task, quality, cost, live), live, healthy)
    requires (forall n | n in live :: n in quality || n in cost) && Mapped(strategy, task) != Fastest
    ensures forall n :: n in chain <==> n in live
  {
    var auto := AutoChain(Mapped(strategy, task), quality, cost);
    assert forall n | n in live :: n in auto;
  }

  /** The provider selected for the role of a request heads its chain, if it is live and healthy. */
  lemma SelectionLeads(
    chain: seq<string>, assignments: map<string, string>, strategy: Strategy, task: string,
    quality: seq<string>, cost: seq<string>, live: set<string>, healthy: string -> bool)
    requires IsChain(chain, Preferred(assignments, strategy, task, quality, cost, live), live, healthy)
    requires var role := ResolveRole(strategy, task);
      role.Some? && role.value in assignments && assignments[role.value] in live && healthy(assignments[role.value])
    ensures chain != [] && chain[0] == assignments[ResolveRole(strategy, task).value]
  {
    var preferred := Preferred(assignments, strategy, task, quality, cost, live);
    var p := assignments[ResolveRole(strategy, task).value];
    assert preferred[0] == p;
    assert p in chain;
    var i :| 0 <= i < |chain| && chain[i] == p;
    assert FirstAt(preferred, p) == 0;
  }

  /** Without a live selection for the role, a live and healthy default selection heads the chain. */
  lemma DefaultLeads(
    chain: seq<string>, assignments: map<string, string>, strategy: Strategy, task: string,
    quality: seq<string>, cost: seq<string>, live: set<string>, healthy: string -> bool)
    requires IsChain(chain, Preferred(assignments, strategy, task, quality, cost, live), live, healthy)
    requires var role := ResolveRole(strategy, task);
      role.Some? && role.value in assignments ==> assignments[role.value] !in live
    requires "default" in assignments && assignments["default"] in live && healthy(assignments["default"])
    ensures chain != [] && chain[0] == assignments["default"]
  {
    var preferred := Preferred(assignments, strategy, task, quality, cost, live);
    var p := assignments["default"];
    assert preferred[0] == p;
    assert p in chain;
    var i :| 0 <= i < |chain| && chain[i] == p;
    assert FirstAt(preferred, p) == 0;
  }

  lemma LaterPart(first: seq<string>, rest: seq<string>, a: string, b: string)
    requires a in first && b !in first && b in rest
    ensures FirstAt(first + rest, a) < FirstAt(first + rest, b)
  {
    var all := first + rest;
    var i, j, k := FirstAt(all, a), FirstAt(all, b), FirstAt(first, a);
    assert all[k] == a;
    assert forall m | 0 <= m < |first| :: all[m] == first[m];
  }

  /** Of two providers that were not selected and are alike in health, one of the cheap chain goes first. */
  lemma CheapFirst(
    chain: seq<string>, assignments: map<string, string>, strategy: Strategy, task: string,
    quality: seq<string>, cost: seq<string>, live: set<string>, healthy: string -> bool, i: nat, j: nat)
    requires IsChain(chain, Preferred(assignments, strategy, task, quality, cost, live), live, healthy)
    requires i < |chain| && j < |chain| && healthy(chain[i]) == healthy(chain[j])
    requires forall role | role in assignments :: chain[i] != assignments[role] && chain[j] != assignments[role]
    requires Mapped(strategy, task) == CostOptimized && chain[i] in cost && chain[j] !in cost
    ensures i < j
  {
    var selected := Selected(assignments, ResolveRole(strategy, task), live);
    InFront(selected, cost, quality, chain[i], chain[j]);
    assert chain[j] in chain;
  }

  lemma InFront(selected: seq<string>, first: seq<string>, second: seq<string>, a: string, b: string)
    requires a in first && b !in first && b in second && b !in selected
    ensures FirstAt(selected + (first + second), a) < FirstAt(selected + (first + second), b)
  {
    ConcatAssociates(selected, first, second);
    LaterPart(selected + first, second, a, b);
  }

  /** For quality, and where no strategy is given, one of the quality chain does. */
  lemma GoodFirst(
    chain: seq<string>, assignments: map<string, string>, strategy: Strategy, task: string,
    quality: seq<string>, cost: seq<string>, live: set<string>, healthy: string -> bool, i: nat, j: nat)
    requires IsChain(chain, Preferred(assignments, strategy, task, quality, cost, live), live, healthy)
    requires i < |chain| && j < |chain| && healthy(chain[i]) == healthy(chain[j])
    requires forall role | role in assignments :: chain[i] != assignments[role] && chain[j] != assignments[role]
    requires Mapped(strategy, task) in {QualityFirst, TaskBased} && chain[i] in quality && chain[j] !in quality
    ensures i < j
  {
    var selected := Selected(assignments, ResolveRole(strategy, task), live);
    InFront(selected, quality, cost, chain[i], chain[j]);
    assert chain[j] in chain;
  }

  /** For speed, only the cheap chain and what was selected are asked. */
  lemma FastIsCheap(
    chain: seq<string>, assignments: map<string, string>, strategy: Strategy, task: string,
    quality: seq<string>, cost: seq<string>, live: set<string>, healthy: string -> bool)
    requires IsChain(chain, Preferred(assignments, strategy, task, quality, cost, live), live, healthy)
    requires Mapped(strategy, task) == Fastest
    ensures forall n | n in cost && n in live :: n in chain
    ensures forall n | n in chain :: n in cost || exists role :: role in assignments && n == assignments[role]
  {
    SelectedAreAssigned(assignments, ResolveRole(strategy, task), live);
  }

  lemma SelectedAreAssigned(assignments: map<string, string>, role: Option<string>, live: set<string>)
    ensures forall n | n in Selected(assignments, role, live) ::
      n in live && exists r :: r in assignments && n == assignments[r]
  {
  }

  lemma {:induction false} LowerAllAt(s: string)
    ensures |LowerAll(s)| == |s|
    ensures forall i | 0 <= i < |s| :: LowerAll(s)[i] == if 'A' <= s[i] <= 'Z' then s[i] + ' ' else s[i]
  {
    if s != "" {
      LowerAllAt(s[1..]);
    }
  }

  /** What a task asks for when no strategy is given. */
  lemma TaskStrategies(task: string)
    ensures var t := LowerAll(task);
      Mapped(TaskBased, task) ==
        if t in ["edit", "refactor", "review"] then QualityFirst
        else if t in ["scan", "index", "embed"] then CostOptimized
        else if t in ["summary", "chat"] then Fastest
        else if task == "" then TaskBased
        else QualityFirst
    ensures forall strategy: Strategy | !strategy.TaskBased? :: Mapped(strategy, task) == strategy
  {
    LowerAllAt(task);
  }

  /** The role of a request: the task if it names one, in any spelling, else that of the strategy. */
  lemma RolesOfTasks(strategy: Strategy, task: string, t: string)
    requires Strips(LowerAll(task), t)
    ensures task != "" && t in VALID_ROLES ==> ResolveRole(strategy, task) == Some(t)
    ensures task == "" || t !in VALID_ROLES ==> (
      ResolveRole(strategy, task) ==
      match strategy
      case QualityFirst => Some("quality")
      case CostOptimized => Some("cost")
      case Fastest => Some("fastest")
      case TaskBased =>
        if LowerAll(task) == "refactor" then Some("quality")
        else if LowerAll(task) in ["index", "embed"] then Some("cost")
        else None)
  {
    StripsExactly(LowerAll(task), t);
    LowerAllAt(task);
    if LowerAll(task) in VALID_ROLES {
      RolesAreWords(LowerAll(task));
      NothingToStrip(LowerAll(task));
    } else {
      OtherHints(LowerAll(task));
    }
  }

  lemma RolesAreWords(role: string)
    requires role in VALID_ROLES
    ensures role != "" && !IsSpace(role[0]) && !IsSpace(role[|role| - 1])
  {
  }

  lemma OtherHints(task: string)
    requires task !in VALID_ROLES
    ensures task in TASK_HINTS <==> task in ["refactor", "index", "embed"]
    ensures task in TASK_HINTS ==> TASK_HINTS[task] == if task == "refactor" then QualityFirst else CostOptimized
  {
  }

  // ------------------------------------------------------------ choosing among several answers

  function StrippedLength(response: Response): nat {
    |Strip(response.content)|
  }

  /** The length of an answer without the whitespace around it. */
  lemma StrippedLengthIs(response: Response, t: string)
    requires Strips(response.content, t)
    ensures StrippedLength(response) == |t|
  {
    StripsExactly(response.content, t);
  }

  /** `_default_best_of_selector` */
  method DefaultBestOfSelector(successes: seq<(string, Response)>) returns (best: nat)
    requires successes != []
    ensures best < |successes|
    ensures forall i | 0 <= i < |successes| :: StrippedLength(successes[i].1) <= StrippedLength(successes[best].1)
    ensures forall i | 0 <= i < best :: StrippedLength(successes[i].1) < StrippedLength(successes[best].1)
  {
    best := 0;
    var bestLen: int := -1;
    for i := 0 to |successes|
      invariant best < |successes| && (i == 0 ==> best == 0 && bestLen == -1)
      invariant i > 0 ==> best < i && bestLen == StrippedLength(successes[best].1)
      invariant forall j | 0 <= j < i :: StrippedLength(successes[j].1) <= bestLen
      invariant forall j | 0 <= j < best :: StrippedLength(successes[j].1) < bestLen
    {
      var n := StrippedLength(successes[i].1);
      if n > bestLen {
        best, bestLen := i, n;
      }
    }
  }

  // ------------------------------------------------------------ the calls of a request

  /** What one call to a provider comes to. */
  datatype Attempt = Answered(response: Option<Response>) | Raised(error: string)

  datatype Completion = NoProviders | Done(provider: string, response: Option<Response>) | AllFailed(error: string)

  /** What a race comes to: the chosen answer, or the errors of all who failed. */
  datatype Race = Won(provider: string, response: Response) | Lost(errors: seq<string>)

  /**
   How each provider answers this request, how long it takes, the strategy the calls are logged
   under, and what other requests record before the request records its `i`th call.
   */
  datatype Request = Request(
    attempt: string -> Attempt, duration: string -> real, tag: string, others: nat -> seq<CallRecord>)
  {
    function CallTo(name: string): CallRecord {
      match attempt(name)
      case Answered(response) => CallRecord(name, duration(name), response, None, tag)
      case Raised(error) => CallRecord(name, duration(name), None, Some(error), tag)
    }

    /** What is recorded while these providers are called in turn. */
    function Calls(names: seq<string>): seq<CallRecord>
      decreases |names|
    {
      if names == [] then []
      else
        var n := |names| - 1;
        Calls(names[..n]) + others(n) + [CallTo(names[n])]
    }

    /** The first provider of a chain that answers. */
    function FirstAnswer(chain: seq<string>): (k: nat)
      ensures k <= |chain| && (k < |chain| ==> attempt(chain[k]).Answered?)
      ensures forall i | 0 <= i < k :: attempt(chain[i]).Raised?
      decreases |chain|
    {
      if chain == [] || attempt(chain[0]).Answered? then 0
      else
        assert forall i | 0 < i < |chain| :: chain[i] == chain[1..][i - 1];
        1 + FirstAnswer(chain[1..])
    }
  }

  lemma CallsSnoc(request: Request, names: seq<string>, name: string)
    ensures request.Calls(names + [name]) == request.Calls(names) + request.others(|names|) + [request.CallTo(name)]
  {
    assert (names + [name])[..|names|] == names;
  }

  /**
   How a request along a chain ends: with the first answer, after exactly one failure for each
   earlier provider, or with the last error when there is none.
   */
  ghost predicate Completes(
    completion: Completion, chain: seq<string>, request: Request, before: seq<CallRecord>, after: seq<CallRecord>)
  {
    var k := request.FirstAnswer(chain);
    if chain == [] then completion == NoProviders && after == before
    else if k < |chain| then
      completion == Done(chain[k], request.attempt(chain[k]).response) &&
      after == before + request.Calls(chain[..k + 1])
    else
      completion == AllFailed(request.attempt(chain[|chain| - 1]).error) && after == before + request.Calls(chain)
  }

  /** The log after one more call of a request. */
  lemma CallsNext(request: Request, names: seq<string>, i: nat, before: seq<CallRecord>, log: seq<CallRecord>)
    requires i < |names| && log == before + request.Calls(names[..i])
    ensures log + request.others(i) + [request.CallTo(names[i])] == before + request.Calls(names[..i + 1])
  {
    assert names[..i + 1] == names[..i] + [names[i]];
    CallsSnoc(request, names[..i], names[i]);
    ConcatAssociates(before, request.Calls(names[..i]), request.others(i));
    ConcatAssociates(before, request.Calls(names[..i]) + request.others(i), [request.CallTo(names[i])]);
  }

  function StatsIn(stats: map<string, ProviderStats>, name: string): ProviderStats {
    if name in stats then stats[name] else NO_CALLS
  }

  /** The aggregates of every provider are those of its calls in the log. */
  ghost predicate StatsHold(stats: map<string, ProviderStats>, log: seq<CallRecord>) {
    forall name :: StatsIn(stats, name) == StatsOf(CallsTo(log, name))
  }

  lemma OneMoreCall(log: seq<CallRecord>, call: CallRecord, name: string)
    ensures CallsTo(log + [call], name) ==
      if name == call.provider then CallsTo(log, name) + [call] else CallsTo(log, name)
    ensures name == call.provider ==> StatsOf(CallsTo(log + [call], name)) == StatsOf(CallsTo(log, name)).After(call)
  {
    assert (log + [call])[..|log|] == log;
    var calls := CallsTo(log, name) + [call];
    assert calls[..|calls| - 1] == CallsTo(log, name);
  }

  lemma StatsHoldAfter(stats: map<string, ProviderStats>, log: seq<CallRecord>, call: CallRecord)
    requires StatsHold(stats, log)
    ensures StatsHold(stats[call.provider := StatsIn(stats, call.provider).After(call)], log + [call])
  {
    var grown := stats[call.provider := StatsIn(stats, call.provider).After(call)];
    forall name
      ensures StatsIn(grown, name) == StatsOf(CallsTo(log + [call], name))
    {
      OneMoreCall(log, call, name);
      assert StatsIn(stats, name) == StatsOf(CallsTo(log, name));
    }
  }

  /**
   The call a request answers with counts as a success if and only if it brought a response: an
   answer without one is handed on, but counted as a failure.
   */
  lemma AnswerCounts(log: seq<CallRecord>, request: Request, name: string)
    requires request.attempt(name).Answered?
    ensures var before, after := StatsOf(CallsTo(log, name)), StatsOf(CallsTo(log + [request.CallTo(name)], name));
      && after.total == before.total + 1
      && (after.successes == before.successes + 1 <==> request.attempt(name).response.Some?)
      && (after.failures == before.failures + 1 <==> request.attempt(name).response.None?)
  {
    OneMoreCall(log, request.CallTo(name), name);
  }

  /** Such a request: the first provider of any chain answers with nothing, and fails in the statistics. */
  lemma EmptyAnswerIsAFailure(log: seq<CallRecord>, chain: seq<string>)
    requires chain != []
    ensures var request := Request(name => Answered(None), name => 0.0, "", i => []);
      var name := chain[request.FirstAnswer(chain)];
      name == chain[0] && request.attempt(name) == Answered(None) &&
      StatsOf(CallsTo(log + [request.CallTo(name)], name)).failures == StatsOf(CallsTo(log, name)).failures + 1
  {
    var request := Request(name => Answered(None), name => 0.0, "", i => []);
    AnswerCounts(log, request, chain[0]);
  }

  /** Names met for the first time start without calls. */
  lemma StatsHoldDefault(stats: map<string, ProviderStats>, log: seq<CallRecord>, names: set<string>)
    requires StatsHold(stats, log)
    ensures var grown := (map n | n in names :: NO_CALLS) + stats;
      StatsHold(grown, log) && grown.Keys == stats.Keys + names && forall n :: StatsIn(grown, n) == StatsIn(stats, n)
  {
  }

  /** `deque.appendleft` with a maximal length. */
  function AppendLeft(call: CallRecord, recent: seq<CallRecord>, n: nat): seq<CallRecord> {
    var grown := [call] + recent;
    if |grown| > n then grown[..n] else grown
  }

  lemma LatestAfter(recent: seq<CallRecord>, log: seq<CallRecord>, call: CallRecord, n: nat)
    requires IsLatest(recent, log, n)
    ensures IsLatest(AppendLeft(call, recent, n), log + [call], n)
  {
  }

  // ------------------------------------------------------------ the registry

  function GroupOf(c: Config): string {
    LowerAll(if c.group.None? || c.group.value == "" then "balanced" else c.group.value)
  }

  /** The usable providers that are in no other group than these. */
  function NamesExcept(configs: seq<Config>, builds: Config -> bool, other: string): seq<string> {
    if configs == [] then []
    else
      var front, last := NamesExcept(configs[..|configs| - 1], builds, other), configs[|configs| - 1];
      if last.enabled && builds(last) && GroupOf(last) != other then front + [last.name] else front
  }

  function Usable(configs: seq<Config>, builds: Config -> bool): set<string> {
    set c | c in configs && c.enabled && builds(c) :: c.name
  }

  lemma UsableSnoc(configs: seq<Config>, builds: Config -> bool, i: nat)
    requires i < |configs|
    ensures Usable(configs[..i + 1], builds) == Usable(configs[..i], builds)
      + if configs[i].enabled && builds(configs[i]) then {configs[i].name} else {}
  {
    assert configs[..i + 1] == configs[..i] + [configs[i]];
  }

  lemma NamesSnoc(configs: seq<Config>, builds: Config -> bool, other: string, i: nat)
    requires i < |configs|
    ensures var front, c := NamesExcept(configs[..i], builds, other), configs[i];
      NamesExcept(configs[..i + 1], builds, other) ==
        if c.enabled && builds(c) && GroupOf(c) != other then front + [c.name] else front
  {
    assert configs[..i + 1][..i] == configs[..i];
  }

  /** Every usable provider is in one of the two chains. */
  lemma {:induction false} ChainsCover(configs: seq<Config>, builds: Config -> bool)
    ensures var quality, cost := NamesExcept(configs, builds, "cost"), NamesExcept(configs, builds, "quality");
      forall n :: n in Usable(configs, builds) <==> n in quality || n in cost
  {
    if configs != [] {
      var i := |configs| - 1;
      ChainsCover(configs[..i], builds);
      UsableSnoc(configs, builds, i);
      assert configs[..i + 1] == configs;
    }
  }

  function Names(configs: seq<Config>): seq<string> {
    if configs == [] then [] else Names(configs[..|configs| - 1]) + [configs[|configs| - 1].name]
  }

  /** A usable provider whose group, upper and lower case alike, is not `other`; none is as good as a third one. */
  ghost predicate Joins(c: Config, builds: Config -> bool, other: string) {
    c.enabled && builds(c) && (c.group.None? || c.group.value == "" || LowerAll(c.group.value) != other)
  }

  lemma JoinsExactly(c: Config, builds: Config -> bool, other: string)
    requires other != "balanced"
    ensures Joins(c, builds, other) <==> c.enabled && builds(c) && GroupOf(c) != other
  {
    var balanced := "balanced";
    LowerAllAt(balanced);
    assert LowerAll(balanced) == balanced;
  }

  /** A chain holds the usable providers that are not of the other chain's group. */
  lemma {:induction false} ChainExactly(configs: seq<Config>, builds: Config -> bool, other: string, n: string)
    requires other != "balanced"
    ensures n in NamesExcept(configs, builds, other)
      <==> exists c :: c in configs && c.name == n && Joins(c, builds, other)
  {
    if configs != [] {
      var front, last := configs[..|configs| - 1], configs[|configs| - 1];
      assert configs == front + [last] && last in configs;
      ChainExactly(front, builds, other, n);
      JoinsExactly(last, builds, other);
    }
  }

  /** It lists them in the order of the registry. */
  lemma {:induction false} ChainInOrder(configs: seq<Config>, builds: Config -> bool, other: string)
    ensures Distinct(Names(configs)) ==> InOrder(NamesExcept(configs, builds, other), Names(configs))
  {
    if configs != [] {
      var front, last := configs[..|configs| - 1], configs[|configs| - 1];
      assert configs == front + [last];
      if Distinct(Names(configs)) {
        DistinctFront(Names(front), last.name);
      }
      ChainInOrder(front, builds, other);
      NamesListed(front, builds, other);
      OrderKept(front, last, builds, other);
    }
  }

  lemma OrderKept(front: seq<Config>, last: Config, builds: Config -> bool, other: string)
    requires Distinct(Names(front)) ==> InOrder(NamesExcept(front, builds, other), Names(front))
    requires forall n | n in NamesExcept(front, builds, other) :: n in Names(front)
    ensures Distinct(Names(front + [last])) ==>
      InOrder(NamesExcept(front + [last], builds, other), Names(front + [last]))
  {
    assert (front + [last])[..|front|] == front;
    var chain := NamesExcept(front, builds, other);
    if Distinct(Names(front + [last])) {
      DistinctFront(Names(front), last.name);
      InOrderMore(chain, Names(front), last.name);
      InOrderSnoc(chain, Names(front), last.name);
    }
  }

  lemma DistinctFront(front: seq<string>, last: string)
    requires Distinct(front + [last])
    ensures Distinct(front) && last !in front
  {
    var all := front + [last];
    assert all[|front|] == last;
    assert forall i | 0 <= i < |front| :: all[i] == front[i];
  }

  lemma {:induction false} NamesListed(configs: seq<Config>, builds: Config -> bool, other: string)
    ensures forall n | n in NamesExcept(configs, builds, other) :: n in Names(configs)
  {
    if configs != [] {
      NamesListed(configs[..|configs| - 1], builds, other);
    }
  }

  class Router {
    var providers: set<string>
    var qualityChain: seq<string>
    var costChain: seq<string>
    var stats: map<string, ProviderStats>
    var recentCalls: seq<CallRecord>
    const recentSize: nat
    /** Every call ever recorded. */
    ghost var log: seq<CallRecord>

    ghost predicate Valid()
      reads this
    {
      && (forall n :: n in providers <==> n in qualityChain || n in costChain)
      && providers <= stats.Keys
      && StatsHold(stats, log)
      && IsLatest(recentCalls, log, recentSize)
    }

    constructor (recentSize: nat, registry: seq<Config>, builds: Config -> bool)
      ensures Valid() && log == [] && this.recentSize == recentSize
    {
      this.recentSize := recentSize;
      providers, qualityChain, costChain, stats, recentCalls, log := {}, [], [], map[], [], [];
      new;
      Reload(registry, builds);
    }

    /** `_reload_from_registry`: the chains are rebuilt, the aggregates are kept. */
    method Reload(registry: seq<Config>, builds: Config -> bool)
      requires StatsHold(stats, log) && IsLatest(recentCalls, log, recentSize)
      modifies this`providers, this`qualityChain, this`costChain, this`stats
      ensures Valid()
      ensures Usable(registry, builds) != {} ==>
        providers == Usable(registry, builds)
        && qualityChain == NamesExcept(registry, builds, "cost")
        && costChain == NamesExcept(registry, builds, "quality")
      ensures Usable(registry, builds) == {} ==>
        providers == {"default"} && qualityChain == costChain == ["default"]
      ensures stats.Keys == old(stats.Keys) + providers && forall n :: StatsIn(stats, n) == StatsIn(old(stats), n)
    {
      providers, qualityChain, costChain := ReadRegistry(registry, builds);
      assert qualityChain != [] ==> qualityChain[0] in providers;
      assert costChain != [] ==> costChain[0] in providers;
      if providers == {} {
        providers, qualityChain, costChain := {"default"}, qualityChain + ["default"], costChain + ["default"];
      }
      StatsHoldDefault(stats, log, providers);
      stats := (map n | n in providers :: NO_CALLS) + stats;
    }

    static method ReadRegistry(registry: seq<Config>, builds: Config -> bool)
      returns (providers: set<string>, quality: seq<string>, cost: seq<string>)
      ensures providers == Usable(registry, builds)
      ensures quality == NamesExcept(registry, builds, "cost") && cost == NamesExcept(registry, builds, "quality")
      ensures forall n :: n in providers <==> n in quality || n in cost
    {
      providers, quality, cost := {}, [], [];
      for i := 0 to |registry|
        invariant providers == Usable(registry[..i], builds)
        invariant quality == NamesExcept(registry[..i], builds, "cost")
        invariant cost == NamesExcept(registry[..i], builds, "quality")
      {
        UsableSnoc(registry, builds, i);
        NamesSnoc(registry, builds, "cost", i);
        NamesSnoc(registry, builds, "quality", i);
        var cfg := registry[i];
        if !cfg.enabled || !builds(cfg) {
          continue;
        }
        providers := providers + {cfg.name};
        var group := GroupOf(cfg);
        if group == "quality" {
          quality := quality + [cfg.name];
        } else if group == "cost" {
          cost := cost + [cfg.name];
        } else {
          quality, cost := quality + [cfg.name], cost + [cfg.name];
        }
      }
      assert registry[..|registry|] == registry;
      ChainsCover(registry, builds);
    }

    /** `_record` */
    method Record(name: string, duration: real, response: Option<Response>, error: Option<string>, strategy: string)
      requires Valid()
      modifies this`stats, this`recentCalls, this`log
      ensures Valid() && log == old(log) + [CallRecord(name, duration, response, error, strategy)]
    {
      var call := CallRecord(name, duration, response, error, strategy);
      StatsHoldAfter(stats, log, call);
      LatestAfter(recentCalls, log, call, recentSize);
      stats := stats[name := StatsIn(stats, name).After(call)];
      recentCalls := AppendLeft(call, recentCalls, recentSize);
      log := log + [call];
    }

    function Healthy(): string -> bool
      reads this
    {
      var known := stats;
      name => StatsIn(known, name).Healthy()
    }

    function Preference(assignments: map<string, string>, strategy: Strategy, task: string): seq<string>
      reads this
    {
      Preferred(assignments, strategy, task, qualityChain, costChain, providers)
    }

    /** `_get_provider_chain` */
    function ChainFor(assignments: map<string, string>, strategy: Strategy, task: string): seq<string>
      reads this
    {
      HealthyFirst(FirstLive(Preference(assignments, strategy, task), providers), Healthy())
    }

    method GetProviderChain(assignments: map<string, string>, strategy: Strategy, task: string)
      returns (chain: seq<string>)
      requires Valid()
      ensures chain == ChainFor(assignments, strategy, task)
      ensures IsChain(chain, Preference(assignments, strategy, task), providers, Healthy())
      ensures Mapped(strategy, task) != Fastest ==> forall n :: n in chain <==> n in providers
    {
      var names := Preference(assignments, strategy, task);
      var ordered := KeepFirstLive(names, providers);
      chain := HealthyFirst(ordered, Healthy());
      ChainOf(names, providers, Healthy());
      if Mapped(strategy, task) != Fastest {
        EveryProviderInChain(chain, assignments, strategy, task, qualityChain, costChain, providers, Healthy());
      }
    }

    /** What other requests record in the meantime. */
    method RecordOthers(calls: seq<CallRecord>)
      requires Valid()
      modifies this`stats, this`recentCalls, this`log
      ensures Valid() && log == old(log) + calls
    {
      for i := 0 to |calls|
        invariant Valid() && log == old(log) + calls[..i]
      {
        assert calls[..i + 1] == calls[..i] + [calls[i]];
        var call := calls[i];
        Record(call.provider, call.duration, call.response, call.error, call.strategy);
      }
      assert calls[..|calls|] == calls;
    }

    /** One call of a request, recorded after what others record first. */
    method RecordCall(request: Request, i: nat, name: string)
      requires Valid()
      modifies this`stats, this`recentCalls, this`log
      ensures Valid() && log == old(log) + request.others(i) + [request.CallTo(name)]
    {
      RecordOthers(request.others(i));
      match request.attempt(name)
      case Answered(response) => Record(name, request.duration(name), response, None, request.tag);
      case Raised(error) => Record(name, request.duration(name), None, Some(error), request.tag);
    }

    /** The loop of `complete`: providers are called in order until one answers, and each call is recorded. */
    method CallInOrder(chain: seq<string>, request: Request) returns (completion: Completion)
      requires Valid() && chain != []
      modifies this`stats, this`recentCalls, this`log
      ensures Valid() && Completes(completion, chain, request, old(log), log)
    {
      var lastError := "";
      for i := 0 to |chain|
        invariant Valid() && i <= request.FirstAnswer(chain)
        invariant log == old(log) + request.Calls(chain[..i])
        invariant i > 0 ==> Raised(lastError) == request.attempt(chain[i - 1])
      {
        var name := chain[i];
        CallsNext(request, chain, i, old(log), log);
        RecordCall(request, i, name);
        match request.attempt(name) {
          case Answered(response) =>
            return Done(name, response);
          case Raised(error) =>
            lastError := error;
        }
      }
      assert chain[..|chain|] == chain;
      return AllFailed(lastError);
    }

    /** `complete`, one answer at a time. */
    method Complete(assignments: map<string, string>, strategy: Strategy, task: string, request: Request)
      returns (completion: Completion)
      requires Valid()
      modifies this`stats, this`recentCalls, this`log
      ensures Valid() && Completes(completion, old(ChainFor(assignments, strategy, task)), request, old(log), log)
    {
      var chain := GetProviderChain(assignments, strategy, task);
      if chain == [] {
        return NoProviders;
      }
      completion := CallInOrder(chain, request);
    }

    /** The calls of a race, recorded in the order in which they complete. */
    method RecordAll(names: seq<string>, request: Request)
      requires Valid()
      modifies this`stats, this`recentCalls, this`log
      ensures Valid() && log == old(log) + request.Calls(names)
    {
      for i := 0 to |names|
        invariant Valid() && log == old(log) + request.Calls(names[..i])
      {
        CallsNext(request, names, i, old(log), log);
        RecordCall(request, i, names[i]);
      }
      assert names[..|names|] == names;
    }

    /** The providers that race: the first `n` of the chain. */
    method Candidates(chain: seq<string>, n: nat) returns (names: seq<string>)
      requires n > 1 && Distinct(chain) && forall name | name in chain :: name in providers
      ensures names == First(chain, n)
    {
      names := [];
      for i := 0 to |chain|
        invariant i < n && names == chain[..i]
      {
        if chain[i] in names || chain[i] !in providers {
          continue;
        }
        names := names + [chain[i]];
        assert names == chain[..i + 1];
        if |names| >= n {
          return;
        }
      }
    }

    /**
     `_run_best_of_n`: the first `n` providers of the chain race, `completed` is the order in which
     they finish, and `select` chooses among the answers in chain order.
     */
    method RunBestOfN(
      chain: seq<string>, n: nat, request: Request, completed: seq<string>,
      select: Option<seq<(string, Response)> -> int>)
      returns (race: Race)
      requires Valid() && n > 1 && Distinct(chain) && forall name | name in chain :: name in providers
      requires multiset(completed) == multiset(First(chain, n))
      modifies this`stats, this`recentCalls, this`log
      ensures Valid() && log == old(log) + request.Calls(completed)
      ensures var answers := Answers(First(chain, n), request);
        if answers == [] then race == Lost(Errors(First(chain, n), request))
        else race.Won? && IsWinner((race.provider, race.response), answers, select)
    {
      var names := Candidates(chain, n);
      RecordAll(completed, request);
      var answers := Answers(names, request);
      if answers == [] {
        return Lost(Errors(names, request));
      }
      var idx: int;
      if select.Some? {
        idx := select.value(answers);
      } else {
        idx := DefaultBestOfSelector(answers);
      }
      idx := Clamp(idx, |answers| - 1);
      return Won(answers[idx].0, answers[idx].1);
    }
  }

  /** `max(0, min(idx, last))` */
  function Clamp(idx: int, last: nat): (r: nat)
    ensures if idx < 0 then r == 0 else if idx > last then r == last else r == idx
  {
    var low := if idx < last then idx else last;
    if low > 0 then low else 0
  }

  /** The winner of a race is the answer that was selected, or by default the first of the longest. */
  ghost predicate IsWinner(
    winner: (string, Response), answers: seq<(string, Response)>, select: Option<seq<(string, Response)> -> int>)
  {
    answers != [] &&
    match select
    case Some(f) => winner == answers[Clamp(f(answers), |answers| - 1)]
    case None =>
      exists best | 0 <= best < |answers| ::
        && answers[best] == winner
        && (forall i | 0 <= i < |answers| :: StrippedLength(answers[i].1) <= StrippedLength(winner.1))
        && (forall i | 0 <= i < best :: StrippedLength(answers[i].1) < StrippedLength(winner.1))
  }

  function First(chain: seq<string>, n: nat): seq<string> {
    if n < |chain| then chain[..n] else chain
  }

  /** The errors these providers raise, in their order; an answer without a response raises none. */
  function Errors(names: seq<string>, request: Request): seq<string> {
    if names == [] then []
    else
      var front, attempt := Errors(names[..|names| - 1], request), request.attempt(names[|names| - 1]);
      if attempt.Raised? then front + [attempt.error] else front
  }

  /** The answers of these providers, in their order. */
  function Answers(names: seq<string>, request: Request): seq<(string, Response)> {
    if names == [] then []
    else
      var front, name := Answers(names[..|names| - 1], request), names[|names| - 1];
      var attempt := request.attempt(name);
      if attempt.Answered? && attempt.response.Some? then front + [(name, attempt.response.value)] else front
  }

  /** The answers of a race: whose call brought a response, with that response, in chain order. */
  lemma {:induction false} AnswersInOrder(names: seq<string>, request: Request)
    requires Distinct(names)
    ensures var answers := Answers(names, request);
      && (forall n, r :: (n, r) in answers <==> n in names && request.attempt(n) == Answered(Some(r)))
      && (forall i, j | 0 <= i < j < |answers| :: FirstAt(names, answers[i].0) < FirstAt(names, answers[j].0))
  {
    if names != [] {
      var n := |names| - 1;
      var front, last, before := names[..n], names[n], Answers(names[..n], request);
      assert names == front + [last];
      AnswersInOrder(front, request);
      FirstAtFront(front, last, last);
      forall i | 0 <= i < |before|
        ensures FirstAt(names, before[i].0) == FirstAt(front, before[i].0) < n
      {
        assert (before[i].0, before[i].1) in before;
        FirstAtFront(front, last, before[i].0);
      }
    }
  }

  /** The errors of a race are those raised at `places`, all the places where one was raised, in chain order. */
  lemma {:induction false} ErrorsInOrder(names: seq<string>, request: Request) returns (places: seq<nat>)
    ensures var errors := Errors(names, request);
      && |errors| == |places| && (forall j, k | 0 <= j < k < |places| :: places[j] < places[k])
      && (forall k | 0 <= k < |places| ::
        places[k] < |names| && request.attempt(names[places[k]]) == Raised(errors[k]))
      && (forall i | 0 <= i < |names| && request.attempt(names[i]).Raised? :: i in places)
  {
    if names == [] {
      places := [];
    } else {
      var n := |names| - 1;
      places := ErrorsInOrder(names[..n], request);
      if request.attempt(names[n]).Raised? {
        places := places + [n];
      }
    }
  }

  /** A race has an answer to choose exactly when one of its calls brought a response. */
  lemma {:induction false} AnswersExactly(names: seq<string>, request: Request)
    ensures Answers(names, request) != []
      <==> exists i :: 0 <= i < |names| && request.CallTo(names[i]).response.Some?
  {
    if names != [] {
      var n := |names| - 1;
      AnswersExactly(names[..n], request);
      if exists i :: 0 <= i < n && request.CallTo(names[..n][i]).response.Some? {
        var i :| 0 <= i < n && request.CallTo(names[..n][i]).response.Some?;
        assert request.CallTo(names[i]).response.Some?;
      } else if request.CallTo(names[n]).response.None? {
        assert forall i | 0 <= i < n :: names[i] == names[..n][i];
      }
    }
  }
}
