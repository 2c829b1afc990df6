/**
 The log stream (core/log_stream.py): a handler that buffers what the loggers emit, and a broker
 that fans it out to subscribers. Each method is one atomic step; the steps interleave freely.
 */
module LogStream {
  import opened Sequences

  const MAX_BUFFER := 5000
  const MAX_RECENT := 200
  const MAX_PENDING := 1000

  // ------------------------------------------------------------ bounded queues of a history

  /** The last `n` records of a history. */
  ghost predicate IsSuffix<T>(xs: seq<T>, history: seq<T>) {
    |xs| <= |history| && forall i | 0 <= i < |xs| :: xs[i] == history[|history| - |xs| + i]
  }

  /** `put_nowait`, dropping the oldest record of a full queue. */
  function Put<T>(queue: seq<T>, x: T, max: nat): seq<T>
    requires max > 0
  {
    if |queue| >= max then queue[1..] + [x] else queue + [x]
  }

  lemma PutSuffix<T>(queue: seq<T>, history: seq<T>, x: T, max: nat)
    requires IsSuffix(queue, history) && |queue| <= max && max > 0
    ensures IsSuffix(Put(queue, x, max), history + [x]) && |Put(queue, x, max)| <= max
  {
  }

  lemma TakeSuffix<T>(queue: seq<T>, history: seq<T>)
    requires IsSuffix(queue, history) && queue != []
    ensures queue[0] == history[|history| - |queue|] && IsSuffix(queue[1..], history)
  {
  }

  /** The backfill ring: the last emissions, all of them while there are few. */
  ghost predicate IsRing<T>(recent: seq<T>, emitted: seq<T>) {
    |recent| == (if |emitted| < MAX_RECENT then |emitted| else MAX_RECENT) && IsSuffix(recent, emitted)
  }

  /** The ring after one more emission: the surplus is deleted at its front. */
  function Remembered<T>(recent: seq<T>, x: T): seq<T> {
    var grown := recent + [x];
    if |grown| > MAX_RECENT then grown[|grown| - MAX_RECENT..] else grown
  }

  lemma RingAfter<T>(recent: seq<T>, emitted: seq<T>, x: T)
    requires IsRing(recent, emitted)
    ensures IsRing(Remembered(recent, x), emitted + [x])
  {
  }

  ghost predicate Increasing(xs: seq<nat>) {
    forall i, j | 0 <= i < j < |xs| :: xs[i] < xs[j]
  }

  // ------------------------------------------------------------ the handler

  class StreamLogHandler<T> {
    var queue: seq<T>
    var recent: seq<T>
    /** Everything emitted, and how many records were dropped from a full queue or taken out of it. */
    ghost var emitted: seq<T>
    ghost var dropped: nat
    ghost var taken: nat

    ghost predicate Valid()
      reads this
    {
      && |queue| <= MAX_BUFFER && IsSuffix(queue, emitted)
      && IsRing(recent, emitted)
      && taken + dropped + |queue| == |emitted|
    }

    constructor ()
      ensures Valid() && emitted == []
    {
      queue, recent, emitted, dropped, taken := [], [], [], 0, 0;
    }

    /** `emit` of a record that may fail to serialise. */
    method Emit(payload: Option<T>)
      requires Valid()
      modifies this
      ensures Valid()
      ensures emitted == if payload.Some? then old(emitted) + [payload.value] else old(emitted)
      ensures taken == old(taken)
      ensures dropped == old(dropped) + if payload.Some? && old(|queue|) == MAX_BUFFER then 1 else 0
    {
      if payload.None? {
        return;
      }
      var x := payload.value;
      PutSuffix(queue, emitted, x, MAX_BUFFER);
      RingAfter(recent, emitted, x);
      recent := Remembered(recent, x);
      if |queue| >= MAX_BUFFER {
        dropped := dropped + 1;
      }
      queue := Put(queue, x, MAX_BUFFER);
      emitted := emitted + [x];
    }

    /** `queue.get()`, once the queue holds something: the oldest record, and its place among the emissions. */
    method Get() returns (payload: T, ghost place: nat)
      requires Valid() && queue != []
      modifies this`queue, this`taken
      ensures Valid() && place == old(|emitted| - |queue|) && payload == emitted[place]
      ensures queue == old(queue[1..]) && taken == old(taken) + 1
    {
      TakeSuffix(queue, emitted);
      payload, place := queue[0], |emitted| - |queue|;
      queue, taken := queue[1..], taken + 1;
    }

    /** `recent`: the slice `[-limit:]`, which for a limit of 0 is the whole ring. */
    method Recent(limit: int) returns (records: seq<T>)
      requires Valid()
      ensures IsSuffix(records, emitted)
      ensures limit >= 1 ==> |records| == if limit < |recent| then limit else |recent|
      ensures limit == 0 ==> records == recent
      ensures limit < 0 ==> |records| == if |recent| + limit > 0 then |recent| + limit else 0
    {
      var n := |recent|;
      var start := if limit > n then 0 else if limit > 0 then n - limit else if -limit < n then -limit else n;
      records := recent[start..];
    }
  }

  // ------------------------------------------------------------ one subscriber

  /** What a subscriber has seen: when it joined, which broadcasts it received, how many it lost. */
  datatype View = View(joined: nat, received: seq<nat>, lost: nat)

  /** A subscriber's queue and view are right about what was broadcast. */
  ghost predicate FeedHolds<T>(pending: seq<T>, view: View, sent: seq<T>) {
    && |pending| <= MAX_PENDING && IsSuffix(pending, sent) && view.joined + |pending| <= |sent|
    && Increasing(view.received)
    && (forall i | 0 <= i < |view.received| :: view.joined <= view.received[i] < |sent| - |pending|)
    && |view.received| + |pending| + view.lost == |sent| - view.joined
  }

  function LostOne(view: View, full: bool): View {
    if full then view.(lost := view.lost + 1) else view
  }

  lemma PutFeed<T>(pending: seq<T>, view: View, sent: seq<T>, x: T)
    requires FeedHolds(pending, view, sent)
    ensures FeedHolds(Put(pending, x, MAX_PENDING), LostOne(view, |pending| == MAX_PENDING), sent + [x])
  {
    PutSuffix(pending, sent, x, MAX_PENDING);
  }

  function ReceivedOne(view: View, index: nat): View {
    view.(received := view.received + [index])
  }

  lemma TakeFeed<T>(pending: seq<T>, view: View, sent: seq<T>)
    requires FeedHolds(pending, view, sent) && pending != []
    ensures pending[0] == sent[|sent| - |pending|]
    ensures FeedHolds(pending[1..], ReceivedOne(view, |sent| - |pending|), sent)
  {
    TakeSuffix(pending, sent);
  }

  /** A subscriber that lost nothing has received every broadcast since it joined, in order. */
  lemma {:induction false} NothingLost<T>(pending: seq<T>, view: View, sent: seq<T>, i: nat)
    requires FeedHolds(pending, view, sent) && view.lost == 0 && i < |view.received|
    ensures view.received[i] == view.joined + i
  {
    AtLeast(view.received, view.joined, i);
    AtMost(view.received, |sent| - |pending|, i);
  }

  lemma {:induction false} AtLeast(xs: seq<nat>, low: nat, i: nat)
    requires Increasing(xs) && i < |xs| && forall k | 0 <= k < |xs| :: low <= xs[k]
    ensures xs[i] >= low + i
  {
    if i > 0 {
      AtLeast(xs, low, i - 1);
    }
  }

  lemma {:induction false} AtMost(xs: seq<nat>, high: nat, i: nat)
    requires Increasing(xs) && i < |xs| && forall k | 0 <= k < |xs| :: xs[k] < high
    ensures xs[i] + |xs| - i <= high
    decreases |xs| - i
  {
    if i < |xs| - 1 {
      AtMost(xs, high, i + 1);
    }
  }

  // ------------------------------------------------------------ the broker

  ghost predicate FeedsHold<T>(subscribers: map<nat, seq<T>>, views: map<nat, View>, sent: seq<T>) {
    subscribers.Keys <= views.Keys && forall s | s in subscribers :: FeedHolds(subscribers[s], views[s], sent)
  }

  /** Each broadcast is the emission at its place, and places increase. */
  ghost predicate Sent<T>(sent: seq<T>, places: seq<nat>, emitted: seq<T>, bound: nat) {
    && |sent| == |places| && bound <= |emitted| && Increasing(places)
    && forall i | 0 <= i < |places| :: places[i] < bound && sent[i] == emitted[places[i]]
  }

  /** The fan-out of one record: every queue gets it, a full one loses its oldest. */
  method FanOut<T>(subscribers: map<nat, seq<T>>, ghost views: map<nat, View>, ghost sent: seq<T>, payload: T)
    returns (after: map<nat, seq<T>>, ghost viewsAfter: map<nat, View>)
    requires FeedsHold(subscribers, views, sent)
    ensures after.Keys == subscribers.Keys && FeedsHold(after, viewsAfter, sent + [payload])
    ensures forall s | s in subscribers :: after[s] == Put(subscribers[s], payload, MAX_PENDING)
  {
    after, viewsAfter := subscribers, views;
    var left := subscribers.Keys;
    while left != {}
      invariant left <= subscribers.Keys == after.Keys && after.Keys <= viewsAfter.Keys
      invariant forall s | s in left :: after[s] == subscribers[s] && viewsAfter[s] == views[s]
      invariant forall s | s in subscribers && s !in left ::
        after[s] == Put(subscribers[s], payload, MAX_PENDING) && FeedHolds(after[s], viewsAfter[s], sent + [payload])
      decreases left
    {
      var s :| s in left;
      left := left - {s};
      PutFeed(subscribers[s], views[s], sent, payload);
      viewsAfter := viewsAfter[s := LostOne(views[s], |subscribers[s]| == MAX_PENDING)];
      after := after[s := Put(subscribers[s], payload, MAX_PENDING)];
    }
  }

  lemma SubscribeFeeds<T>(subscribers: map<nat, seq<T>>, views: map<nat, View>, sent: seq<T>, id: nat)
    requires FeedsHold(subscribers, views, sent)
    ensures FeedsHold(subscribers[id := []], views[id := View(|sent|, [], 0)], sent)
  {
    assert FeedHolds([], View(|sent|, [], 0), sent);
  }

  lemma UnsubscribeFeeds<T>(subscribers: map<nat, seq<T>>, views: map<nat, View>, sent: seq<T>, id: nat)
    requires FeedsHold(subscribers, views, sent)
    ensures FeedsHold(subscribers - {id}, views, sent)
  {
  }

  lemma ConsumeFeeds<T>(subscribers: map<nat, seq<T>>, views: map<nat, View>, sent: seq<T>, id: nat)
    requires FeedsHold(subscribers, views, sent) && id in subscribers && subscribers[id] != []
    ensures var pending, index := subscribers[id], |sent| - |subscribers[id]|;
      index >= 0 && pending[0] == sent[index]
      && FeedsHold(subscribers[id := pending[1..]], views[id := ReceivedOne(views[id], index)], sent)
  {
    TakeFeed(subscribers[id], views[id], sent);
  }

  /** Every subscriber was given its id. */
  ghost predicate Ids<T>(subscribers: map<nat, seq<T>>, nextId: nat) {
    forall s | s in subscribers :: s < nextId
  }

  /** The record in flight comes after all that was broadcast and before all that is queued. */
  ghost predicate Tracks<T>(
    inFlight: Option<T>, place: nat, sent: seq<T>, places: seq<nat>, emitted: seq<T>, queued: nat, taken: nat)
  {
    && queued <= |emitted|
    && taken == |sent| + (if inFlight.Some? then 1 else 0)
    && match inFlight
       case None => Sent(sent, places, emitted, |emitted| - queued)
       case Some(x) => Sent(sent, places, emitted, place) && place < |emitted| - queued && emitted[place] == x
  }

  lemma SentMore<T>(sent: seq<T>, places: seq<nat>, emitted: seq<T>, more: seq<T>, low: nat, high: nat)
    requires Sent(sent, places, emitted, low) && low <= high <= |emitted + more|
    ensures Sent(sent, places, emitted + more, high)
  {
  }

  lemma EmitTracks<T>(
    inFlight: Option<T>, place: nat, sent: seq<T>, places: seq<nat>, emitted: seq<T>, queued: nat, taken: nat, x: T,
    after: nat)
    requires Tracks(inFlight, place, sent, places, emitted, queued, taken) && after <= queued + 1
    ensures Tracks(inFlight, place, sent, places, emitted + [x], after, taken)
  {
    if inFlight.None? {
      SentMore(sent, places, emitted, [x], |emitted| - queued, |emitted| + 1 - after);
    } else {
      SentMore(sent, places, emitted, [x], place, place);
    }
  }

  lemma TakeTracks<T>(before: nat, sent: seq<T>, places: seq<nat>, emitted: seq<T>, queued: nat, taken: nat, place: nat)
    requires Tracks(None, before, sent, places, emitted, queued, taken) && 0 < queued && place == |emitted| - queued
    ensures Tracks(Some(emitted[place]), place, sent, places, emitted, queued - 1, taken + 1)
  {
  }

  lemma BroadcastTracks<T>(x: T, place: nat, sent: seq<T>, places: seq<nat>, emitted: seq<T>, queued: nat, taken: nat)
    requires Tracks(Some(x), place, sent, places, emitted, queued, taken)
    ensures Tracks(None, place, sent + [x], places + [place], emitted, queued, taken)
  {
  }

  /** Taking a record out of the handler puts it in flight. */
  method TakeTracked<T>(handler: StreamLogHandler<T>, ghost before: nat, ghost sent: seq<T>, ghost places: seq<nat>)
    returns (payload: T, ghost place: nat)
    requires handler.Valid() && handler.queue != []
    requires Tracks(None, before, sent, places, handler.emitted, |handler.queue|, handler.taken)
    modifies handler`queue, handler`taken
    ensures handler.Valid() && payload == old(handler.queue[0])
    ensures Tracks(Some(payload), place, sent, places, handler.emitted, |handler.queue|, handler.taken)
  {
    ghost var queued, taken := |handler.queue|, handler.taken;
    payload, place := handler.Get();
    TakeTracks(before, sent, places, handler.emitted, queued, taken, place);
  }

  class LogBroker<T> {
    const handler: StreamLogHandler<T>
    var subscribers: map<nat, seq<T>>
    var nextId: nat
    /** The record the pump has taken out of the queue and not yet broadcast. */
    var inFlight: Option<T>
    ghost var inFlightPlace: nat
    /** What was broadcast, where it stands among the emissions, and what each subscriber has seen. */
    ghost var sent: seq<T>
    ghost var places: seq<nat>
    ghost var views: map<nat, View>

    ghost predicate Valid()
      reads this, handler
    {
      && handler.Valid()
      && Ids(subscribers, nextId) && FeedsHold(subscribers, views, sent)
      && Tracks(inFlight, inFlightPlace, sent, places, handler.emitted, |handler.queue|, handler.taken)
    }

    constructor (handler: StreamLogHandler<T>)
      requires handler.Valid() && handler.taken == 0
      ensures Valid() && this.handler == handler && subscribers == map[] && sent == []
    {
      this.handler := handler;
      subscribers, nextId, inFlight := map[], 0, None;
      inFlightPlace, sent, places, views := 0, [], [], map[];
    }

    method Emit(payload: Option<T>)
      requires Valid()
      modifies handler
      ensures Valid()
      ensures handler.emitted == if payload.Some? then old(handler.emitted) + [payload.value] else old(handler.emitted)
    {
      ghost var emitted, queued := handler.emitted, |handler.queue|;
      handler.Emit(payload);
      if payload.Some? {
        EmitTracks(
          inFlight, inFlightPlace, sent, places, emitted, queued, handler.taken, payload.value, |handler.queue|);
      }
    }

    /** The first half of a round of `_pump`. */
    method PumpTake()
      requires Valid() && inFlight.None? && handler.queue != []
      modifies this`inFlight, this`inFlightPlace, handler`queue, handler`taken
      ensures Valid() && inFlight == Some(old(handler.queue[0]))
    {
      var payload, place := TakeTracked(handler, inFlightPlace, sent, places);
      inFlight, inFlightPlace := Some(payload), place;
    }

    /** The second half: `_broadcast`. */
    method Broadcast()
      requires Valid() && inFlight.Some?
      modifies this`inFlight, this`subscribers, this`sent, this`places, this`views
      ensures Valid() && inFlight.None? && sent == old(sent) + [old(inFlight.value)]
      ensures subscribers.Keys == old(subscribers.Keys)
      ensures forall s | s in subscribers ::
        subscribers[s] == Put(old(subscribers)[s], old(inFlight.value), MAX_PENDING)
    {
      var payload := inFlight.value;
      BroadcastTracks(payload, inFlightPlace, sent, places, handler.emitted, |handler.queue|, handler.taken);
      inFlight := None;
      subscribers, views := FanOut(subscribers, views, sent, payload);
      sent, places := sent + [payload], places + [inFlightPlace];
    }

    method Subscribe() returns (id: nat)
      requires Valid()
      modifies this`subscribers, this`nextId, this`views
      ensures Valid() && id !in old(subscribers) && subscribers == old(subscribers)[id := []]
      ensures views == old(views)[id := View(|sent|, [], 0)]
    {
      id, nextId := nextId, nextId + 1;
      SubscribeFeeds(subscribers, views, sent, id);
      subscribers, views := subscribers[id := []], views[id := View(|sent|, [], 0)];
    }

    method Unsubscribe(id: nat)
      requires Valid()
      modifies this`subscribers
      ensures Valid() && subscribers == old(subscribers) - {id}
    {
      UnsubscribeFeeds(subscribers, views, sent, id);
      subscribers := subscribers - {id};
    }

    /** A subscriber takes the oldest record of its queue. */
    method Consume(id: nat) returns (payload: T)
      requires Valid() && id in subscribers && subscribers[id] != []
      modifies this`subscribers, this`views
      ensures Valid() && subscribers == old(subscribers)[id := old(subscribers)[id][1..]]
      ensures var index := |sent| - |old(subscribers)[id]|;
        index >= 0 && payload == sent[index] && views == old(views)[id := ReceivedOne(old(views)[id], index)]
    {
      ConsumeFeeds(subscribers, views, sent, id);
      var pending := subscribers[id];
      ghost var seen := views[id := ReceivedOne(views[id], |sent| - |pending|)];
      payload, subscribers, views := pending[0], subscribers[id := pending[1..]], seen;
    }

    // ---------------------------------------------------------- what every reachable state promises

    /**
     What a subscriber has received and still has queued are emissions, in the order they were
     emitted and none twice, and together with what it lost they are all the broadcasts since it joined.
     */
    lemma InOrder(id: nat)
      requires Valid() && id in subscribers
      ensures var pending, view := subscribers[id], views[id];
        && (forall i, j | 0 <= i < j < |view.received| :: places[view.received[i]] < places[view.received[j]])
        && (forall i, j | 0 <= i < |view.received| && |sent| - |pending| <= j < |sent| ::
              places[view.received[i]] < places[j])
        && (forall j | |sent| - |pending| <= j < |sent| ::
              pending[j - (|sent| - |pending|)] == sent[j] == handler.emitted[places[j]])
        && |view.received| + |pending| + view.lost == |sent| - view.joined
    {
    }

    /** Every emission is broadcast, in flight, still queued or dropped from the full queue. */
    lemma NothingElseLost()
      requires Valid()
      ensures |sent| + (if inFlight.Some? then 1 else 0) + |handler.queue| + handler.dropped == |handler.emitted|
    {
    }
  }

  // ------------------------------------------------------------ runs

  datatype Event<T> =
    | Emitted(payload: Option<T>) | Pumped | Broadcasted | Subscribed | Unsubscribed(id: nat) | Consumed(id: nat)

  /** The records that are emitted in a run and can be serialised. */
  function EmittedIn<T>(events: seq<Event<T>>): seq<T> {
    if events == [] then []
    else
      var last := events[|events| - 1];
      EmittedIn(events[..|events| - 1])
        + if last.Emitted? && last.payload.Some? then [last.payload.value] else []
  }

  /**
   Any interleaving of the steps; a step that would block is not taken. What was emitted are the
   records of the run, in order.
   */
  method Run<T>(broker: LogBroker<T>, events: seq<Event<T>>)
    requires broker.Valid()
    modifies broker, broker.handler
    ensures broker.Valid() && broker.handler.emitted == old(broker.handler.emitted) + EmittedIn(events)
  {
    assert events[..0] == [] && broker.handler.emitted + [] == broker.handler.emitted;
    for i := 0 to |events|
      invariant broker.Valid()
      invariant broker.handler.emitted == old(broker.handler.emitted) + EmittedIn(events[..i])
    {
      assert events[..i + 1][..i] == events[..i];
      Perform(broker, events[i]);
    }
    assert events[..|events|] == events;
  }

  /** One step: what it does when it can be taken, and that it does nothing else. */
  method Perform<T>(broker: LogBroker<T>, event: Event<T>)
    requires broker.Valid()
    modifies broker, broker.handler
    ensures broker.Valid()
    ensures broker.handler.emitted == old(broker.handler.emitted) + EmittedIn([event])
    ensures broker.inFlight ==
      if event.Pumped? && old(broker.inFlight.None? && broker.handler.queue != []) then
        Some(old(broker.handler.queue[0]))
      else if event.Broadcasted? then None
      else old(broker.inFlight)
    ensures broker.sent == old(broker.sent)
      + if event.Broadcasted? && old(broker.inFlight.Some?) then [old(broker.inFlight.value)] else []
    ensures match event
      case Broadcasted => broker.subscribers.Keys == old(broker.subscribers.Keys)
      case Subscribed =>
        exists id: nat :: id !in old(broker.subscribers) && broker.subscribers == old(broker.subscribers)[id := []]
      case Unsubscribed(id) => broker.subscribers == old(broker.subscribers) - {id}
      case Consumed(id) => broker.subscribers ==
        if id in old(broker.subscribers) && old(broker.subscribers)[id] != [] then
          old(broker.subscribers)[id := old(broker.subscribers)[id][1..]]
        else old(broker.subscribers)
      case _ => broker.subscribers == old(broker.subscribers)
  {
    match event {
      case Emitted(payload) => broker.Emit(payload);
      case Pumped =>
        if broker.inFlight.None? && |broker.handler.queue| > 0 {
          broker.PumpTake();
        }
      case Broadcasted =>
        if broker.inFlight.Some? {
          broker.Broadcast();
        }
      case Subscribed => var _ := broker.Subscribe();
      case Unsubscribed(id) => broker.Unsubscribe(id);
      case Consumed(id) =>
        if id in broker.subscribers && |broker.subscribers[id]| > 0 {
          var _ := broker.Consume(id);
        }
    }
  }
}
