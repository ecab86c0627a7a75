/** What a connection records of its queries: totals that are sums over the finished queries, and
    queries that hold exactly what their own actions brought. */
module QueryHistory {
  import opened Common
  import opened Order
  import opened QueryLife

  // ----- totals -----

  /** The sum of one metric over the finished queries that ended with this status. */
  function Sum(ordered: seq<QueryId>, finished: map<QueryId, Query>, status: Status, metric: QueryMetrics -> int): int
    requires forall id | id in ordered :: id in finished
    decreases |ordered|
  {
    if ordered == [] then 0
    else
      var q := finished[ordered[|ordered| - 1]];
      Sum(ordered[..|ordered| - 1], finished, status, metric) + if q.status == status then metric(q.metrics) else 0
  }

  function One(m: QueryMetrics): int { 1 }
  function Batches(m: QueryMetrics): int { m.stream.batches }
  function Rows(m: QueryMetrics): int { m.stream.rows }
  function UntilFirstBatch(m: QueryMetrics): int {
    if m.stream.untilFirstBatch.Some? then m.stream.untilFirstBatch.value else 0
  }
  function Duration(m: QueryMetrics): int { if m.duration.Some? then m.duration.value else 0 }

  ghost predicate AreSums(total: ConnectionMetrics, ordered: seq<QueryId>, finished: map<QueryId, Query>,
                          status: Status)
    requires forall id | id in ordered :: id in finished
  {
    && total.queries == Sum(ordered, finished, status, One)
    && total.batches == Sum(ordered, finished, status, Batches)
    && total.rows == Sum(ordered, finished, status, Rows)
    && total.untilFirstBatch == Sum(ordered, finished, status, UntilFirstBatch)
    && total.duration == Sum(ordered, finished, status, Duration)
  }

  lemma {:induction false} TallySums(ordered: seq<QueryId>, finished: map<QueryId, Query>, status: Status)
    requires forall id | id in ordered :: id in finished
    ensures AreSums(Tally(ordered, finished, status), ordered, finished, status)
    decreases |ordered|
  {
    if ordered != [] { TallySums(ordered[..|ordered| - 1], finished, status); }
  }

  /** For each outcome, the totals are the sums over the finished queries with that outcome, metric by
      metric. */
  lemma TotalsAreSums(c: Connection)
    requires Valid(c)
    ensures AreSums(c.successful, c.finishedOrdered, c.finished, Succeeded)
    ensures AreSums(c.cancelled, c.finishedOrdered, c.finished, Cancelled)
    ensures AreSums(c.failed, c.finishedOrdered, c.finished, Failed)
  {
    TallySums(c.finishedOrdered, c.finished, Succeeded);
    TallySums(c.finishedOrdered, c.finished, Cancelled);
    TallySums(c.finishedOrdered, c.finished, Failed);
  }

  // ----- the lists -----

  lemma {:induction false} RemovedInPlace(s: seq<QueryId>, i: nat)
    requires i < |s| && Distinct(s)
    ensures Without(s, s[i]) == s[..i] + s[i + 1..]
    decreases |s|
  {
    if i > 0 {
      assert s[0] != s[i] && Distinct(s[1..]);
      RemovedInPlace(s[1..], i - 1);
      assert s[1..][i..] == s[i + 1..];
      assert [s[0]] + (s[1..][..i - 1] + s[i + 1..]) == s[..i] + s[i + 1..];
    }
  }

  /** Queries are listed in the order in which they started, and finished ones in the order in which they
      ended: a start appends to the one list, and an end moves an id from its place to the end of the other. */
  lemma ListsKeepOrder(c: Connection, a: Action, now: Time)
    requires Valid(c)
    ensures var c' := Reduced(c, a, now);
      if a.Execute? then c'.activeOrdered == c.activeOrdered + [a.id] && c'.finishedOrdered == c.finishedOrdered
      else if Ends(a) && a.id in c.active then
        && c'.finishedOrdered == c.finishedOrdered + [a.id]
        && forall i | 0 <= i < |c.activeOrdered| && c.activeOrdered[i] == a.id ::
             c'.activeOrdered == c.activeOrdered[..i] + c.activeOrdered[i + 1..]
      else c'.activeOrdered == c.activeOrdered && c'.finishedOrdered == c.finishedOrdered
  {
    if !a.Execute? && a.id in c.active {
      ChangedQuery(c.active[a.id], a, now);
      forall i | 0 <= i < |c.activeOrdered| && c.activeOrdered[i] == a.id
        ensures Without(c.activeOrdered, a.id) == c.activeOrdered[..i] + c.activeOrdered[i + 1..]
      {
        RemovedInPlace(c.activeOrdered, i);
      }
    }
  }

  // ----- the moments that are recorded -----

  datatype Moment =
    | Prepared | Sent | Started | LastBatch | AllBatches | Processing | Processed | Success | Failure | Cancellation
    | Update

  /** The actions whose time is recorded as this moment. */
  predicate Marks(a: Action, k: Moment) {
    match k
    case Prepared => a.Prepare?
    case Sent => a.Send?
    case Started => a.Run?
    case LastBatch => a.ReceiveBatch?
    case AllBatches => a.ReceiveAllBatches?
    case Processing => a.ProcessResults?
    case Processed => a.ResultsProcessed?
    case Success => a.Succeed?
    case Failure => a.Fail?
    case Cancellation => a.Cancel?
    case Update => true
  }

  function MomentIn(m: QueryMetrics, k: Moment): Option<Time> {
    match k
    case Prepared => m.preparingAt
    case Sent => m.sendingAt
    case Started => m.runningAt
    case LastBatch => m.lastBatchAt
    case AllBatches => m.allBatchesAt
    case Processing => m.processingAt
    case Processed => m.processedAt
    case Success => m.succeededAt
    case Failure => m.failedAt
    case Cancellation => m.cancelledAt
    case Update => m.lastUpdatedAt
  }

  /** When the last action of this kind happened. */
  function LastTime(events: seq<Event>, k: Moment): Option<Time>
    decreases |events|
  {
    if events == [] then None
    else
      var last := events[|events| - 1];
      if Marks(last.action, k) then Some(last.now) else LastTime(events[..|events| - 1], k)
  }

  /** When the first batch was received. */
  function FirstBatchTime(events: seq<Event>): Option<Time>
    decreases |events|
  {
    if events == [] then None
    else
      var before := FirstBatchTime(events[..|events| - 1]);
      if before.Some? then before
      else if events[|events| - 1].action.ReceiveBatch? then Some(events[|events| - 1].now)
      else None
  }

  /** The stream metrics that were reported last. */
  function LastStream(events: seq<Event>): Option<StreamMetrics>
    decreases |events|
  {
    if events == [] then None
    else
      var before := LastStream(events[..|events| - 1]);
      match events[|events| - 1].action
      case ReceiveBatch(_, _, stream) => Some(stream)
      case Cancel(_, stream) => if stream.Some? then stream else before
      case Fail(_, stream) => if stream.Some? then stream else before
      case _ => before
  }

  function CountProgress(events: seq<Event>): nat
    decreases |events|
  {
    if events == [] then 0
    else CountProgress(events[..|events| - 1]) + if events[|events| - 1].action.UpdateProgress? then 1 else 0
  }

  function Actions(events: seq<Event>): seq<Action> {
    seq(|events|, i requires 0 <= i < |events| => events[i].action)
  }

  function Or<T>(a: Option<T>, b: Option<T>): Option<T> { if a.Some? then a else b }

  // ----- what a query holds -----

  /** The query started as `q0`, and holds what these actions brought. */
  ghost predicate Results(q0: Query, q: Query, events: seq<Event>) {
    && q.id == q0.id
    && q.batches == q0.batches + BatchesReceived(Actions(events))
    && q.table == Or(TableReceived(Actions(events)), q0.table)
    && q.schema == (if q0.schema.Some? then q0.schema
                    else if BatchesReceived(Actions(events)) == [] then None
                    else Some(BatchesReceived(Actions(events))[0].schema))
  }

  ghost predicate Moments(q0: Query, q: Query, events: seq<Event>) {
    && (forall k :: MomentIn(q.metrics, k) == Or(LastTime(events, k), MomentIn(q0.metrics, k)))
    && q.metrics.firstBatchAt == Or(q0.metrics.firstBatchAt, FirstBatchTime(events))
    && q.metrics.progressUpdates == q0.metrics.progressUpdates + CountProgress(events)
    && q.metrics.stream == LastStream(events).GetOr(q0.metrics.stream)
  }

  lemma ActionsWith(events: seq<Event>, e: Event)
    ensures Actions(events + [e]) == Actions(events) + [e.action]
  {
  }

  lemma ResultsWith(q0: Query, q: Query, events: seq<Event>, e: Event)
    requires Results(q0, q, events) && !e.action.Execute?
    ensures Results(q0, Changed(q, e.action, e.now), events + [e])
  {
    ActionsWith(events, e);
    OneMoreReceived(Actions(events), e.action);
    var before := BatchesReceived(Actions(events));
    if e.action.ReceiveBatch? {
      assert q0.batches + before + [e.action.batch] == q0.batches + (before + [e.action.batch]);
    }
    assert before + [] == before;
  }

  /** An action sets the moments it marks to its time, and no others. */
  lemma ActionsMarkMoments(q: Query, a: Action, now: Time, k: Moment)
    requires !a.Execute?
    ensures MomentIn(Changed(q, a, now).metrics, k) == if Marks(a, k) then Some(now) else MomentIn(q.metrics, k)
  {
  }

  lemma OneMoreEvent(events: seq<Event>, e: Event)
    ensures forall k :: LastTime(events + [e], k) == if Marks(e.action, k) then Some(e.now) else LastTime(events, k)
    ensures FirstBatchTime(events + [e])
         == Or(FirstBatchTime(events), if e.action.ReceiveBatch? then Some(e.now) else None)
    ensures CountProgress(events + [e]) == CountProgress(events) + if e.action.UpdateProgress? then 1 else 0
  {
    assert (events + [e])[..|events|] == events;
  }

  lemma OneMoreStream(events: seq<Event>, e: Event)
    ensures LastStream(events + [e])
         == Or(match e.action
               case ReceiveBatch(_, _, stream) => Some(stream)
               case Cancel(_, stream) => stream
               case Fail(_, stream) => stream
               case _ => None,
               LastStream(events))
  {
    assert (events + [e])[..|events|] == events;
  }

  lemma MomentsWith(q0: Query, q: Query, events: seq<Event>, e: Event)
    requires Moments(q0, q, events) && !e.action.Execute?
    ensures Moments(q0, Changed(q, e.action, e.now), events + [e])
  {
    OneMoreEvent(events, e);
    OneMoreStream(events, e);
    forall k ensures MomentIn(Changed(q, e.action, e.now).metrics, k)
                  == Or(LastTime(events + [e], k), MomentIn(q0.metrics, k)) {
      ActionsMarkMoments(q, e.action, e.now, k);
      assert MomentIn(q.metrics, k) == Or(LastTime(events, k), MomentIn(q0.metrics, k));
    }
  }

  // ----- over runs -----

  /** The events of a query, up to the one that ends it. */
  function OwnEvents(run: seq<Event>, id: QueryId): seq<Event>
    decreases |run|
  {
    if run == [] then []
    else if run[0].action.id != id then OwnEvents(run[1..], id)
    else if Ends(run[0].action) then [run[0]]
    else [run[0]] + OwnEvents(run[1..], id)
  }

  ghost predicate Knows(c: Connection, id: QueryId) { id in c.active || id in c.finished }

  function QueryOf(c: Connection, id: QueryId): Query
    requires id in c.active || id in c.finished
  {
    if id in c.active then c.active[id] else c.finished[id]
  }

  /** The query holds exactly what its events brought. */
  ghost predicate Holds(q0: Query, q: Query, events: seq<Event>) { Results(q0, q, events) && Moments(q0, q, events) }

  lemma StartHolds(q0: Query)
    ensures Holds(q0, q0, [])
  {
    assert Actions([]) == [];
    assert q0.batches + [] == q0.batches;
  }

  lemma OwnActionHolds(c: Connection, e: Event, q0: Query, done: seq<Event>)
    requires QueriesAgree(c.active, c.finished) && !e.action.Execute? && e.action.id in c.active
    requires Holds(q0, c.active[e.action.id], done)
    ensures var c' := Reduced(c, e.action, e.now);
      && Knows(c', e.action.id) && (e.action.id in c'.active <==> !Ends(e.action))
      && Holds(q0, QueryOf(c', e.action.id), done + [e])
  {
    var q := c.active[e.action.id];
    ChangedQuery(q, e.action, e.now);
    ResultsWith(q0, q, done, e);
    MomentsWith(q0, q, done, e);
  }

  lemma OtherActionKeeps(c: Connection, e: Event, id: QueryId)
    requires QueriesAgree(c.active, c.finished) && e.action.id != id && Knows(c, id)
    ensures var c' := Reduced(c, e.action, e.now);
      Knows(c', id) && QueryOf(c', id) == QueryOf(c, id) && (id in c'.active <==> id in c.active)
  {
    if e.action.id in c.active { ChangedQuery(c.active[e.action.id], e.action, e.now); }
  }

  ghost predicate HoldsIn(c: Connection, id: QueryId, q0: Query, events: seq<Event>) {
    Knows(c, id) && Holds(q0, QueryOf(c, id), events)
  }

  lemma EndedHolds(c: Connection, run: seq<Event>, id: QueryId, q0: Query, events: seq<Event>)
    requires Valid(c) && IsRun(c, run) && id in c.finished && HoldsIn(c, id, q0, events)
    ensures HoldsIn(After(c, run), id, q0, events)
  {
    FinishedStaysOnRuns(c, run, id);
    RunsAreValid(c, run);
    assert QueryOf(After(c, run), id) == QueryOf(c, id);
  }

  lemma EventsInOrder(run: seq<Event>, id: QueryId, done: seq<Event>)
    ensures run == [] ==> done + OwnEvents(run, id) == done
    ensures run != [] && run[0].action.id != id ==> done + OwnEvents(run, id) == done + OwnEvents(run[1..], id)
    ensures run != [] && run[0].action.id == id ==>
              done + OwnEvents(run, id)
              == if Ends(run[0].action) then done + [run[0]] else (done + [run[0]]) + OwnEvents(run[1..], id)
  {
    if run != [] {
      assert (done + [run[0]]) + OwnEvents(run[1..], id) == done + ([run[0]] + OwnEvents(run[1..], id));
    } else {
      assert done + [] == done;
    }
  }

  /** Whatever other queries do, an active query ends up with exactly what its own events brought: its
      batches in order, its table, and the moment of every kind of action. */
  lemma {:induction false} QueryHoldsItsEvents(c: Connection, run: seq<Event>, id: QueryId, q0: Query, done: seq<Event>)
    requires Valid(c) && IsRun(c, run) && id in c.active && HoldsIn(c, id, q0, done)
    ensures HoldsIn(After(c, run), id, q0, done + OwnEvents(run, id))
    decreases |run|
  {
    EventsInOrder(run, id, done);
    if run != [] {
      var e, next := run[0], Reduced(c, run[0].action, run[0].now);
      StepKeepsValid(c, e.action, e.now);
      if e.action.id != id {
        OtherActionKeeps(c, e, id);
        QueryHoldsItsEvents(next, run[1..], id, q0, done);
      } else {
        OwnActionHolds(c, e, q0, done);
        if Ends(e.action) {
          EndedHolds(next, run[1..], id, q0, done + [e]);
        } else {
          QueryHoldsItsEvents(next, run[1..], id, q0, done + [e]);
        }
      }
    }
  }

  /** From its start on: a query that is started and whose events are given. */
  lemma ExecutedQueryHolds(c: Connection, e: Event, run: seq<Event>)
    requires Valid(c) && e.action.Execute? && IsRun(c, [e] + run)
    ensures var c', id := After(Reduced(c, e.action, e.now), run), e.action.id;
      Knows(c', id) && Holds(e.action.initial, QueryOf(c', id), OwnEvents(run, id))
  {
    assert ([e] + run)[1..] == run;
    StepKeepsValid(c, e.action, e.now);
    StartHolds(e.action.initial);
    QueryHoldsItsEvents(Reduced(c, e.action, e.now), run, e.action.id, e.action.initial, []);
    assert [] + OwnEvents(run, e.action.id) == OwnEvents(run, e.action.id);
  }

  lemma {:induction false} FirstBringsNothing(a: Action, rest: seq<Action>)
    requires !a.ReceiveBatch? && !a.ReceiveAllBatches?
    ensures BatchesReceived([a] + rest) == BatchesReceived(rest) && TableReceived([a] + rest) == TableReceived(rest)
    decreases |rest|
  {
    if rest == [] {
      assert ([a] + rest)[..0] == [];
    } else {
      FirstBringsNothing(a, rest[..|rest| - 1]);
      assert ([a] + rest)[..|rest|] == [a] + rest[..|rest| - 1];
    }
  }

  /** When the events of a query are the actions of one execution, its batches and its table are those of
      the execution. */
  lemma ExecutionIsHeld(c: Connection, e: Event, run: seq<Event>, actions: seq<Action>)
    requires Valid(c) && e.action.Execute? && IsRun(c, [e] + run)
    requires actions == [e.action] + Actions(OwnEvents(run, e.action.id))
    ensures var c', id, q0 := After(Reduced(c, e.action, e.now), run), e.action.id, e.action.initial;
      && Knows(c', id)
      && QueryOf(c', id).batches == q0.batches + BatchesReceived(actions)
      && QueryOf(c', id).table == Or(TableReceived(actions), q0.table)
  {
    ExecutedQueryHolds(c, e, run);
    FirstBringsNothing(e.action, Actions(OwnEvents(run, e.action.id)));
  }

  /** An error is recorded, and the start time as the duration, exactly by cancelling and failing; only a
      success records the elapsed time. */
  lemma EndingIsRecorded(q: Query, a: Action, now: Time)
    requires !a.Execute?
    ensures var q' := Changed(q, a, now);
              var start := if q.metrics.runningAt.Some? then q.metrics.runningAt.value else now;
      && q'.error == (q.error || a.Cancel? || a.Fail?)
      && q'.metrics.duration == (if a.Succeed? then Some(now - start)
                                 else if a.Cancel? || a.Fail? then Some(start) else q.metrics.duration)
  {
  }

  /** Progress is kept as last reported; a query that was sending is marked as queued by it, at that time. */
  lemma ProgressIsRecorded(q: Query, a: Action, now: Time)
    requires !a.Execute?
    ensures var q' := Changed(q, a, now); var queues := a.UpdateProgress? && a.isQueued && q.status == Sending;
      && q'.latestProgress == (if a.UpdateProgress? then Some(a.isQueued) else q.latestProgress)
      && (q'.status == Queued <==> queues || (q.status == Queued && a.UpdateProgress?))
      && q'.metrics.queuedAt == (if queues then Some(now) else q.metrics.queuedAt)
  {
  }
}
