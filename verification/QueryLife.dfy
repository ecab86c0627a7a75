/** The life of queries on a connection: how every action changes the lists of active and finished
    queries and the counters, and the order of the actions that an execution sends. */
module QueryLife {
  import opened Common
  import opened Order

  type QueryId = nat
  type Time = nat

  datatype Status =
    | Requested | Preparing | Sending | Queued | Running | ReceivedFirstBatch | ReceivedAllBatches
    | ProcessingResults | ProcessedResults | Succeeded | Failed | Cancelled

  function Number(s: Status): nat {
    match s
    case Requested => 0 case Preparing => 1 case Sending => 2 case Queued => 3 case Running => 4
    case ReceivedFirstBatch => 5 case ReceivedAllBatches => 6 case ProcessingResults => 7
    case ProcessedResults => 8 case Succeeded => 9 case Failed => 10 case Cancelled => 11
  }

  predicate IsDone(s: Status) { s.Succeeded? || s.Failed? || s.Cancelled? }

  datatype StreamMetrics = StreamMetrics(batches: nat, rows: nat, untilFirstBatch: Option<nat>)

  datatype QueryMetrics = QueryMetrics(
    preparingAt: Option<Time>, sendingAt: Option<Time>, queuedAt: Option<Time>, runningAt: Option<Time>,
    firstBatchAt: Option<Time>, lastBatchAt: Option<Time>, allBatchesAt: Option<Time>,
    processingAt: Option<Time>, processedAt: Option<Time>,
    succeededAt: Option<Time>, failedAt: Option<Time>, cancelledAt: Option<Time>,
    lastUpdatedAt: Option<Time>, progressUpdates: nat, duration: Option<int>, stream: StreamMetrics)

  datatype Batch = Batch(schema: nat, content: nat)
  datatype Query = Query(
    id: QueryId, status: Status, metrics: QueryMetrics, latestProgress: Option<bool>,
    schema: Option<nat>, batches: seq<Batch>, table: Option<seq<Batch>>, error: bool)

  datatype ConnectionMetrics = ConnectionMetrics(queries: int, batches: int, rows: int, untilFirstBatch: int,
      duration: int)

  const NoMetrics := ConnectionMetrics(0, 0, 0, 0, 0)

  datatype Connection = Connection(
    active: map<QueryId, Query>,
    activeOrdered: seq<QueryId>,
    finished: map<QueryId, Query>,
    finishedOrdered: seq<QueryId>,
    snapshot: nat,
    successful: ConnectionMetrics,
    cancelled: ConnectionMetrics,
    failed: ConnectionMetrics)

  datatype Action =
    | Execute(id: QueryId, initial: Query)
    | Prepare(id: QueryId)
    | Send(id: QueryId)
    | Run(id: QueryId)
    | UpdateProgress(id: QueryId, isQueued: bool)
    | ReceiveBatch(id: QueryId, batch: Batch, stream: StreamMetrics)
    | ReceiveAllBatches(id: QueryId, table: seq<Batch>)
    | ProcessResults(id: QueryId)
    | ResultsProcessed(id: QueryId)
    | Succeed(id: QueryId)
    | Cancel(id: QueryId, cancelledStream: Option<StreamMetrics>)
    | Fail(id: QueryId, failedStream: Option<StreamMetrics>)

  predicate Ends(a: Action) { a.Succeed? || a.Cancel? || a.Fail? }

  // ----- what an action does to its query -----

  function Millis(t: Option<Time>, now: Time): Time { if t.Some? then t.value else now }

  /** The query after the action. Cancelled and failed queries store the start time as their duration. */
  function Changed(q: Query, a: Action, now: Time): Query {
    var m := q.metrics.(lastUpdatedAt := Some(now));
    match a
    case Execute(_, initial) => initial
    case Prepare(_) => q.(status := Preparing, metrics := m.(preparingAt := Some(now)))
    case Send(_) => q.(status := Sending, metrics := m.(sendingAt := Some(now)))
    case Run(_) => q.(status := Running, metrics := m.(runningAt := Some(now)))
    case UpdateProgress(_, isQueued) =>
      var m' := m.(progressUpdates := m.progressUpdates + 1);
      if isQueued && q.status == Sending
      then q.(status := Queued, latestProgress := Some(isQueued), metrics := m'.(queuedAt := Some(now)))
      else q.(latestProgress := Some(isQueued), metrics := m')
    case ReceiveBatch(_, batch, stream) =>
      q.(status := ReceivedFirstBatch,
         batches := q.batches + [batch],
         schema := if q.schema.None? then Some(batch.schema) else q.schema,
         metrics := m.(firstBatchAt := if m.firstBatchAt.None? then Some(now) else m.firstBatchAt,
                       lastBatchAt := Some(now),
                       stream := stream))
    case ReceiveAllBatches(_, table) =>
      q.(status := ReceivedAllBatches, table := Some(table), metrics := m.(allBatchesAt := Some(now)))
    case ProcessResults(_) => q.(status := ProcessingResults, metrics := m.(processingAt := Some(now)))
    case ResultsProcessed(_) => q.(status := ProcessedResults, metrics := m.(processedAt := Some(now)))
    case Succeed(_) =>
      q.(status := Succeeded, metrics := m.(succeededAt := Some(now), duration := Some(now - Millis(m.runningAt, now))))
    case Cancel(_, stream) =>
      q.(status := Cancelled, error := true,
         metrics := m.(cancelledAt := Some(now), duration := Some(Millis(m.runningAt, now)),
             stream := stream.GetOr(m.stream)))
    case Fail(_, stream) =>
      q.(status := Failed, error := true,
         metrics := m.(failedAt := Some(now), duration := Some(Millis(m.runningAt, now)),
             stream := stream.GetOr(m.stream)))
  }

  function MergedMetrics(c: ConnectionMetrics, q: QueryMetrics): ConnectionMetrics {
    ConnectionMetrics(
      c.queries + 1,
      c.batches + q.stream.batches,
      c.rows + q.stream.rows,
      c.untilFirstBatch + q.stream.untilFirstBatch.GetOr(0),
      c.duration + q.duration.GetOr(0))
  }

  // ----- the reducer -----

  /** The list without the first occurrence of a value. */
  function Without(s: seq<QueryId>, id: QueryId): seq<QueryId> {
    if s == [] then [] else if s[0] == id then s[1..] else [s[0]] + Without(s[1..], id)
  }

  method RemoveFromArray(s: seq<QueryId>, id: QueryId) returns (r: seq<QueryId>)
    ensures r == Without(s, id)
  {
    var index := 0;
    while index < |s| && s[index] != id
      invariant 0 <= index <= |s|
      invariant s[..index] + Without(s[index..], id) == Without(s, id)
    {
      assert s[index..][1..] == s[index + 1..];
      index := index + 1;
    }
    r := if index < |s| then s[..index] + s[index + 1..] else s;
    assert index < |s| ==> s[index..][1..] == s[index + 1..];
  }

  function Started(c: Connection, id: QueryId, q: Query): Connection {
    c.(active := c.active[id := q], activeOrdered := c.activeOrdered + [id], snapshot := c.snapshot + 1)
  }

  function Ended(c: Connection, q: Query): Connection {
    c.(active := c.active - {q.id},
       activeOrdered := Without(c.activeOrdered, q.id),
       finished := c.finished[q.id := q],
       finishedOrdered := c.finishedOrdered + [q.id],
       snapshot := c.snapshot + 1,
       successful := if q.status.Succeeded? then MergedMetrics(c.successful, q.metrics) else c.successful,
       cancelled := if q.status.Cancelled? then MergedMetrics(c.cancelled, q.metrics) else c.cancelled,
       failed := if q.status.Failed? then MergedMetrics(c.failed, q.metrics) else c.failed)
  }

  function Reduced(c: Connection, a: Action, now: Time): Connection {
    if a.Execute? then Started(c, a.id, a.initial)
    else if a.id !in c.active then c
    else Moved(c, Changed(c.active[a.id], a, now), Ends(a))
  }

  function Moved(c: Connection, q: Query, ends: bool): Connection {
    if ends then Ended(c, q) else c.(active := c.active[q.id := q])
  }

  class ConnectionState {
    var active: map<QueryId, Query>
    var activeOrdered: seq<QueryId>
    var finished: map<QueryId, Query>
    var finishedOrdered: seq<QueryId>
    var snapshot: nat
    var successful: ConnectionMetrics
    var cancelled: ConnectionMetrics
    var failed: ConnectionMetrics

    function State(): Connection
      reads this
    {
      Connection(active, activeOrdered, finished, finishedOrdered, snapshot, successful, cancelled, failed)
    }

    constructor ()
      ensures State() == Created()
    {
      active, activeOrdered, finished, finishedOrdered := map[], [], map[], [];
      snapshot := 1;
      successful, cancelled, failed := NoMetrics, NoMetrics, NoMetrics;
    }

    method ReduceQueryAction(a: Action, now: Time)
      modifies this
      ensures State() == Reduced(old(State()), a, now)
    {
      if a.Execute? {
        active := active[a.id := a.initial];
        activeOrdered := activeOrdered + [a.id];
        snapshot := snapshot + 1;
        return;
      }
      if a.id !in active {
        return;
      }
      var query := Changed(active[a.id], a, now);
      if !Ends(a) {
        active := active[query.id := query];
        return;
      }
      FinishQuery(query);
    }

    /** Move a query to the finished ones, and merge its metrics into those of its outcome. */
    method FinishQuery(query: Query)
      modifies this
      ensures State() == Ended(old(State()), query)
    {
      active := active - {query.id};
      activeOrdered := RemoveFromArray(activeOrdered, query.id);
      finished := finished[query.id := query];
      finishedOrdered := finishedOrdered + [query.id];
      snapshot := snapshot + 1;
      match query.status {
        case Succeeded => successful := MergedMetrics(successful, query.metrics);
        case Cancelled => cancelled := MergedMetrics(cancelled, query.metrics);
        case Failed => failed := MergedMetrics(failed, query.metrics);
        case _ =>
      }
    }
  }

  function Created(): Connection { Connection(map[], [], map[], [], 1, NoMetrics, NoMetrics, NoMetrics) }

  // ----- the invariant -----

  /** The list holds every key of the map once. */
  ghost predicate Lists(ordered: seq<QueryId>, queries: map<QueryId, Query>) {
    Distinct(ordered) && forall id :: id in ordered <==> id in queries
  }

  /** The metrics of the finished queries that ended with this status, merged in their order. */
  function Tally(ordered: seq<QueryId>, finished: map<QueryId, Query>, status: Status): ConnectionMetrics
    requires forall id | id in ordered :: id in finished
    decreases |ordered|
  {
    if ordered == [] then NoMetrics
    else
      var before := Tally(ordered[..|ordered| - 1], finished, status);
      var q := finished[ordered[|ordered| - 1]];
      if q.status == status then MergedMetrics(before, q.metrics) else before
  }

  ghost predicate QueriesAgree(active: map<QueryId, Query>, finished: map<QueryId, Query>) {
    && (forall id | id in active :: active[id].id == id && !IsDone(active[id].status) && id !in finished)
    && (forall id | id in finished :: finished[id].id == id && IsDone(finished[id].status))
  }

  ghost predicate CountersAgree(c: Connection)
    requires Lists(c.finishedOrdered, c.finished)
  {
    && c.snapshot == 1 + |c.active| + 2 * |c.finished|
    && c.successful == Tally(c.finishedOrdered, c.finished, Succeeded)
    && c.cancelled == Tally(c.finishedOrdered, c.finished, Cancelled)
    && c.failed == Tally(c.finishedOrdered, c.finished, Failed)
  }

  ghost predicate Valid(c: Connection) {
    && Lists(c.activeOrdered, c.active)
    && Lists(c.finishedOrdered, c.finished)
    && QueriesAgree(c.active, c.finished)
    && CountersAgree(c)
  }

  /** An execution starts with a query id that was not used before. */
  ghost predicate Admissible(c: Connection, a: Action) {
    a.Execute? ==> a.id !in c.active && a.id !in c.finished && a.initial.id == a.id && a.initial.status == Requested
  }

  lemma {:induction false} WithoutRemoves(s: seq<QueryId>, id: QueryId)
    requires Distinct(s)
    ensures Distinct(Without(s, id)) && forall x :: x in Without(s, id) <==> x in s && x != id
    decreases |s|
  {
    if s != [] {
      var rest := s[1..];
      assert Distinct(rest) && s[0] !in rest;
      assert forall x :: x in s <==> x == s[0] || x in rest;
      if s[0] != id {
        WithoutRemoves(rest, id);
        PrependDistinct(s[0], Without(rest, id));
      }
    }
  }

  lemma PrependDistinct(x: QueryId, s: seq<QueryId>)
    requires Distinct(s) && x !in s
    ensures Distinct([x] + s) && forall y :: y in [x] + s <==> y == x || y in s
  {
  }

  lemma {:induction false} TallyOfOthers(ordered: seq<QueryId>, finished: map<QueryId, Query>, q: Query, status: Status)
    requires (forall id | id in ordered :: id in finished) && q.id !in ordered
    ensures Tally(ordered, finished[q.id := q], status) == Tally(ordered, finished, status)
    decreases |ordered|
  {
    if ordered != [] { TallyOfOthers(ordered[..|ordered| - 1], finished, q, status); }
  }

  lemma TallyWith(ordered: seq<QueryId>, finished: map<QueryId, Query>, q: Query, status: Status)
    requires (forall id | id in ordered :: id in finished) && q.id !in ordered
    ensures Tally(ordered + [q.id], finished[q.id := q], status)
         == if q.status == status then MergedMetrics(Tally(ordered, finished, status), q.metrics)
             else Tally(ordered, finished, status)
  {
    TallyOfOthers(ordered, finished, q, status);
    assert (ordered + [q.id])[..|ordered|] == ordered;
  }

  lemma OneMoreListed(ordered: seq<QueryId>, queries: map<QueryId, Query>, id: QueryId, q: Query)
    requires Lists(ordered, queries) && id !in queries
    ensures Lists(ordered + [id], queries[id := q]) && |queries[id := q]| == |queries| + 1
  {
  }

  lemma OneLessListed(ordered: seq<QueryId>, queries: map<QueryId, Query>, id: QueryId)
    requires Lists(ordered, queries) && id in queries
    ensures Lists(Without(ordered, id), queries - {id}) && |queries - {id}| == |queries| - 1
  {
    WithoutRemoves(ordered, id);
    assert queries.Keys == (queries - {id}).Keys + {id};
  }

  lemma StartKeepsValid(c: Connection, id: QueryId, q: Query)
    requires Valid(c) && id !in c.active && id !in c.finished && q.id == id && q.status == Requested
    ensures Valid(Started(c, id, q))
  {
    OneMoreListed(c.activeOrdered, c.active, id, q);
  }

  lemma EndKeepsQueries(active: map<QueryId, Query>, finished: map<QueryId, Query>, q: Query)
    requires QueriesAgree(active, finished) && IsDone(q.status)
    ensures QueriesAgree(active - {q.id}, finished[q.id := q])
  {
  }

  lemma EndKeepsCounters(c: Connection, q: Query)
    requires Lists(c.activeOrdered, c.active) && Lists(c.finishedOrdered, c.finished) && CountersAgree(c)
    requires q.id in c.active && q.id !in c.finished && IsDone(q.status)
    ensures Lists(Ended(c, q).activeOrdered, Ended(c, q).active)
    ensures Lists(Ended(c, q).finishedOrdered, Ended(c, q).finished)
    ensures CountersAgree(Ended(c, q))
  {
    OneLessListed(c.activeOrdered, c.active, q.id);
    OneMoreListed(c.finishedOrdered, c.finished, q.id, q);
    assert q.id !in c.finishedOrdered;
    TallyWith(c.finishedOrdered, c.finished, q, Succeeded);
    TallyWith(c.finishedOrdered, c.finished, q, Cancelled);
    TallyWith(c.finishedOrdered, c.finished, q, Failed);
  }

  lemma EndKeepsValid(c: Connection, q: Query)
    requires Valid(c) && q.id in c.active && IsDone(q.status)
    ensures Valid(Ended(c, q))
  {
    EndKeepsQueries(c.active, c.finished, q);
    EndKeepsCounters(c, q);
  }

  lemma UpdateKeepsValid(c: Connection, q: Query)
    requires Valid(c) && q.id in c.active && !IsDone(q.status)
    ensures Valid(c.(active := c.active[q.id := q]))
  {
    assert c.active[q.id := q].Keys == c.active.Keys;
    assert |c.active[q.id := q]| == |c.active|;
  }

  /** What an action makes of the status. Progress only turns a sending query into a queued one. */
  function NextStatus(s: Status, a: Action): Status {
    match a
    case Execute(_, initial) => initial.status
    case Prepare(_) => Preparing
    case Send(_) => Sending
    case Run(_) => Running
    case UpdateProgress(_, isQueued) => if isQueued && s == Sending then Queued else s
    case ReceiveBatch(_, _, _) => ReceivedFirstBatch
    case ReceiveAllBatches(_, _) => ReceivedAllBatches
    case ProcessResults(_) => ProcessingResults
    case ResultsProcessed(_) => ProcessedResults
    case Succeed(_) => Succeeded
    case Cancel(_, _) => Cancelled
    case Fail(_, _) => Failed
  }

  lemma ChangedQuery(q: Query, a: Action, now: Time)
    ensures Changed(q, a, now).status == NextStatus(q.status, a)
    ensures !a.Execute? ==> Changed(q, a, now).id == q.id
  {
  }

  /** Every action keeps the lists, the maps and the counters in agreement. */
  lemma StepKeepsValid(c: Connection, a: Action, now: Time)
    requires Valid(c) && Admissible(c, a)
    ensures Valid(Reduced(c, a, now))
  {
    if a.Execute? {
      StartKeepsValid(c, a.id, a.initial);
      assert Reduced(c, a, now) == Started(c, a.id, a.initial);
    } else if a.id in c.active {
      ActionKeepsValid(c, a, now);
    } else {
      assert Reduced(c, a, now) == c;
    }
  }

  lemma ActionKeepsValid(c: Connection, a: Action, now: Time)
    requires Valid(c) && !a.Execute? && a.id in c.active
    ensures Valid(Reduced(c, a, now))
  {
    var q := Changed(c.active[a.id], a, now);
    ChangedQuery(c.active[a.id], a, now);
    ChangeKeepsValid(c, q, Ends(a));
    assert Reduced(c, a, now) == Moved(c, q, Ends(a));
  }

  lemma ChangeKeepsValid(c: Connection, q: Query, ends: bool)
    requires Valid(c) && q.id in c.active && (ends <==> IsDone(q.status))
    ensures Valid(Moved(c, q, ends))
  {
    if ends {
      EndKeepsValid(c, q);
    } else {
      UpdateKeepsValid(c, q);
    }
  }

  /** A finished query never changes again. */
  lemma FinishedStays(c: Connection, a: Action, now: Time, id: QueryId)
    requires QueriesAgree(c.active, c.finished) && id in c.finished
    ensures id in Reduced(c, a, now).finished && Reduced(c, a, now).finished[id] == c.finished[id]
  {
    if a.id in c.active { ChangedQuery(c.active[a.id], a, now); }
  }

  /** The duration stored for a query that ends is the time since it started running exactly if the query
      succeeded, or was ended at twice the start time: cancelling and failing store the start time. */
  lemma StoredDuration(c: Connection, a: Action, now: Time)
    requires QueriesAgree(c.active, c.finished) && Ends(a) && a.id in c.active
    ensures var start := Millis(c.active[a.id].metrics.runningAt, now); var c' := Reduced(c, a, now);
      && a.id in c'.finished
      && (c'.finished[a.id].metrics.duration == Some(now - start) <==> a.Succeed? || now == 2 * start)
      && (0 < start <= now < 2 * start ==> (c'.finished[a.id].metrics.duration == Some(now - start) <==> a.Succeed?))
  {
    ChangedQuery(c.active[a.id], a, now);
    assert c.active[a.id].id == a.id;
  }

  lemma {:induction false} TallyCounts(ordered: seq<QueryId>, finished: map<QueryId, Query>)
    requires forall id | id in ordered :: id in finished && IsDone(finished[id].status)
    ensures Tally(ordered, finished, Succeeded).queries + Tally(ordered, finished, Cancelled).queries
              + Tally(ordered, finished, Failed).queries == |ordered|
    decreases |ordered|
  {
    if ordered != [] { TallyCounts(ordered[..|ordered| - 1], finished); }
  }

  /** The totals account for every finished query. */
  lemma TotalsCountFinished(c: Connection)
    requires Valid(c)
    ensures c.successful.queries + c.cancelled.queries + c.failed.queries == |c.finished|
  {
    TallyCounts(c.finishedOrdered, c.finished);
    DistinctSize(c.finishedOrdered);
    assert Elements(c.finishedOrdered) == c.finished.Keys;
  }

  // ----- runs -----

  datatype Event = Event(action: Action, now: Time)

  ghost predicate IsRun(c: Connection, run: seq<Event>)
    decreases |run|
  {
    run != [] ==> Admissible(c, run[0].action) && IsRun(Reduced(c, run[0].action, run[0].now), run[1..])
  }

  function After(c: Connection, run: seq<Event>): Connection
    decreases |run|
  {
    if run == [] then c else After(Reduced(c, run[0].action, run[0].now), run[1..])
  }

  /** On every run from a new connection the lists are duplicate-free listings of the maps, active
      and finished queries are disjoint, the totals count the finished queries, and the snapshot is
      one plus the active plus twice the finished queries. */
  lemma {:induction false} RunsAreValid(c: Connection, run: seq<Event>)
    requires Valid(c) && IsRun(c, run)
    ensures Valid(After(c, run))
    decreases |run|
  {
    if run != [] {
      StepKeepsValid(c, run[0].action, run[0].now);
      RunsAreValid(Reduced(c, run[0].action, run[0].now), run[1..]);
    }
  }

  lemma CreatedIsValid()
    ensures Valid(Created())
  {
  }

  lemma {:induction false} FinishedStaysOnRuns(c: Connection, run: seq<Event>, id: QueryId)
    requires Valid(c) && IsRun(c, run) && id in c.finished
    ensures id in After(c, run).finished && After(c, run).finished[id] == c.finished[id]
    decreases |run|
  {
    if run != [] {
      StepKeepsValid(c, run[0].action, run[0].now);
      FinishedStays(c, run[0].action, run[0].now, id);
      FinishedStaysOnRuns(Reduced(c, run[0].action, run[0].now), run[1..], id);
    }
  }

  // ----- the actions of one execution -----

  datatype StreamEvent = Progress(isQueued: bool) | ResultBatch(batch: Batch, metrics: StreamMetrics)
  /** How producing the results ends, and whether an error is an abort. */
  datatype Ending = Completed | Threw(aborted: bool)
  datatype Opening = OpenThrew(aborted: bool) | NoStream
      | Opened(events: seq<StreamEvent>, ending: Ending, metrics: StreamMetrics)
  datatype Analysis = NotRequested | Analyzed | AnalysisThrew

  /** The status number that an action sets. */
  function RankOf(a: Action, before: nat): nat {
    match a
    case Execute(_, initial) => Number(initial.status)
    case Prepare(_) => 1
    case Send(_) => 2
    case Run(_) => 4
    case UpdateProgress(_, _) => before
    case ReceiveBatch(_, _, _) => 5
    case ReceiveAllBatches(_, _) => 6
    case ProcessResults(_) => 7
    case ResultsProcessed(_) => 8
    case Succeed(_) => 9
    case Cancel(_, _) => 11
    case Fail(_, _) => 10
  }

  /** The status number after some actions of a query that is not queued by them. */
  function LastRank(actions: seq<Action>): nat
    decreases |actions|
  {
    if actions == [] then 0 else RankOf(actions[|actions| - 1], LastRank(actions[..|actions| - 1]))
  }

  /** An action may follow: the query starts once and first, the status number does not go down,
      progress is only reported once the query runs, and nothing follows an end. */
  predicate MayFollow(done: seq<Action>, id: QueryId, a: Action) {
    && a.id == id
    && (a.Execute? <==> done == [])
    && (a.Execute? ==> a.initial.status == Requested)
    && (done != [] ==> !Ends(done[|done| - 1]))
    && (a.UpdateProgress? ==> LastRank(done) >= 4)
    && LastRank(done) <= RankOf(a, LastRank(done))
  }

  ghost predicate Orderly(actions: seq<Action>, id: QueryId)
    decreases |actions|
  {
    actions != [] ==>
        Orderly(actions[..|actions| - 1], id) && MayFollow(actions[..|actions| - 1], id, actions[|actions| - 1])
  }

  lemma OneMoreAction(actions: seq<Action>, id: QueryId, a: Action)
    requires Orderly(actions, id) && MayFollow(actions, id, a)
    ensures Orderly(actions + [a], id) && LastRank(actions + [a]) == RankOf(a, LastRank(actions))
  {
    assert (actions + [a])[..|actions|] == actions;
  }

  lemma {:induction false} PrefixIsOrderly(actions: seq<Action>, id: QueryId, k: nat)
    requires Orderly(actions, id) && k <= |actions|
    ensures Orderly(actions[..k], id) && (k < |actions| ==> MayFollow(actions[..k], id, actions[k]))
    decreases |actions|
  {
    if k == |actions| {
      assert actions[..k] == actions;
    } else if k < |actions| - 1 {
      PrefixIsOrderly(actions[..|actions| - 1], id, k);
      assert actions[..|actions| - 1][..k] == actions[..k];
    }
  }

  /** An execution ends its query at most once: only the last action can. */
  lemma EndsOnce(actions: seq<Action>, id: QueryId, k: nat)
    requires Orderly(actions, id) && k < |actions| && Ends(actions[k])
    ensures k == |actions| - 1
  {
    if k < |actions| - 1 { PrefixIsOrderly(actions, id, k + 1); }
  }

  /** The batches that were received, in order. */
  function BatchesReceived(actions: seq<Action>): seq<Batch>
    decreases |actions|
  {
    if actions == [] then []
    else
      var last := actions[|actions| - 1];
      BatchesReceived(actions[..|actions| - 1]) + if last.ReceiveBatch? then [last.batch] else []
  }

  /** The table that was received last. */
  function TableReceived(actions: seq<Action>): Option<seq<Batch>>
    decreases |actions|
  {
    if actions == [] then None
    else
      var last := actions[|actions| - 1];
      if last.ReceiveAllBatches? then Some(last.table) else TableReceived(actions[..|actions| - 1])
  }

  /** The batches of a result stream. */
  function BatchesIn(events: seq<StreamEvent>): seq<Batch>
    decreases |events|
  {
    if events == [] then []
    else
      var last := events[|events| - 1];
      BatchesIn(events[..|events| - 1]) + if last.ResultBatch? then [last.batch] else []
  }

  function AddedBatch(batches: seq<Batch>, a: Action): seq<Batch> {
    if a.ReceiveBatch? then batches + [a.batch] else batches
  }

  lemma OneMoreReceived(actions: seq<Action>, a: Action)
    ensures BatchesReceived(actions + [a]) == AddedBatch(BatchesReceived(actions), a)
    ensures TableReceived(actions + [a]) == if a.ReceiveAllBatches? then Some(a.table) else TableReceived(actions)
  {
    assert (actions + [a])[..|actions|] == actions;
  }

  /** What is dispatched for the events of a result stream, one for each. */
  function Forwarded(id: QueryId, events: seq<StreamEvent>): seq<Action> {
    seq(|events|, i requires 0 <= i < |events| =>
      match events[i]
      case Progress(isQueued) => UpdateProgress(id, isQueued)
      case ResultBatch(batch, metrics) => ReceiveBatch(id, batch, metrics))
  }

  function Thrown(id: QueryId, aborted: bool, metrics: Option<StreamMetrics>): Action {
    if aborted then Cancel(id, metrics) else Fail(id, metrics)
  }

  /** What is dispatched for the results of a query that was opened. */
  ghost predicate ReportsResults(more: seq<Action>, actions: seq<Action>, id: QueryId, opening: Opening) {
    match opening
    case OpenThrew(aborted) => more == actions + [Thrown(id, aborted, None)]
    case NoStream => more == actions
    case Opened(events, Threw(aborted), metrics) =>
      more == actions + [Run(id)] + Forwarded(id, events) + [Thrown(id, aborted, Some(metrics))]
    case Opened(events, Completed, _) =>
      more == actions + [Run(id)] + Forwarded(id, events) + [ReceiveAllBatches(id, BatchesIn(events))]
  }

  /** What is dispatched after the results are there. */
  function Concluding(id: QueryId, analysis: Analysis): seq<Action> {
    match analysis
    case NotRequested => [Succeed(id)]
    case Analyzed => [ProcessResults(id), ResultsProcessed(id), Succeed(id)]
    case AnalysisThrew => [ProcessResults(id), Fail(id, None)]
  }

  /** The whole sequence of dispatches: the start, the results, and unless these threw, the conclusion. */
  ghost predicate ReportsExecution(actions: seq<Action>, id: QueryId, initial: Query, opening: Opening,
                                   analysis: Analysis) {
    exists results :: ReportsResults(results, [Execute(id, initial), Send(id)], id, opening)
      && actions == results
                      + if opening.OpenThrew? || (opening.Opened? && opening.ending.Threw?) then []
                        else if opening.NoStream? then [Succeed(id)]
                        else Concluding(id, analysis)
  }

  lemma {:induction false} ForwardedIsReceived(actions: seq<Action>, id: QueryId, events: seq<StreamEvent>)
    ensures BatchesReceived(actions + Forwarded(id, events)) == BatchesReceived(actions) + BatchesIn(events)
    ensures TableReceived(actions + Forwarded(id, events)) == TableReceived(actions)
    decreases |events|
  {
    if events == [] {
      assert actions + Forwarded(id, events) == actions;
      assert BatchesReceived(actions) + [] == BatchesReceived(actions);
    } else {
      var front, last := events[..|events| - 1], events[|events| - 1];
      var before := actions + Forwarded(id, front);
      ForwardedIsReceived(actions, id, front);
      assert actions + Forwarded(id, events) == before + [Forwarded(id, events)[|front|]];
      OneMoreReceived(before, Forwarded(id, events)[|front|]);
    }
  }

  method Dispatch(actions: seq<Action>, id: QueryId, a: Action) returns (more: seq<Action>)
    requires Orderly(actions, id) && MayFollow(actions, id, a)
    ensures more == actions + [a]
    ensures Orderly(more, id) && more != [] && more[|more| - 1] == a && LastRank(more) == RankOf(a, LastRank(actions))
    ensures BatchesReceived(more) == AddedBatch(BatchesReceived(actions), a)
    ensures TableReceived(more) == if a.ReceiveAllBatches? then Some(a.table) else TableReceived(actions)
  {
    OneMoreAction(actions, id, a);
    OneMoreReceived(actions, a);
    more := actions + [a];
  }

  /** The sequence of dispatches of one execution: it ends the query, with the outcome that the
      caller sees. */
  method ExecuteQuery(id: QueryId, initial: Query, opening: Opening, analysis: Analysis)
    returns (actions: seq<Action>, returned: bool)
    requires initial.id == id && initial.status == Requested
    ensures Orderly(actions, id) && actions != [] && Ends(actions[|actions| - 1])
    ensures returned <==> actions[|actions| - 1].Succeed?
    ensures returned <==>
              opening == NoStream || (opening.Opened? && opening.ending == Completed && analysis != AnalysisThrew)
    ensures actions[|actions| - 1].Cancel? <==>
              opening == OpenThrew(true) || (opening.Opened? && opening.ending == Threw(true))
    ensures BatchesReceived(actions) == if opening.Opened? then BatchesIn(opening.events) else []
    ensures TableReceived(actions)
         == if opening.Opened? && opening.ending == Completed then Some(BatchesIn(opening.events)) else None
    ensures ReportsExecution(actions, id, initial, opening, analysis)
  {
    actions := StartExecution(id, initial);
    var table;
    actions, table := ProduceResults(actions, id, opening);
    ghost var results := actions;
    if Ends(actions[|actions| - 1]) {
      assert actions == results + [];
      return actions, false;
    }
    actions, returned := Conclude(actions, id, table.Some? && analysis != NotRequested, analysis);
  }

  /** Analyze the results if that is asked for, and end the query. */
  method Conclude(actions: seq<Action>, id: QueryId, analyze: bool, analysis: Analysis)
    returns (more: seq<Action>, returned: bool)
    requires Orderly(actions, id) && actions != [] && !Ends(actions[|actions| - 1]) && LastRank(actions) <= 6
    requires analyze ==> analysis != NotRequested
    ensures Orderly(more, id) && more != []
    ensures if returned then more[|more| - 1].Succeed? else more[|more| - 1].Fail?
    ensures returned <==> !(analyze && analysis == AnalysisThrew)
    ensures more == actions + Concluding(id, if analyze then analysis else NotRequested)
    ensures BatchesReceived(more) == BatchesReceived(actions) && TableReceived(more) == TableReceived(actions)
  {
    more := actions;
    if analyze {
      more := AnalyzeResults(more, id, analysis);
      if analysis == AnalysisThrew {
        return more, false;
      }
    }
    more := Dispatch(more, id, Succeed(id));
    returned := true;
  }

  method StartExecution(id: QueryId, initial: Query) returns (actions: seq<Action>)
    requires initial.id == id && initial.status == Requested
    ensures Orderly(actions, id) && actions != [] && !Ends(actions[|actions| - 1]) && LastRank(actions) <= 4
    ensures actions == [Execute(id, initial), Send(id)]
    ensures BatchesReceived(actions) == [] && TableReceived(actions) == None
  {
    actions := Dispatch([], id, Execute(id, initial));
    actions := Dispatch(actions, id, Send(id));
  }

  method AnalyzeResults(actions: seq<Action>, id: QueryId, analysis: Analysis) returns (more: seq<Action>)
    requires Orderly(actions, id) && actions != [] && !Ends(actions[|actions| - 1]) && LastRank(actions) <= 6
    ensures Orderly(more, id) && more != []
    ensures if analysis == AnalysisThrew then more[|more| - 1].Fail?
      else !Ends(more[|more| - 1]) && LastRank(more) <= 8
    ensures more == actions + [ProcessResults(id),
                               if analysis == AnalysisThrew then Fail(id, None) else ResultsProcessed(id)]
    ensures BatchesReceived(more) == BatchesReceived(actions) && TableReceived(more) == TableReceived(actions)
  {
    more := Dispatch(actions, id, ProcessResults(id));
    more := Dispatch(more, id, if analysis == AnalysisThrew then Fail(id, None) else ResultsProcessed(id));
  }

  /** Start the query and consume its results; an error cancels or fails the query. */
  method ProduceResults(actions: seq<Action>, id: QueryId, opening: Opening)
    returns (more: seq<Action>, table: Option<seq<Batch>>)
    requires Orderly(actions, id) && actions != [] && !Ends(actions[|actions| - 1]) && LastRank(actions) <= 4
    requires BatchesReceived(actions) == [] && TableReceived(actions) == None
    ensures Orderly(more, id) && more != []
    ensures var threw := opening.OpenThrew? || (opening.Opened? && opening.ending.Threw?);
      var aborted := opening == OpenThrew(true) || (opening.Opened? && opening.ending == Threw(true));
      var last := more[|more| - 1];
      && (Ends(last) <==> threw) && (last.Cancel? <==> aborted) && !last.Succeed?
      && (!threw ==> LastRank(more) <= 6) && (table.Some? <==> opening.Opened? && !threw)
    ensures BatchesReceived(more) == if opening.Opened? then BatchesIn(opening.events) else []
    ensures table == if opening.Opened? && opening.ending == Completed then Some(BatchesIn(opening.events)) else None
    ensures TableReceived(more) == table && ReportsResults(more, actions, id, opening)
  {
    more, table := actions, None;
    match opening {
      case OpenThrew(aborted) => more := Caught(more, id, aborted, None);
      case NoStream =>
      case Opened(events, ending, metrics) =>
        var batches;
        more, batches := ConsumeStream(more, id, events);
        if ending.Threw? {
          more := Caught(more, id, ending.aborted, Some(metrics));
        } else {
          more := Dispatch(more, id, ReceiveAllBatches(id, batches));
          table := Some(batches);
        }
    }
  }

  method Caught(actions: seq<Action>, id: QueryId, aborted: bool, metrics: Option<StreamMetrics>)
    returns (more: seq<Action>)
    requires Orderly(actions, id) && actions != [] && !Ends(actions[|actions| - 1]) && LastRank(actions) <= 10
    ensures Orderly(more, id) && more != []
    ensures more == actions + [Thrown(id, aborted, metrics)]
    ensures BatchesReceived(more) == BatchesReceived(actions) && TableReceived(more) == TableReceived(actions)
  {
    more := Dispatch(actions, id, Thrown(id, aborted, metrics));
  }

  /** Forward one event, and keep its batch. */
  method ForwardEvent(actions: seq<Action>, id: QueryId, event: StreamEvent, batches: seq<Batch>)
    returns (more: seq<Action>, batches': seq<Batch>)
    requires Orderly(actions, id) && actions != [] && !Ends(actions[|actions| - 1]) && 4 <= LastRank(actions) <= 5
    ensures Orderly(more, id) && more != [] && !Ends(more[|more| - 1]) && 4 <= LastRank(more) <= 5
    ensures more == actions + Forwarded(id, [event]) && batches' == batches + BatchesIn([event])
  {
    match event {
      case Progress(isQueued) =>
        batches' := batches;
        more := Dispatch(actions, id, UpdateProgress(id, isQueued));
        assert batches + [] == batches;
      case ResultBatch(batch, metrics) =>
        batches' := batches + [batch];
        more := Dispatch(actions, id, ReceiveBatch(id, batch, metrics));
    }
    assert [event][..0] == [];
  }

  lemma OneMoreForwarded(actions: seq<Action>, id: QueryId, events: seq<StreamEvent>, i: nat)
    requires i < |events|
    ensures (actions + Forwarded(id, events[..i])) + Forwarded(id, [events[i]])
         == actions + Forwarded(id, events[..i + 1])
    ensures BatchesIn(events[..i]) + BatchesIn([events[i]]) == BatchesIn(events[..i + 1])
  {
    assert events[..i + 1][..i] == events[..i] && [events[i]][..0] == [];
  }

  /** Run the query and forward its progress and its batches. */
  method ConsumeStream(actions: seq<Action>, id: QueryId, events: seq<StreamEvent>)
    returns (more: seq<Action>, table: seq<Batch>)
    requires Orderly(actions, id) && actions != [] && !Ends(actions[|actions| - 1]) && LastRank(actions) <= 4
    ensures Orderly(more, id) && more != [] && !Ends(more[|more| - 1]) && LastRank(more) <= 5
    ensures more == actions + [Run(id)] + Forwarded(id, events)
    ensures table == BatchesIn(events) && BatchesReceived(more) == BatchesReceived(actions) + table
    ensures TableReceived(more) == TableReceived(actions)
  {
    var running := Dispatch(actions, id, Run(id));
    more, table := running, [];
    for i := 0 to |events|
      invariant Orderly(more, id) && more != [] && !Ends(more[|more| - 1]) && 4 <= LastRank(more) <= 5
      invariant table == BatchesIn(events[..i]) && more == running + Forwarded(id, events[..i])
    {
      more, table := ForwardEvent(more, id, events[i], table);
      OneMoreForwarded(running, id, events, i);
    }
    assert events[..|events|] == events;
    ForwardedIsReceived(running, id, events);
  }

  // ----- the status of one query among others -----

  function ActionsOf(run: seq<Event>, id: QueryId): seq<Action>
    decreases |run|
  {
    if run == [] then [] else OwnAction(run[0], id) + ActionsOf(run[1..], id)
  }

  function OwnAction(e: Event, id: QueryId): seq<Action> { if e.action.id == id then [e.action] else [] }

  function StatusOf(c: Connection, id: QueryId): Option<Status> {
    if id in c.active then Some(c.active[id].status)
    else if id in c.finished then Some(c.finished[id].status)
    else None
  }

  lemma OthersKeepStatus(c: Connection, a: Action, now: Time, id: QueryId)
    requires QueriesAgree(c.active, c.finished) && a.id != id
    ensures StatusOf(Reduced(c, a, now), id) == StatusOf(c, id)
  {
    if a.id in c.active { ChangedQuery(c.active[a.id], a, now); }
  }

  lemma OwnStatus(c: Connection, a: Action, now: Time)
    requires QueriesAgree(c.active, c.finished) && Admissible(c, a) && (a.Execute? || a.id in c.active)
    ensures StatusOf(Reduced(c, a, now), a.id)
         == Some(if a.Execute? then Requested else NextStatus(c.active[a.id].status, a))
    ensures a.id in Reduced(c, a, now).active <==> !Ends(a)
  {
    if a.id in c.active { ChangedQuery(c.active[a.id], a, now); }
  }

  lemma {:induction false} AfterOneMore(c: Connection, run: seq<Event>, e: Event)
    requires IsRun(c, run + [e])
    ensures IsRun(c, run) && Admissible(After(c, run), e.action)
    ensures After(c, run + [e]) == Reduced(After(c, run), e.action, e.now)
    decreases |run|
  {
    var all := run + [e];
    if run != [] {
      assert all[1..] == run[1..] + [e];
      AfterOneMore(Reduced(c, run[0].action, run[0].now), run[1..], e);
    } else {
      assert all[1..] == [];
    }
  }

  /** Where a query stands after the first part of its actions. */
  ghost predicate Follows(c: Connection, id: QueryId, done: seq<Action>) {
    if done == [] then StatusOf(c, id) == None
    else
      && StatusOf(c, id).Some? && Number(StatusOf(c, id).value) == LastRank(done)
      && (id in c.active <==> !Ends(done[|done| - 1]))
  }

  lemma OneMoreFollows(c: Connection, a: Action, now: Time, id: QueryId, done: seq<Action>)
    requires QueriesAgree(c.active, c.finished) && Admissible(c, a) && Follows(c, id, done) && MayFollow(done, id, a)
    ensures Follows(Reduced(c, a, now), id, done + [a])
  {
    assert (done + [a])[..|done|] == done;
    OwnStatus(c, a, now);
    if !a.Execute? { NumberIsRank(c.active[id].status, a, LastRank(done)); }
  }

  lemma NumberIsRank(s: Status, a: Action, before: nat)
    requires !a.Execute? && Number(s) == before && (a.UpdateProgress? ==> before >= 4)
    ensures Number(NextStatus(s, a)) == RankOf(a, before)
  {
  }

  /** However the actions of other queries are mixed in, the status of a query follows the actions of
      its execution. */
  lemma {:induction false} StatusFollows(c: Connection, done: seq<Action>, run: seq<Event>, id: QueryId,
                                         actions: seq<Action>)
    requires Valid(c) && IsRun(c, run) && Follows(c, id, done)
    requires Orderly(actions, id) && done + ActionsOf(run, id) <= actions
    ensures Follows(After(c, run), id, done + ActionsOf(run, id))
    decreases |run|
  {
    if run == [] {
      assert done + [] == done;
    } else {
      var next, more := FollowsNext(c, done, run, id, actions);
      StatusFollows(next, more, run[1..], id, actions);
    }
  }

  /** The first event of a run: the connection after it, and the actions done by then. */
  lemma FollowsNext(c: Connection, done: seq<Action>, run: seq<Event>, id: QueryId, actions: seq<Action>)
    returns (next: Connection, more: seq<Action>)
    requires run != [] && Valid(c) && IsRun(c, run) && Follows(c, id, done)
    requires Orderly(actions, id) && done + ActionsOf(run, id) <= actions
    ensures Valid(next) && IsRun(next, run[1..]) && Follows(next, id, more) && After(c, run) == After(next, run[1..])
    ensures more + ActionsOf(run[1..], id) == done + ActionsOf(run, id)
  {
    var e := run[0];
    next, more := Reduced(c, e.action, e.now), done + OwnAction(e, id);
    NextActions(done, OwnAction(e, id), ActionsOf(run[1..], id), actions);
    StepKeepsValid(c, e.action, e.now);
    StepFollows(c, e.action, e.now, id, done, actions);
  }

  lemma NextActions(done: seq<Action>, own: seq<Action>, rest: seq<Action>, actions: seq<Action>)
    requires done + (own + rest) <= actions
    ensures (done + own) + rest == done + (own + rest) && done + own <= actions
  {
    assert (done + own) + rest == done + (own + rest);
    PrefixOfPrefix(done + own, rest, actions);
  }

  lemma PrefixOfPrefix(a: seq<Action>, b: seq<Action>, all: seq<Action>)
    requires a + b <= all
    ensures a <= all
  {
  }

  lemma {:induction false} ActionsOfOneMore(run: seq<Event>, e: Event, id: QueryId)
    ensures ActionsOf(run + [e], id) == ActionsOf(run, id) + OwnAction(e, id)
    decreases |run|
  {
    var all := run + [e];
    if run == [] {
      assert all[1..] == [] && OwnAction(e, id) + [] == OwnAction(e, id) && [] + OwnAction(e, id) == OwnAction(e, id);
    } else {
      assert all[1..] == run[1..] + [e];
      ActionsOfOneMore(run[1..], e, id);
    }
  }

  lemma StepFollows(c: Connection, a: Action, now: Time, id: QueryId, done: seq<Action>, actions: seq<Action>)
    requires QueriesAgree(c.active, c.finished) && Admissible(c, a) && Follows(c, id, done)
    requires Orderly(actions, id) && done + OwnAction(Event(a, now), id) <= actions
    ensures Follows(Reduced(c, a, now), id, done + OwnAction(Event(a, now), id))
  {
    if a.id == id {
      NextOfPrefix(actions, done, id, a);
      OneMoreFollows(c, a, now, id, done);
    } else {
      OthersKeepStatus(c, a, now, id);
      assert done + [] == done;
    }
  }

  lemma NextOfPrefix(actions: seq<Action>, done: seq<Action>, id: QueryId, a: Action)
    requires Orderly(actions, id) && done + [a] <= actions
    ensures MayFollow(done, id, a)
  {
    assert actions[..|done|] == done && actions[|done|] == a;
    PrefixIsOrderly(actions, id, |done|);
  }

  /** Along every execution the status number of the query never decreases, whatever other queries do
      in between. */
  lemma StatusNeverDecreases(c: Connection, run: seq<Event>, e: Event, id: QueryId, actions: seq<Action>)
    requires Valid(c) && IsRun(c, run + [e]) && StatusOf(c, id) == None
    requires Orderly(actions, id) && ActionsOf(run + [e], id) <= actions
    ensures var (before, after) := (StatusOf(After(c, run), id), StatusOf(After(c, run + [e]), id));
      before.Some? ==> after.Some? && Number(before.value) <= Number(after.value)
  {
    var done := ActionsOf(run, id);
    ActionsOfOneMore(run, e, id);
    AfterOneMore(c, run, e);
    RunsAreValid(c, run);
    if e.action.id == id {
      assert [] + done == done;
      PrefixOfPrefix(done, [e.action], actions);
      StatusFollows(c, [], run, id, actions);
      NextOfPrefix(actions, done, id, e.action);
      NextNeverDecreases(After(c, run), e.action, e.now, id, done);
    } else {
      OthersKeepStatus(After(c, run), e.action, e.now, id);
    }
  }

  lemma NextNeverDecreases(c: Connection, a: Action, now: Time, id: QueryId, done: seq<Action>)
    requires QueriesAgree(c.active, c.finished) && Admissible(c, a) && Follows(c, id, done) && MayFollow(done, id, a)
    ensures var (before, after) := (StatusOf(c, id), StatusOf(Reduced(c, a, now), id));
      before.Some? ==> after.Some? && Number(before.value) <= Number(after.value)
  {
    OneMoreFollows(c, a, now, id, done);
    assert (done + [a])[..|done|] == done;
  }
}
