/** Runs of the compute worker protocol: every interleaving of posting, handling, suspending,
    resuming and receiving. */
module ComputeRuns {
  import opened Common
  import opened IpcStream
  import opened ComputeProtocol

  /** What became of a scan: not handled yet, streamed completely, or broken off. */
  datatype ScanState = Waiting(frameId: FrameId) | Sent(frame: Frame) | Broken

  datatype System = System(
    front: Front,
    requests: seq<Request>,
    worker: Worker,
    responses: seq<Response>,
    scans: map<ScanId, ScanState>)

  datatype Action =
    | Post(task: Task)
    | Read(frameId: FrameId)
    | Handle(choice: Choice)
    | Continue(id: MessageId, outcome: Choice)
    | Receive

  function Start(): System {
    System(Front(0, map[], 0, map[], map[], map[]), [], Worker(0, {}, map[], map[]), [], map[])
  }

  predicate Enabled(s: System, a: Action) {
    match a
    case Post(task) => !task.Scan?
    case Read(_) => true
    case Handle(_) => s.requests != []
    case Continue(id, _) => id in s.worker.suspended
    case Receive => s.responses != []
  }

  /** The frame is registered when the scan is handled, and reading it gets to the end. */
  predicate ReadsToEnd(w: Worker, frameId: FrameId, c: Choice) {
    frameId in w.frames && c.sent >= |StreamOf(w.frames[frameId])|
  }

  /** What the worker makes of a scan request. */
  function ScanOutcome(w: Worker, task: Task, c: Choice): ScanState
    requires task.Scan?
  {
    if ReadsToEnd(w, task.frameId, c) then Sent(w.frames[task.frameId]) else Broken
  }

  function Next(s: System, a: Action): System
    requires Enabled(s, a)
  {
    match a
    case Post(task) =>
      s.(front := Posted(s.front, task), requests := s.requests + [Request(s.front.nextMessageId, task)])
    case Read(frameId) =>
      s.(front := ScanStarted(s.front, frameId),
         requests := s.requests + [Request(s.front.nextMessageId, Scan(frameId, s.front.nextScanId))],
         scans := s.scans[s.front.nextScanId := Waiting(frameId)])
    case Handle(c) =>
      var request := s.requests[0];
      var (w, rs) := Handled(s.worker, request, c);
      s.(requests := s.requests[1..], worker := w, responses := s.responses + rs,
         scans := if request.task.Scan? then s.scans[request.task.scanId := ScanOutcome(s.worker, request.task, c)]
             else s.scans)
    case Continue(id, c) =>
      var (w, rs) := Continued(s.worker, id, c);
      s.(worker := w, responses := s.responses + rs)
    case Receive =>
      s.(front := ReceivedBy(s.front, s.responses[0]), responses := s.responses[1..])
  }

  // ----- where a pending task is -----

  function InRequests(rs: seq<Request>, id: MessageId): nat {
    if rs == [] then 0 else (if rs[0].messageId == id then 1 else 0) + InRequests(rs[1..], id)
  }

  function InResponses(rs: seq<Response>, id: MessageId): nat {
    if rs == [] then 0 else (if Settles(rs[0]) && rs[0].requestId == id then 1 else 0) + InResponses(rs[1..], id)
  }

  lemma {:induction false} InRequestsOfConcat(a: seq<Request>, b: seq<Request>, id: MessageId)
    ensures InRequests(a + b, id) == InRequests(a, id) + InRequests(b, id)
    decreases |a|
  {
    if a == [] {
      assert a + b == b;
    } else {
      assert (a + b)[1..] == a[1..] + b;
      InRequestsOfConcat(a[1..], b, id);
    }
  }

  lemma {:induction false} InResponsesOfConcat(a: seq<Response>, b: seq<Response>, id: MessageId)
    ensures InResponses(a + b, id) == InResponses(a, id) + InResponses(b, id)
    decreases |a|
  {
    if a == [] {
      assert a + b == b;
    } else {
      assert (a + b)[1..] == a[1..] + b;
      InResponsesOfConcat(a[1..], b, id);
    }
  }

  lemma {:induction false} NoneSettle(rs: seq<Response>, id: MessageId)
    requires forall r | r in rs :: !Settles(r)
    ensures InResponses(rs, id) == 0
    decreases |rs|
  {
    if rs != [] { NoneSettle(rs[1..], id); }
  }

  /** In how many places a task is: a request on its way, a suspension, a settling response on its way. */
  function Places(requests: seq<Request>, suspended: set<MessageId>, responses: seq<Response>, id: MessageId): nat {
    InRequests(requests, id) + (if id in suspended then 1 else 0) + InResponses(responses, id)
  }

  /** Every pending task is in exactly one place, once, and nothing else is in any. */
  ghost predicate Correlated(pending: set<MessageId>, requests: seq<Request>, suspended: set<MessageId>,
                             responses: seq<Response>) {
    forall id :: Places(requests, suspended, responses, id) == if id in pending then 1 else 0
  }

  /** A response is one that its task resolves or rejects with; only a ping gets an answer it cannot
      resolve with. */
  ghost predicate Fits(task: Task, r: Response) {
    r.Failed? || Accepts(task, r) || (task.Ping? && r.Ok?)
  }

  ghost predicate SuspendedFits(task: Task, k: Suspended) {
    match k
    case Instantiating => task.Instantiate?
    case Transforming(_) => task.Transform?
  }

  ghost predicate RequestsFit(pending: map<MessageId, Task>, requests: seq<Request>) {
    forall i | 0 <= i < |requests| ::
        requests[i].messageId in pending && pending[requests[i].messageId] == requests[i].task
  }

  ghost predicate AllSuspendedFit(pending: map<MessageId, Task>, suspended: map<MessageId, Suspended>) {
    forall id | id in suspended :: id in pending && SuspendedFits(pending[id], suspended[id])
  }

  ghost predicate ResponsesFit(pending: map<MessageId, Task>, responses: seq<Response>) {
    forall i | 0 <= i < |responses| && Settles(responses[i]) ::
      responses[i].requestId in pending && Fits(pending[responses[i].requestId], responses[i])
  }

  /** Message ids are used once: a settled id is never pending again. */
  ghost predicate IdsUsedOnce(f: Front) {
    && (forall id | id in f.pending :: id < f.nextMessageId && id !in f.settled)
    && (forall id | id in f.settled :: id < f.nextMessageId)
    && (forall id | id in f.settled :: SettledWell(f.settled[id]))
  }

  /** A task is resolved with a kind it accepts, or rejected; a ping is always rejected as unexpected. */
  ghost predicate SettledWell(t: Settlement) {
    && (t.outcome.Resolved? ==> Accepts(t.task, t.outcome.response))
    && (t.outcome.Unexpected? <==> t.task.Ping? && !t.outcome.Rejected?)
  }

  ghost predicate TasksAgree(s: System) {
    && Correlated(s.front.pending.Keys, s.requests, s.worker.suspended.Keys, s.responses)
    && RequestsFit(s.front.pending, s.requests)
    && AllSuspendedFit(s.front.pending, s.worker.suspended)
    && ResponsesFit(s.front.pending, s.responses)
    && IdsUsedOnce(s.front)
  }

  // ----- tasks: every action keeps the correlation -----

  lemma PostKeepsTasks(f: Front, requests: seq<Request>, suspended: set<MessageId>, responses: seq<Response>,
                       task: Task)
    requires Correlated(f.pending.Keys, requests, suspended, responses) && IdsUsedOnce(f)
    ensures Correlated(Posted(f, task).pending.Keys, requests + [Request(f.nextMessageId, task)], suspended, responses)
    ensures IdsUsedOnce(Posted(f, task))
  {
    var request := Request(f.nextMessageId, task);
    forall id
      ensures Places(requests + [request], suspended, responses, id)
                == if id in Posted(f, task).pending.Keys then 1 else 0
    {
      InRequestsOfConcat(requests, [request], id);
      assert Places(requests, suspended, responses, id) == if id in f.pending.Keys then 1 else 0;
      assert InRequests([request], id) == if id == f.nextMessageId then 1 else 0;
    }
  }

  lemma MorePendingFits(pending: map<MessageId, Task>, id: MessageId, task: Task, requests: seq<Request>,
                        suspended: map<MessageId, Suspended>, responses: seq<Response>)
    requires id !in pending
    requires RequestsFit(pending, requests) && AllSuspendedFit(pending, suspended) && ResponsesFit(pending, responses)
    ensures RequestsFit(pending[id := task], requests + [Request(id, task)])
    ensures AllSuspendedFit(pending[id := task], suspended) && ResponsesFit(pending[id := task], responses)
  {
  }

  /** The responses to a request: none if it is suspended, else one that settles it and fits. */
  ghost predicate AnswersOnce(request: Request, rs: seq<Response>) {
    && (forall id :: InResponses(rs, id) == if id == request.messageId then 1 else 0)
    && (forall r | r in rs && Settles(r) :: r.requestId == request.messageId && Fits(request.task, r))
  }

  lemma AnsweredOnce(request: Request, rs: seq<Response>, r: Response)
    requires (forall m | m in rs :: !Settles(m)) && Settles(r) && r.requestId == request.messageId
    requires Fits(request.task, r)
    ensures AnswersOnce(request, rs + [r])
  {
    forall id ensures InResponses(rs + [r], id) == if id == request.messageId then 1 else 0 {
      InResponsesOfConcat(rs, [r], id);
      NoneSettle(rs, id);
      assert [r][1..] == [];
    }
  }

  lemma ScanAnswersOnce(request: Request, frame: Frame, c: Choice)
    requires request.task.Scan?
    ensures AnswersOnce(request, ScanResponses(request.messageId, request.task.scanId, frame, c))
  {
    var id, scan, stream := request.messageId, request.task.scanId, StreamOf(frame);
    if c.sent >= |stream| {
      AnsweredOnce(request, Messages(id, scan, stream) + [ScanFinish(id, scan)], Ok(id));
      assert ScanResponses(id, scan, frame, c) == Messages(id, scan, stream) + [ScanFinish(id, scan)] + [Ok(id)];
    } else {
      AnsweredOnce(request, Messages(id, scan, stream[..c.sent]), Failed(id));
    }
  }

  /** Handling a request either suspends it or settles it once, with a response that fits. */
  lemma HandledOnce(w: Worker, request: Request, c: Choice)
    ensures var (w', rs) := Handled(w, request, c);
      || (w'.suspended == w.suspended && AnswersOnce(request, rs))
      || (rs == [] && request.messageId in w'.suspended && SuspendedFits(request.task, w'.suspended[request.messageId])
          && w'.suspended == w.suspended[request.messageId := w'.suspended[request.messageId]])
  {
    var (w', rs) := Handled(w, request, c);
    if request.task.Scan? && request.task.frameId in w.frames {
      ScanAnswersOnce(request, w.frames[request.task.frameId], c);
    } else if rs != [] {
      AnsweredOnce(request, [], rs[0]);
      assert [] + [rs[0]] == rs;
    }
  }

  lemma ContinuedOnce(w: Worker, request: Request, c: Choice)
    requires request.messageId in w.suspended && SuspendedFits(request.task, w.suspended[request.messageId])
    ensures var (w', rs) := Continued(w, request.messageId, c);
      w'.suspended == w.suspended - {request.messageId} && AnswersOnce(request, rs)
  {
    var (w', rs) := Continued(w, request.messageId, c);
    AnsweredOnce(request, [], rs[0]);
    assert [] + [rs[0]] == rs;
  }

  lemma MoreResponsesFit(pending: map<MessageId, Task>, responses: seq<Response>, rs: seq<Response>, request: Request)
    requires ResponsesFit(pending, responses) && request.messageId in pending
    requires pending[request.messageId] == request.task
    requires AnswersOnce(request, rs)
    ensures ResponsesFit(pending, responses + rs)
  {
    forall i | 0 <= i < |responses + rs| && Settles((responses + rs)[i])
      ensures (responses + rs)[i].requestId in pending
      ensures Fits(pending[(responses + rs)[i].requestId], (responses + rs)[i])
    {
      if i >= |responses| { assert (responses + rs)[i] in rs; }
    }
  }

  /** A request that is taken from the channel is not suspended. */
  lemma TakenOnce(pending: set<MessageId>, requests: seq<Request>, suspended: set<MessageId>, responses: seq<Response>)
    requires Correlated(pending, requests, suspended, responses) && requests != []
    ensures requests[0].messageId !in suspended && requests[0].messageId in pending
  {
    assert Places(requests, suspended, responses, requests[0].messageId) >= 1;
  }

  /** The task moves from the request channel to the response channel. */
  lemma AnswerKeepsCorrelated(pending: set<MessageId>, requests: seq<Request>, suspended: set<MessageId>,
                              responses: seq<Response>, rs: seq<Response>)
    requires Correlated(pending, requests, suspended, responses) && requests != [] && AnswersOnce(requests[0], rs)
    ensures Correlated(pending, requests[1..], suspended, responses + rs)
  {
    forall id ensures Places(requests[1..], suspended, responses + rs, id) == if id in pending then 1 else 0 {
      InResponsesOfConcat(responses, rs, id);
      assert Places(requests, suspended, responses, id) == if id in pending then 1 else 0;
    }
  }

  lemma SuspendKeepsCorrelated(pending: set<MessageId>, requests: seq<Request>, suspended: set<MessageId>,
                               responses: seq<Response>)
    requires Correlated(pending, requests, suspended, responses) && requests != []
    requires requests[0].messageId !in suspended
    ensures Correlated(pending, requests[1..], suspended + {requests[0].messageId}, responses)
  {
    forall id
      ensures Places(requests[1..], suspended + {requests[0].messageId}, responses, id)
                == if id in pending then 1 else 0
    {
      assert Places(requests, suspended, responses, id) == if id in pending then 1 else 0;
    }
  }

  lemma ContinueKeepsCorrelated(pending: set<MessageId>, requests: seq<Request>, suspended: set<MessageId>,
                                responses: seq<Response>, request: Request, rs: seq<Response>)
    requires Correlated(pending, requests, suspended, responses) && request.messageId in suspended
    requires AnswersOnce(request, rs)
    ensures Correlated(pending, requests, suspended - {request.messageId}, responses + rs)
  {
    forall id
      ensures Places(requests, suspended - {request.messageId}, responses + rs, id) == if id in pending then 1 else 0
    {
      InResponsesOfConcat(responses, rs, id);
      assert Places(requests, suspended, responses, id) == if id in pending then 1 else 0;
    }
  }

  lemma HandleKeepsTasks(s: System, c: Choice)
    requires TasksAgree(s) && s.requests != []
    ensures TasksAgree(Next(s, Handle(c)))
  {
    var request := s.requests[0];
    var (w, rs) := Handled(s.worker, request, c);
    var pending, suspended := s.front.pending, s.worker.suspended.Keys;
    TakenOnce(pending.Keys, s.requests, suspended, s.responses);
    HandledOnce(s.worker, request, c);
    if w.suspended == s.worker.suspended && AnswersOnce(request, rs) {
      AnswerKeepsCorrelated(pending.Keys, s.requests, suspended, s.responses, rs);
      MoreResponsesFit(pending, s.responses, rs, request);
    } else {
      SuspendKeepsCorrelated(pending.Keys, s.requests, suspended, s.responses);
      assert w.suspended.Keys == suspended + {request.messageId};
      assert s.responses + [] == s.responses;
    }
  }

  lemma ContinueKeepsTasks(s: System, id: MessageId, c: Choice)
    requires TasksAgree(s) && id in s.worker.suspended
    ensures TasksAgree(Next(s, Continue(id, c)))
  {
    var request := Request(id, s.front.pending[id]);
    var (w, rs) := Continued(s.worker, id, c);
    ContinuedOnce(s.worker, request, c);
    ContinueKeepsCorrelated(s.front.pending.Keys, s.requests, s.worker.suspended.Keys, s.responses, request, rs);
    assert w.suspended.Keys == s.worker.suspended.Keys - {id};
    MoreResponsesFit(s.front.pending, s.responses, rs, request);
  }

  // ----- tasks: receiving -----

  lemma ReceiveKeepsCorrelated(pending: set<MessageId>, requests: seq<Request>, suspended: set<MessageId>,
                               responses: seq<Response>)
    requires Correlated(pending, requests, suspended, responses) && responses != []
    ensures var id := responses[0].requestId;
      if Settles(responses[0]) then
        && id in pending && InRequests(requests, id) == 0 && id !in suspended && InResponses(responses[1..], id) == 0
        && Correlated(pending - {id}, requests, suspended, responses[1..])
      else Correlated(pending, requests, suspended, responses[1..])
  {
    var id := responses[0].requestId;
    assert Places(requests, suspended, responses, id) == if id in pending then 1 else 0;
    var rest := if Settles(responses[0]) then pending - {id} else pending;
    forall i ensures Places(requests, suspended, responses[1..], i) == if i in rest then 1 else 0 {
      assert Places(requests, suspended, responses, i) == if i in pending then 1 else 0;
    }
  }

  lemma {:induction false} NotRequested(requests: seq<Request>, id: MessageId)
    ensures InRequests(requests, id) == 0 ==> forall i | 0 <= i < |requests| :: requests[i].messageId != id
    decreases |requests|
  {
    if requests != [] {
      NotRequested(requests[1..], id);
      assert forall i | 0 < i < |requests| :: requests[i] == requests[1..][i - 1];
    }
  }

  lemma {:induction false} NotAnswered(responses: seq<Response>, id: MessageId)
    ensures InResponses(responses, id) == 0 ==> forall i | 0 <= i < |responses| && Settles(responses[i]) ::
              responses[i].requestId != id
    decreases |responses|
  {
    if responses != [] {
      NotAnswered(responses[1..], id);
      assert forall i | 0 < i < |responses| :: responses[i] == responses[1..][i - 1];
    }
  }

  lemma FewerPendingFits(pending: map<MessageId, Task>, id: MessageId, requests: seq<Request>,
                         suspended: map<MessageId, Suspended>, responses: seq<Response>)
    requires RequestsFit(pending, requests) && AllSuspendedFit(pending, suspended) && ResponsesFit(pending, responses)
    requires InRequests(requests, id) == 0 && id !in suspended && InResponses(responses, id) == 0
    ensures RequestsFit(pending - {id}, requests) && AllSuspendedFit(pending - {id}, suspended)
    ensures ResponsesFit(pending - {id}, responses)
  {
    NotRequested(requests, id);
    NotAnswered(responses, id);
  }

  lemma SettledOnce(f: Front, r: Response)
    requires IdsUsedOnce(f) && Settles(r) && r.requestId in f.pending && Fits(f.pending[r.requestId], r)
    ensures IdsUsedOnce(SettledBy(f, r)) && SettledBy(f, r).pending == f.pending - {r.requestId}
    ensures r.requestId !in f.settled && SettledBy(f, r).settled.Keys == f.settled.Keys + {r.requestId}
  {
  }

  lemma ReceiveKeepsTasks(s: System)
    requires TasksAgree(s) && s.responses != []
    ensures TasksAgree(Next(s, Receive))
  {
    var r, rest := s.responses[0], s.responses[1..];
    ReceiveKeepsCorrelated(s.front.pending.Keys, s.requests, s.worker.suspended.Keys, s.responses);
    assert ResponsesFit(s.front.pending, rest);
    if Settles(r) {
      SettledOnce(s.front, r);
      FewerPendingFits(s.front.pending, r.requestId, s.requests, s.worker.suspended, rest);
      assert (s.front.pending - {r.requestId}).Keys == s.front.pending.Keys - {r.requestId};
    }
  }

  lemma StepKeepsTasks(s: System, a: Action)
    requires TasksAgree(s) && Enabled(s, a)
    ensures TasksAgree(Next(s, a))
  {
    match a
    case Post(task) =>
      PostKeepsTasks(s.front, s.requests, s.worker.suspended.Keys, s.responses, task);
      MorePendingFits(s.front.pending, s.front.nextMessageId, task, s.requests, s.worker.suspended, s.responses);
    case Read(frameId) =>
      var task := Scan(frameId, s.front.nextScanId);
      PostKeepsTasks(s.front, s.requests, s.worker.suspended.Keys, s.responses, task);
      MorePendingFits(s.front.pending, s.front.nextMessageId, task, s.requests, s.worker.suspended, s.responses);
    case Handle(c) => HandleKeepsTasks(s, c);
    case Continue(id, c) => ContinueKeepsTasks(s, id, c);
    case Receive => ReceiveKeepsTasks(s);
  }

  // ----- scans -----

  datatype ScanEvent = Message(buffer: Buffer) | Finish

  /** What the responses on their way say about one scan. */
  function EventsOf(scan: ScanId, rs: seq<Response>): seq<ScanEvent> {
    if rs == [] then []
    else (match rs[0]
          case ScanMessage(_, sid, buffer) => if sid == scan then [Message(buffer)] else []
          case ScanFinish(_, sid) => if sid == scan then [Finish] else []
          case _ => [])
         + EventsOf(scan, rs[1..])
  }

  lemma {:induction false} EventsOfConcat(scan: ScanId, a: seq<Response>, b: seq<Response>)
    ensures EventsOf(scan, a + b) == EventsOf(scan, a) + EventsOf(scan, b)
    decreases |a|
  {
    if a == [] {
      assert a + b == b;
    } else {
      assert (a + b)[1..] == a[1..] + b;
      EventsOfConcat(scan, a[1..], b);
    }
  }

  function MessageEvents(buffers: seq<Buffer>): seq<ScanEvent> {
    seq(|buffers|, i requires 0 <= i < |buffers| => Message(buffers[i]))
  }

  lemma {:induction false} EventsOfMessages(scan: ScanId, id: MessageId, sid: ScanId, buffers: seq<Buffer>)
    ensures EventsOf(scan, Messages(id, sid, buffers)) == if sid == scan then MessageEvents(buffers) else []
    decreases |buffers|
  {
    if buffers != [] {
      assert Messages(id, sid, buffers)[1..] == Messages(id, sid, buffers[1..]);
      EventsOfMessages(scan, id, sid, buffers[1..]);
      assert MessageEvents(buffers) == [Message(buffers[0])] + MessageEvents(buffers[1..]);
    }
  }

  /** A complete scan says its whole stream and then that it is finished; a broken one never says
      that it is finished; other scans are not mentioned. */
  lemma EventsOfScan(scan: ScanId, id: MessageId, sid: ScanId, frame: Frame, c: Choice)
    ensures var events := EventsOf(scan, ScanResponses(id, sid, frame, c));
      if scan != sid then events == []
      else if c.sent >= |StreamOf(frame)| then events == MessageEvents(StreamOf(frame)) + [Finish]
      else Finish !in events
  {
    var stream := StreamOf(frame);
    if c.sent >= |stream| {
      var rest := [ScanFinish(id, sid), Ok(id)];
      EventsOfMessages(scan, id, sid, stream);
      EventsOfConcat(scan, Messages(id, sid, stream), rest);
      assert EventsOf(scan, [Ok(id)]) == [] by { assert [Ok(id)][1..] == []; }
      assert rest[1..] == [Ok(id)];
      assert EventsOf(scan, rest) == if sid == scan then [Finish] else [];
    } else {
      EventsOfMessages(scan, id, sid, stream[..c.sent]);
      EventsOfConcat(scan, Messages(id, sid, stream[..c.sent]), [Failed(id)]);
      assert [Failed(id)][1..] == [];
    }
  }

  /** How far a scan is: what was received so far and what is still on its way make up the stream of
      the scanned frame; a finished scan has resolved with exactly that stream. */
  ghost predicate ScanAgrees(state: ScanState, active: Option<seq<Buffer>>, table: Option<seq<Buffer>>,
                             events: seq<ScanEvent>) {
    match state
    case Waiting(_) => active == Option.Some([]) && table.None? && events == []
    case Sent(frame) =>
      (match active
       case Some(got) =>
         got <= StreamOf(frame) && table.None? && events == MessageEvents(StreamOf(frame)[|got|..]) + [Finish]
       case None => table == Option.Some(StreamOf(frame)) && events == [])
    case Broken => table.None? && Finish !in events
  }

  function Lookup<V>(m: map<ScanId, V>, scan: ScanId): Option<V> { if scan in m then Option.Some(m[scan]) else None }

  ghost predicate ScansAgree(f: Front, scans: map<ScanId, ScanState>, responses: seq<Response>) {
    forall scan: ScanId {:trigger EventsOf(scan, responses)} ::
      if scan in scans then
          ScanAgrees(scans[scan], Lookup(f.activeScans, scan), Lookup(f.tables, scan), EventsOf(scan, responses))
      else EventsOf(scan, responses) == [] && scan !in f.activeScans && scan !in f.tables
  }

  /** Scan ids are used once, and a waiting scan has one request on its way. */
  ghost predicate ScanRequestsAgree(nextScanId: ScanId, scans: map<ScanId, ScanState>, requests: seq<Request>) {
    && (forall scan | scan in scans :: scan < nextScanId)
    && (forall i | 0 <= i < |requests| && requests[i].task.Scan? ::
          requests[i].task.scanId in scans && scans[requests[i].task.scanId] == Waiting(requests[i].task.frameId))
    && (forall i, j | 0 <= i < j < |requests| && requests[i].task.Scan? && requests[j].task.Scan? ::
          requests[i].task.scanId != requests[j].task.scanId)
  }

  /** Only broken scans get an error. */
  ghost predicate ErrorsAgree(pending: map<MessageId, Task>, scans: map<ScanId, ScanState>, responses: seq<Response>) {
    forall i | 0 <= i < |responses| && responses[i].Failed? && responses[i].requestId in pending
        && pending[responses[i].requestId].Scan? ::
      pending[responses[i].requestId].scanId in scans && scans[pending[responses[i].requestId].scanId].Broken?
  }

  /** A waiting scan has its request on its way. */
  ghost predicate WaitingRequested(scans: map<ScanId, ScanState>, requests: seq<Request>) {
    forall scan | scan in scans && scans[scan].Waiting? :: exists i ::
        0 <= i < |requests| && RequestsScan(requests[i], scan)
  }

  ghost predicate RequestsScan(request: Request, scan: ScanId) { request.task.Scan? && request.task.scanId == scan }

  lemma MoreRequested(scans: map<ScanId, ScanState>, requests: seq<Request>, request: Request)
    requires WaitingRequested(scans, requests)
    ensures WaitingRequested(scans, requests + [request])
    ensures request.task.Scan? ==>
              WaitingRequested(scans[request.task.scanId := Waiting(request.task.frameId)], requests + [request])
  {
    var more := requests + [request];
    forall scan | scan in scans && scans[scan].Waiting?
      ensures exists i :: 0 <= i < |more| && RequestsScan(more[i], scan)
    {
      var i :| 0 <= i < |requests| && RequestsScan(requests[i], scan);
      assert RequestsScan(more[i], scan);
    }
    if request.task.Scan? { assert RequestsScan(more[|requests|], request.task.scanId); }
  }

  lemma FewerRequested(scans: map<ScanId, ScanState>, requests: seq<Request>, scans': map<ScanId, ScanState>)
    requires WaitingRequested(scans, requests) && requests != []
    requires forall scan | scan in scans' && scans'[scan].Waiting? ::
               scan in scans && scans[scan].Waiting? && !RequestsScan(requests[0], scan)
    ensures WaitingRequested(scans', requests[1..])
  {
    forall scan | scan in scans' && scans'[scan].Waiting?
      ensures exists i :: 0 <= i < |requests[1..]| && RequestsScan(requests[1..][i], scan)
    {
      var i :| 0 <= i < |requests| && RequestsScan(requests[i], scan);
      assert RequestsScan(requests[1..][i - 1], scan);
    }
  }

  ghost predicate Invariant(s: System) {
    && TasksAgree(s)
    && WaitingRequested(s.scans, s.requests)
    && ScansAgree(s.front, s.scans, s.responses)
    && ScanRequestsAgree(s.front.nextScanId, s.scans, s.requests)
    && ErrorsAgree(s.front.pending, s.scans, s.responses)
  }

  lemma EventsOfOthers(scan: ScanId, rs: seq<Response>)
    requires |rs| <= 1 && forall r | r in rs :: Settles(r)
    ensures EventsOf(scan, rs) == []
  {
    if rs != [] { assert Settles(rs[0]) && rs[1..] == []; }
  }

  /** The scan events in the responses to any request. */
  lemma EventsOfHandled(scan: ScanId, w: Worker, request: Request, c: Choice)
    ensures var events := EventsOf(scan, Handled(w, request, c).1);
      if request.task.Scan? && request.task.scanId == scan then
        match ScanOutcome(w, request.task, c)
        case Sent(frame) => events == MessageEvents(StreamOf(frame)) + [Finish]
        case _ => Finish !in events
      else events == []
  {
    var rs := Handled(w, request, c).1;
    if request.task.Scan? && request.task.frameId in w.frames {
      EventsOfScan(scan, request.messageId, request.task.scanId, w.frames[request.task.frameId], c);
    } else {
      EventsOfOthers(scan, rs);
    }
  }

  lemma HandleKeepsScans(s: System, c: Choice)
    requires Invariant(s) && s.requests != []
    ensures var t := Next(s, Handle(c)); ScansAgree(t.front, t.scans, t.responses)
  {
    var t, request := Next(s, Handle(c)), s.requests[0];
    var rs := Handled(s.worker, request, c).1;
    forall scan: ScanId
      ensures if scan in t.scans then
                ScanAgrees(t.scans[scan], Lookup(s.front.activeScans, scan), Lookup(s.front.tables, scan),
                    EventsOf(scan, t.responses))
        else EventsOf(scan, t.responses) == [] && scan !in s.front.activeScans && scan !in s.front.tables
    {
      EventsOfConcat(scan, s.responses, rs);
      EventsOfHandled(scan, s.worker, request, c);
      if request.task.Scan? && request.task.scanId == scan {
        assert s.scans[scan] == Waiting(request.task.frameId);
        assert EventsOf(scan, s.responses) == [];
        assert forall frame :: StreamOf(frame)[0..] == StreamOf(frame);
      }
    }
  }

  lemma HandleKeepsScanRequests(s: System, c: Choice)
    requires ScanRequestsAgree(s.front.nextScanId, s.scans, s.requests) && s.requests != []
    ensures var t := Next(s, Handle(c)); ScanRequestsAgree(t.front.nextScanId, t.scans, t.requests)
  {
  }

  lemma HandleKeepsErrors(s: System, c: Choice)
    requires Invariant(s) && s.requests != []
    ensures var t := Next(s, Handle(c)); ErrorsAgree(t.front.pending, t.scans, t.responses)
  {
    var t, request, pending := Next(s, Handle(c)), s.requests[0], s.front.pending;
    var rs := Handled(s.worker, request, c).1;
    HandledOnce(s.worker, request, c);
    forall i | 0 <= i < |t.responses| && t.responses[i].Failed? && t.responses[i].requestId in pending
        && pending[t.responses[i].requestId].Scan?
      ensures pending[t.responses[i].requestId].scanId in t.scans
      ensures t.scans[pending[t.responses[i].requestId].scanId].Broken?
    {
      if i >= |s.responses| {
        assert t.responses[i] in rs;
        FailedScanIsBroken(s.worker, request, c, t.responses[i]);
      } else {
        assert t.responses[i] == s.responses[i];
      }
    }
  }

  lemma FailedScanIsBroken(w: Worker, request: Request, c: Choice, r: Response)
    requires request.task.Scan? && r in Handled(w, request, c).1 && r.Failed?
    ensures ScanOutcome(w, request.task, c).Broken?
  {
  }

  lemma ContinueKeepsScans(s: System, id: MessageId, c: Choice)
    requires Invariant(s) && id in s.worker.suspended
    ensures var t := Next(s, Continue(id, c)); ScansAgree(t.front, t.scans, t.responses)
  {
    var t := Next(s, Continue(id, c));
    var rs := Continued(s.worker, id, c).1;
    forall scan: ScanId
      ensures if scan in s.scans then
                ScanAgrees(s.scans[scan], Lookup(s.front.activeScans, scan), Lookup(s.front.tables, scan),
                    EventsOf(scan, t.responses))
        else EventsOf(scan, t.responses) == [] && scan !in s.front.activeScans && scan !in s.front.tables
    {
      EventsOfConcat(scan, s.responses, rs);
      EventsOfOthers(scan, rs);
      assert EventsOf(scan, s.responses + rs) == EventsOf(scan, s.responses);
    }
  }

  lemma ContinueKeepsErrors(s: System, id: MessageId, c: Choice)
    requires Invariant(s) && id in s.worker.suspended
    ensures var t := Next(s, Continue(id, c)); ErrorsAgree(t.front.pending, t.scans, t.responses)
  {
    assert !s.front.pending[id].Scan?;
  }

  lemma SameScans(f: Front, f': Front, scans: map<ScanId, ScanState>, responses: seq<Response>)
    requires ScansAgree(f, scans, responses) && f'.activeScans == f.activeScans && f'.tables == f.tables
    ensures ScansAgree(f', scans, responses)
  {
    forall scan: ScanId
      ensures if scan in scans then
                ScanAgrees(scans[scan], Lookup(f'.activeScans, scan), Lookup(f'.tables, scan),
                    EventsOf(scan, responses))
        else EventsOf(scan, responses) == [] && scan !in f'.activeScans && scan !in f'.tables
    {
      assert EventsOf(scan, responses) == EventsOf(scan, responses);
    }
  }

  lemma OtherRequestAgrees(nextScanId: ScanId, scans: map<ScanId, ScanState>, requests: seq<Request>, request: Request)
    requires ScanRequestsAgree(nextScanId, scans, requests) && !request.task.Scan?
    ensures ScanRequestsAgree(nextScanId, scans, requests + [request])
  {
  }

  lemma MorePendingErrors(pending: map<MessageId, Task>, scans: map<ScanId, ScanState>, responses: seq<Response>,
                          id: MessageId, task: Task)
    requires ErrorsAgree(pending, scans, responses) && ResponsesFit(pending, responses) && id !in pending
    ensures ErrorsAgree(pending[id := task], scans, responses)
  {
    assert forall i | 0 <= i < |responses| && Settles(responses[i]) :: responses[i].requestId in pending;
  }

  lemma PostKeepsScans(s: System, task: Task)
    requires Invariant(s) && !task.Scan?
    ensures var t := Next(s, Post(task));
      ScansAgree(t.front, t.scans, t.responses) && ScanRequestsAgree(t.front.nextScanId, t.scans, t.requests)
      && ErrorsAgree(t.front.pending, t.scans, t.responses)
  {
    var t := Next(s, Post(task));
    SameScans(s.front, t.front, s.scans, s.responses);
    OtherRequestAgrees(s.front.nextScanId, s.scans, s.requests, Request(s.front.nextMessageId, task));
    MorePendingErrors(s.front.pending, s.scans, s.responses, s.front.nextMessageId, task);
  }

  lemma ReadKeepsScans(s: System, frameId: FrameId)
    requires Invariant(s)
    ensures var t := Next(s, Read(frameId)); ScansAgree(t.front, t.scans, t.responses)
  {
    var t := Next(s, Read(frameId));
    assert s.front.nextScanId !in s.scans;
    forall scan: ScanId
      ensures if scan in t.scans then
                ScanAgrees(t.scans[scan], Lookup(t.front.activeScans, scan), Lookup(t.front.tables, scan),
                    EventsOf(scan, s.responses))
        else EventsOf(scan, s.responses) == [] && scan !in t.front.activeScans && scan !in t.front.tables
    {
      assert scan == s.front.nextScanId ==> EventsOf(scan, s.responses) == [];
    }
  }

  lemma ReadKeepsRequests(nextScanId: ScanId, scans: map<ScanId, ScanState>, requests: seq<Request>, request: Request)
    requires ScanRequestsAgree(nextScanId, scans, requests) && request.task.Scan? && request.task.scanId == nextScanId
    ensures ScanRequestsAgree(nextScanId + 1, scans[nextScanId := Waiting(request.task.frameId)], requests + [request])
  {
    assert nextScanId !in scans;
  }

  lemma ReadKeepsErrors(pending: map<MessageId, Task>, scans: map<ScanId, ScanState>, responses: seq<Response>,
                        id: MessageId, task: Task, scan: ScanId, state: ScanState)
    requires ErrorsAgree(pending, scans, responses) && ResponsesFit(pending, responses) && id !in pending
    requires scan !in scans
    ensures ErrorsAgree(pending[id := task], scans[scan := state], responses)
  {
    assert forall i | 0 <= i < |responses| && Settles(responses[i]) :: responses[i].requestId in pending;
  }

  lemma StreamProgress(stream: seq<Buffer>, got: seq<Buffer>)
    requires got <= stream
    ensures var events := MessageEvents(stream[|got|..]) + [Finish];
      if |got| < |stream| then
        && events[0] == Message(stream[|got|]) && events[1..] == MessageEvents(stream[|got| + 1..]) + [Finish]
        && got + [stream[|got|]] <= stream
      else events == [Finish] && got == stream
  {
  }

  lemma FirstEvent(scan: ScanId, responses: seq<Response>)
    requires responses != []
    ensures match responses[0]
      case ScanMessage(_, sid, buffer) =>
        sid == scan ==> EventsOf(scan, responses) == [Message(buffer)] + EventsOf(scan, responses[1..])
      case ScanFinish(_, sid) => sid == scan ==> EventsOf(scan, responses) == [Finish] + EventsOf(scan, responses[1..])
      case _ => EventsOf(scan, responses) == EventsOf(scan, responses[1..])
    ensures !Settles(responses[0]) && responses[0].scanId != scan ==>
              EventsOf(scan, responses) == EventsOf(scan, responses[1..])
  {
    var rest := EventsOf(scan, responses[1..]);
    assert [] + rest == rest;
    match responses[0]
    case ScanMessage(_, sid, buffer) =>
      assert EventsOf(scan, responses) == (if sid == scan then [Message(buffer)] else []) + rest;
    case ScanFinish(_, sid) => assert EventsOf(scan, responses) == (if sid == scan then [Finish] else []) + rest;
    case _ => assert EventsOf(scan, responses) == [] + rest;
  }

  /** One scan, when the first response on its way is received. */
  lemma ScanReceives(scan: ScanId, state: ScanState, f: Front, responses: seq<Response>)
    requires responses != [] && !Settles(responses[0]) && responses[0].scanId == scan
    requires ScanAgrees(state, Lookup(f.activeScans, scan), Lookup(f.tables, scan), EventsOf(scan, responses))
    ensures var f' := ReceivedBy(f, responses[0]);
              ScanAgrees(state, Lookup(f'.activeScans, scan), Lookup(f'.tables, scan), EventsOf(scan, responses[1..]))
  {
    var events := EventsOf(scan, responses);
    FirstEvent(scan, responses);
    assert events[1..] == EventsOf(scan, responses[1..]);
    if state.Sent? && scan in f.activeScans {
      StreamProgress(StreamOf(state.frame), f.activeScans[scan]);
    }
  }

  lemma OtherScanStays(scan: ScanId, state: ScanState, f: Front, responses: seq<Response>)
    requires responses != [] && (Settles(responses[0]) || responses[0].scanId != scan)
    requires ScanAgrees(state, Lookup(f.activeScans, scan), Lookup(f.tables, scan), EventsOf(scan, responses))
    requires Settles(responses[0]) && responses[0].requestId in f.pending ==>
               var task := f.pending[responses[0].requestId];
               && Fits(task, responses[0])
               && (task.Scan? && task.scanId == scan && responses[0].Failed? ==> state.Broken?)
    ensures var f' := ReceivedBy(f, responses[0]);
              ScanAgrees(state, Lookup(f'.activeScans, scan), Lookup(f'.tables, scan), EventsOf(scan, responses[1..]))
  {
    FirstEvent(scan, responses);
  }

  lemma ReceiveKeepsScans(s: System)
    requires Invariant(s) && s.responses != []
    ensures var t := Next(s, Receive);
      ScansAgree(t.front, t.scans, t.responses) && ErrorsAgree(t.front.pending, t.scans, t.responses)
          && t.front.nextScanId == s.front.nextScanId
  {
    var f, t := s.front, Next(s, Receive);
    forall scan: ScanId
      ensures if scan in t.scans then
                ScanAgrees(t.scans[scan], Lookup(t.front.activeScans, scan), Lookup(t.front.tables, scan),
                    EventsOf(scan, t.responses))
        else EventsOf(scan, t.responses) == [] && scan !in t.front.activeScans && scan !in t.front.tables
    {
      assert EventsOf(scan, s.responses) == [] || scan in s.scans;
      if scan in s.scans {
        if Settles(s.responses[0]) || s.responses[0].scanId != scan {
          OtherScanStays(scan, s.scans[scan], f, s.responses);
        } else {
          ScanReceives(scan, s.scans[scan], f, s.responses);
        }
      }
    }
  }

  lemma StepKeepsRequested(s: System, a: Action)
    requires WaitingRequested(s.scans, s.requests) && Enabled(s, a)
    ensures WaitingRequested(Next(s, a).scans, Next(s, a).requests)
  {
    match a
    case Post(task) => MoreRequested(s.scans, s.requests, Request(s.front.nextMessageId, task));
    case Read(frameId) =>
      MoreRequested(s.scans, s.requests, Request(s.front.nextMessageId, Scan(frameId, s.front.nextScanId)));
    case Handle(c) => FewerRequested(s.scans, s.requests, Next(s, a).scans);
    case Continue(_, _) =>
    case Receive =>
  }

  lemma StepKeeps(s: System, a: Action)
    requires Invariant(s) && Enabled(s, a)
    ensures Invariant(Next(s, a))
  {
    StepKeepsTasks(s, a);
    StepKeepsRequested(s, a);
    match a
    case Post(task) => PostKeepsScans(s, task);
    case Read(frameId) =>
      var request := Request(s.front.nextMessageId, Scan(frameId, s.front.nextScanId));
      ReadKeepsScans(s, frameId);
      ReadKeepsRequests(s.front.nextScanId, s.scans, s.requests, request);
      ReadKeepsErrors(s.front.pending, s.scans, s.responses, request.messageId, request.task, s.front.nextScanId,
          Waiting(frameId));
    case Handle(c) =>
      HandleKeepsScans(s, c);
      HandleKeepsScanRequests(s, c);
      HandleKeepsErrors(s, c);
    case Continue(id, c) =>
      ContinueKeepsScans(s, id, c);
      ContinueKeepsErrors(s, id, c);
    case Receive => ReceiveKeepsScans(s);
  }

  // ----- runs -----

  ghost predicate IsRun(s: System, actions: seq<Action>, t: System)
    decreases |actions|
  {
    if actions == [] then t == s else Enabled(s, actions[0]) && IsRun(Next(s, actions[0]), actions[1..], t)
  }

  lemma {:induction false} RunKeeps(s: System, actions: seq<Action>, t: System)
    requires Invariant(s) && IsRun(s, actions, t)
    ensures Invariant(t)
    decreases |actions|
  {
    if actions != [] {
      StepKeeps(s, actions[0]);
      RunKeeps(Next(s, actions[0]), actions[1..], t);
    }
  }

  ghost predicate Reachable(t: System) { exists actions :: IsRun(Start(), actions, t) }

  lemma ReachableKeeps(t: System)
    requires Reachable(t)
    ensures Invariant(t)
  {
    var actions :| IsRun(Start(), actions, t);
    assert Invariant(Start());
    RunKeeps(Start(), actions, t);
  }

  /** Wherever the messages are: a task is pending exactly when its request is on its way, or the
      worker suspended it, or one settling response is on its way, and it is in one of these places
      only. Every settling response finds its task, and its kind fits the task. */
  lemma PendingTasksAreSomewhere(s: System, id: MessageId)
    requires Reachable(s)
    ensures id in s.front.pending <==> Places(s.requests, s.worker.suspended.Keys, s.responses, id) == 1
    ensures Places(s.requests, s.worker.suspended.Keys, s.responses, id) <= 1
    ensures forall r | r in s.responses && Settles(r) ::
              r.requestId in s.front.pending && Fits(s.front.pending[r.requestId], r)
  {
    ReachableKeeps(s);
    assert Places(s.requests, s.worker.suspended.Keys, s.responses, id) == if id in s.front.pending.Keys then 1 else 0;
    forall r | r in s.responses && Settles(r)
      ensures r.requestId in s.front.pending && Fits(s.front.pending[r.requestId], r)
    {
      var i :| 0 <= i < |s.responses| && s.responses[i] == r;
    }
  }

  /** A task is settled at most once, with a kind it accepts unless it is rejected; the only tasks
      rejected for an unexpected response are pings, and no ping is ever resolved. */
  lemma {:induction false} SettledForGood(s: System, actions: seq<Action>, t: System, id: MessageId)
    requires Invariant(s) && IsRun(s, actions, t) && id in s.front.settled
    ensures id in t.front.settled && t.front.settled[id] == s.front.settled[id]
    ensures SettledWell(s.front.settled[id]) && id !in t.front.pending
    decreases |actions|
  {
    if actions != [] {
      StepKeeps(s, actions[0]);
      SettledForGood(Next(s, actions[0]), actions[1..], t, id);
    }
  }

  /** A table that was read is exactly the stream of the frame that the worker scanned. When nothing
      is on its way, every scan has resolved, except those whose scan broke off. */
  lemma TablesAreComplete(s: System, scan: ScanId)
    requires Reachable(s) && scan in s.scans
    ensures scan in s.front.tables ==> s.scans[scan].Sent? && s.front.tables[scan] == StreamOf(s.scans[scan].frame)
    ensures s.requests == [] && s.responses == [] && !s.scans[scan].Broken? ==> scan in s.front.tables
  {
    ReachableKeeps(s);
    assert ScanAgrees(s.scans[scan], Lookup(s.front.activeScans, scan), Lookup(s.front.tables, scan),
             EventsOf(scan, s.responses));
  }

  lemma HandledScanStays(s: System, a: Action, scan: ScanId)
    requires Invariant(s) && Enabled(s, a) && scan in s.scans && !s.scans[scan].Waiting?
    ensures var t := Next(s, a); scan in t.scans && t.scans[scan] == s.scans[scan]
  {
    if a.Handle? && s.requests[0].task.Scan? {
      assert s.requests[0].task.scanId in s.scans && s.scans[s.requests[0].task.scanId].Waiting?;
    }
  }

  lemma {:induction false} HandledScanStaysOnRuns(s: System, actions: seq<Action>, t: System, scan: ScanId)
    requires Invariant(s) && IsRun(s, actions, t) && scan in s.scans && !s.scans[scan].Waiting?
    ensures Invariant(t) && scan in t.scans && t.scans[scan] == s.scans[scan]
    decreases |actions|
  {
    if actions != [] {
      StepKeeps(s, actions[0]);
      HandledScanStays(s, actions[0], scan);
      HandledScanStaysOnRuns(Next(s, actions[0]), actions[1..], t, scan);
    }
  }

  /** Handling a scan request decides it for good, whatever happens later and to other scans: a table
      is only ever the whole stream of the frame that was registered then, and once all responses are
      received there is a table if and only if that read got to the end. */
  lemma HandlingDecidesScan(s: System, c: Choice, actions: seq<Action>, t: System)
    requires Invariant(s) && s.requests != [] && s.requests[0].task.Scan? && IsRun(Next(s, Handle(c)), actions, t)
    ensures var task := s.requests[0].task;
      && (task.scanId in t.front.tables ==>
            ReadsToEnd(s.worker, task.frameId, c)
            && t.front.tables[task.scanId] == StreamOf(s.worker.frames[task.frameId]))
      && (t.responses == [] ==> (task.scanId in t.front.tables <==> ReadsToEnd(s.worker, task.frameId, c)))
  {
    var scan := s.requests[0].task.scanId;
    StepKeeps(s, Handle(c));
    HandledScanStaysOnRuns(Next(s, Handle(c)), actions, t, scan);
    assert ScanAgrees(t.scans[scan], Lookup(t.front.activeScans, scan), Lookup(t.front.tables, scan),
                      EventsOf(scan, t.responses));
  }

  /** The run handles the request of the scan, at a moment when `frame` is registered under the id that
      was asked for, and reads it to the end. */
  ghost predicate ReadsFrame(s: System, actions: seq<Action>, scan: ScanId, frameId: FrameId, frame: Frame)
    decreases |actions|
  {
    && actions != [] && Enabled(s, actions[0])
    && if actions[0].Handle? && RequestsScan(s.requests[0], scan) then
         ReadsToEnd(s.worker, frameId, actions[0].choice) && s.worker.frames[frameId] == frame
       else ReadsFrame(Next(s, actions[0]), actions[1..], scan, frameId, frame)
  }

  /** Reading a table resolves, once nothing is on its way, if and only if its request was handled while
      the frame was registered and that read got to the end; the table is then the frame's schema and
      one buffer per record batch in order. Nothing else that is in flight matters. */
  lemma {:induction false} ReadTableResolves(s: System, actions: seq<Action>, t: System, scan: ScanId, frameId: FrameId)
    requires Invariant(s) && IsRun(s, actions, t) && scan in s.scans && s.scans[scan] == Waiting(frameId)
    ensures scan in t.front.tables ==>
              exists frame :: ReadsFrame(s, actions, scan, frameId, frame) && t.front.tables[scan] == StreamOf(frame)
    ensures t.requests == [] && t.responses == [] ==>
              forall frame | ReadsFrame(s, actions, scan, frameId, frame) ::
                scan in t.front.tables && t.front.tables[scan] == StreamOf(frame)
    decreases |actions|
  {
    if actions == [] {
      assert ScanAgrees(s.scans[scan], Lookup(s.front.activeScans, scan), Lookup(s.front.tables, scan),
                        EventsOf(scan, s.responses));
    } else {
      var next := Next(s, actions[0]);
      StepKeeps(s, actions[0]);
      if actions[0].Handle? && RequestsScan(s.requests[0], scan) {
        assert s.scans[scan] == Waiting(s.requests[0].task.frameId);
        HandlingDecidesScan(s, actions[0].choice, actions[1..], t);
        if scan in t.front.tables { assert ReadsFrame(s, actions, scan, frameId, s.worker.frames[frameId]); }
      } else {
        WaitingScanStays(s, actions[0], scan);
        ReadTableResolves(next, actions[1..], t, scan, frameId);
        assert forall frame :: ReadsFrame(s, actions, scan, frameId, frame)
                          <==> ReadsFrame(next, actions[1..], scan, frameId, frame);
      }
    }
  }

  lemma WaitingScanStays(s: System, a: Action, scan: ScanId)
    requires Invariant(s) && Enabled(s, a) && scan in s.scans && !(a.Handle? && RequestsScan(s.requests[0], scan))
    ensures scan in Next(s, a).scans && Next(s, a).scans[scan] == s.scans[scan]
  {
  }

  /** A read that never resolves: the frame does not exist. The request is answered, nothing is on its
      way any more, and there is no table. */
  lemma MissingFrameIsNeverRead(c: Choice)
    ensures var t := System(Front(1, map[], 1, map[], map[0 := Settlement(Scan(0, 0), Rejected)], map[]), [],
                            Worker(0, {}, map[], map[]), [], map[0 := Broken]);
      IsRun(Start(), [Read(0), Handle(c), Receive], t) && 0 !in t.front.tables
  {
    var actions := [Read(0), Handle(c), Receive];
    var s1 := Next(Start(), Read(0));
    var s2 := Next(s1, Handle(c));
    assert actions[1..] == [Handle(c), Receive] && actions[1..][1..] == [Receive] && [Receive][1..] == [];
    assert s2.responses == [Failed(0)] && s2.requests == [];
    var t := Next(s2, Receive);
    assert t.front.pending == map[] && t.front.activeScans == map[];
    assert IsRun(s2, [Receive], t) && IsRun(s1, [Handle(c), Receive], t);
  }

  /** A ping that the worker answered is rejected: no kind of response resolves it. */
  lemma PingIsRejected(c: Choice)
    ensures var t := System(Front(1, map[], 0, map[], map[0 := Settlement(Ping, Unexpected)], map[]), [],
                            Worker(0, {}, map[], map[]), [], map[]);
      IsRun(Start(), [Post(Ping), Handle(c), Receive], t)
  {
    var actions := [Post(Ping), Handle(c), Receive];
    var s1 := Next(Start(), Post(Ping));
    var s2 := Next(s1, Handle(c));
    assert actions[1..] == [Handle(c), Receive] && actions[1..][1..] == [Receive] && [Receive][1..] == [];
    assert s2.responses == [Ok(0)] && s2.requests == [];
    var t := Next(s2, Receive);
    assert t.front.pending == map[];
    assert IsRun(s2, [Receive], t) && IsRun(s1, [Handle(c), Receive], t);
  }

  // ----- frame ids -----

  predicate Targets(w: Worker, id: MessageId, frameId: FrameId) {
    id in w.suspended && w.suspended[id] == Transforming(frameId)
  }

  /** Frame ids are handed out once: the frame that a transform is going to produce is not registered,
      is not being ingested, and is not produced by another transform. */
  ghost predicate FrameIdsAgree(w: Worker) {
    && (forall f | f in w.builders :: f < w.nextFrameId)
    && (forall f | f in w.frames :: f < w.nextFrameId)
    && (forall id: MessageId, f: FrameId | Targets(w, id, f) :: f < w.nextFrameId && f !in w.frames && f !in w.builders)
    && (forall i: MessageId, j: MessageId, f: FrameId | Targets(w, i, f) && Targets(w, j, f) :: i == j)
  }

  lemma HandledKeepsFrameIds(w: Worker, request: Request, c: Choice)
    requires FrameIdsAgree(w) && request.messageId !in w.suspended
    ensures FrameIdsAgree(Handled(w, request, c).0)
  {
    var w' := Handled(w, request, c).0;
    assert forall id: MessageId, f: FrameId | Targets(w', id, f) && id != request.messageId :: Targets(w, id, f);
  }

  /** A transform that continues adds its frame under an unused id and leaves all others alone. */
  lemma ContinuedAddsFrame(w: Worker, id: MessageId, c: Choice)
    requires FrameIdsAgree(w) && id in w.suspended
    ensures FrameIdsAgree(Continued(w, id, c).0)
    ensures forall f | f in w.frames ::
              f in Continued(w, id, c).0.frames && Continued(w, id, c).0.frames[f] == w.frames[f]
  {
    var w' := Continued(w, id, c).0;
    assert forall i: MessageId, f: FrameId | Targets(w', i, f) :: Targets(w, i, f) && i != id;
    if w.suspended[id].Transforming? { assert Targets(w, id, w.suspended[id].target); }
  }

  lemma StepKeepsFrameIds(s: System, a: Action)
    requires Invariant(s) && FrameIdsAgree(s.worker) && Enabled(s, a)
    ensures FrameIdsAgree(Next(s, a).worker)
  {
    match a
    case Handle(c) =>
      TakenOnce(s.front.pending.Keys, s.requests, s.worker.suspended.Keys, s.responses);
      HandledKeepsFrameIds(s.worker, s.requests[0], c);
    case Continue(id, c) => ContinuedAddsFrame(s.worker, id, c);
    case _ =>
  }

  lemma {:induction false} RunKeepsFrameIds(s: System, actions: seq<Action>, t: System)
    requires Invariant(s) && FrameIdsAgree(s.worker) && IsRun(s, actions, t)
    ensures FrameIdsAgree(t.worker)
    decreases |actions|
  {
    if actions != [] {
      StepKeeps(s, actions[0]);
      StepKeepsFrameIds(s, actions[0]);
      RunKeepsFrameIds(Next(s, actions[0]), actions[1..], t);
    }
  }

  /** In every reachable state the ids of frames, of ingests and of frames still being computed are
      apart, so that a computed frame never replaces another one. */
  lemma FramesNeverCollide(s: System)
    requires Reachable(s)
    ensures FrameIdsAgree(s.worker)
  {
    var actions :| IsRun(Start(), actions, s);
    assert Invariant(Start());
    RunKeepsFrameIds(Start(), actions, s);
  }
}
