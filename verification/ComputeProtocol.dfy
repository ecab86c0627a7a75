/** The compute worker and its bindings: two parties that exchange requests and responses over two
    channels. The worker may suspend a request and answer others first; a scan sends several
    messages before the response that settles its task. */
module ComputeProtocol {
  import opened Common
  import opened IpcStream

  type MessageId = nat
  type FrameId = nat
  type ScanId = nat

  datatype Task =
    | Ping
    | Instantiate
    | Delete(frameId: FrameId)
    | FromIngest
    | IngestWrite(frameId: FrameId)
    | IngestFinish(frameId: FrameId)
    | Transform(frameId: FrameId, stats: Option<FrameId>)
    | Scan(frameId: FrameId, scanId: ScanId)

  datatype Request = Request(messageId: MessageId, task: Task)

  datatype Response =
    | Ok(requestId: MessageId)
    | Failed(requestId: MessageId)
    | NewFrame(requestId: MessageId, frameId: FrameId)
    | ScanMessage(requestId: MessageId, scanId: ScanId, buffer: Buffer)
    | ScanFinish(requestId: MessageId, scanId: ScanId)

  predicate Settles(r: Response) { r.Ok? || r.Failed? || r.NewFrame? }

  /** The kinds of response a task resolves with. No kind resolves a ping. */
  predicate Accepts(task: Task, r: Response) {
    match task
    case Ping => false
    case FromIngest => r.NewFrame?
    case Transform(_, _) => r.NewFrame?
    case _ => r.Ok?
  }

  // ----- the bindings -----

  datatype Outcome = Resolved(response: Response) | Rejected | Unexpected
  datatype Settlement = Settlement(task: Task, outcome: Outcome)

  /** The bindings, with the state of the promises they handed out. */
  datatype Front = Front(
    nextMessageId: MessageId,
    pending: map<MessageId, Task>,
    nextScanId: ScanId,
    activeScans: map<ScanId, seq<Buffer>>,
    settled: map<MessageId, Settlement>,
    tables: map<ScanId, seq<Buffer>>)

  function OutcomeOf(task: Task, r: Response): Outcome {
    if r.Failed? then Rejected else if Accepts(task, r) then Resolved(r) else Unexpected
  }

  function Posted(f: Front, task: Task): Front {
    f.(nextMessageId := f.nextMessageId + 1, pending := f.pending[f.nextMessageId := task])
  }

  function ScanStarted(f: Front, frameId: FrameId): Front {
    Posted(f.(nextScanId := f.nextScanId + 1, activeScans := f.activeScans[f.nextScanId := []]),
        Scan(frameId, f.nextScanId))
  }

  /** Settle the task of a response. A scan whose task is rejected is forgotten. */
  function SettledBy(f: Front, r: Response): Front {
    if r.requestId !in f.pending then f
    else
      var task := f.pending[r.requestId];
      var outcome := OutcomeOf(task, r);
      f.(pending := f.pending - {r.requestId},
         settled := f.settled[r.requestId := Settlement(task, outcome)],
         activeScans := if task.Scan? && !outcome.Resolved? then f.activeScans - {task.scanId} else f.activeScans)
  }

  function ReceivedBy(f: Front, r: Response): Front {
    match r
    case ScanMessage(_, scan, buffer) =>
      if scan !in f.activeScans then f
      else f.(activeScans := f.activeScans[scan := f.activeScans[scan] + [buffer]])
    case ScanFinish(_, scan) =>
      if scan !in f.activeScans then f
      else f.(activeScans := f.activeScans - {scan}, tables := f.tables[scan := f.activeScans[scan]])
    case _ => SettledBy(f, r)
  }

  class Bindings {
    var nextMessageId: MessageId
    var pending: map<MessageId, Task>
    var nextScanId: ScanId
    var activeScans: map<ScanId, seq<Buffer>>
    var settled: map<MessageId, Settlement>
    var tables: map<ScanId, seq<Buffer>>

    function State(): Front
      reads this
    {
      Front(nextMessageId, pending, nextScanId, activeScans, settled, tables)
    }

    constructor ()
      ensures State() == Front(0, map[], 0, map[], map[], map[])
    {
      nextMessageId, nextScanId := 0, 0;
      pending, activeScans, settled, tables := map[], map[], map[], map[];
    }

    method PostTask(task: Task) returns (request: Request)
      modifies this
      ensures State() == Posted(old(State()), task) && request == Request(old(nextMessageId), task)
    {
      var messageId := nextMessageId;
      nextMessageId := nextMessageId + 1;
      pending := pending[messageId := task];
      return Request(messageId, task);
    }

    method ReadTable(frameId: FrameId) returns (request: Request)
      modifies this
      ensures State() == ScanStarted(old(State()), frameId)
      ensures request == Request(old(nextMessageId), Scan(frameId, old(nextScanId)))
    {
      var scanId := nextScanId;
      nextScanId := nextScanId + 1;
      activeScans := activeScans[scanId := []];
      request := PostTask(Scan(frameId, scanId));
    }

    method OnMessage(r: Response)
      modifies this
      ensures State() == ReceivedBy(old(State()), r)
    {
      match r {
        case ScanMessage(_, scan, buffer) =>
          if scan in activeScans {
            activeScans := activeScans[scan := activeScans[scan] + [buffer]];
          }
          return;
        case ScanFinish(_, scan) =>
          if scan in activeScans {
            tables := tables[scan := activeScans[scan]];
            activeScans := activeScans - {scan};
          }
          return;
        case _ =>
      }
      if r.requestId !in pending {
        return;
      }
      var task := pending[r.requestId];
      pending := pending - {r.requestId};
      var outcome;
      if r.Failed? {
        outcome := Rejected;
      } else {
        outcome := Unexpected;
        match task {
          case Ping =>
          case FromIngest => if r.NewFrame? { outcome := Resolved(r); }
          case Transform(_, _) => if r.NewFrame? { outcome := Resolved(r); }
          case _ => if r.Ok? { outcome := Resolved(r); }
        }
      }
      settled := settled[r.requestId := Settlement(task, outcome)];
      if task.Scan? && !outcome.Resolved? {
        activeScans := activeScans - {task.scanId};
      }
    }
  }

  // ----- the worker -----

  datatype Suspended = Instantiating | Transforming(target: FrameId)

  datatype Worker = Worker(nextFrameId: FrameId, builders: set<FrameId>, frames: map<FrameId, Frame>,
      suspended: map<MessageId, Suspended>)

  /** What the calls into the compute module do: whether they succeed, how many buffers a failing
      scan sends first, and the frame that comes out. */
  datatype Choice = Choice(succeeds: bool, sent: nat, frame: Frame)

  function Messages(id: MessageId, scan: ScanId, buffers: seq<Buffer>): seq<Response> {
    seq(|buffers|, i requires 0 <= i < |buffers| => ScanMessage(id, scan, buffers[i]))
  }

  /** A scan posts the buffers, the end of the scan and the settling response at once; when reading
      fails, the buffers so far and an error. */
  function ScanResponses(id: MessageId, scan: ScanId, frame: Frame, c: Choice): seq<Response> {
    var stream := StreamOf(frame);
    if c.sent >= |stream| then Messages(id, scan, stream) + [ScanFinish(id, scan), Ok(id)]
    else Messages(id, scan, stream[..c.sent]) + [Failed(id)]
  }

  function Answer(id: MessageId, succeeds: bool): seq<Response> { [if succeeds then Ok(id) else Failed(id)] }

  function Handled(w: Worker, request: Request, c: Choice): (Worker, seq<Response>) {
    var id := request.messageId;
    match request.task
    case Ping => (w, [Ok(id)])
    case Instantiate => (w.(suspended := w.suspended[id := Instantiating]), [])
    case FromIngest =>
      var w' := w.(nextFrameId := w.nextFrameId + 1);
      if c.succeeds then (w'.(builders := w.builders + {w.nextFrameId}), [NewFrame(id, w.nextFrameId)])
          else (w', [Failed(id)])
    case IngestWrite(frame) => (w, Answer(id, frame in w.builders && c.succeeds))
    case IngestFinish(frame) =>
      if frame in w.builders && c.succeeds then (w.(frames := w.frames[frame := c.frame]), [Ok(id)])
          else (w, [Failed(id)])
    case Scan(frame, scan) =>
      (w, if frame in w.frames then ScanResponses(id, scan, w.frames[frame], c) else [Failed(id)])
    case Delete(frame) => (w.(frames := w.frames - {frame}), Answer(id, frame !in w.frames || c.succeeds))
    case Transform(frame, stats) =>
      if frame !in w.frames then (w, [Failed(id)])
      else
        var w' := w.(nextFrameId := w.nextFrameId + 1);
        if (stats.Some? && stats.value !in w.frames) || !c.succeeds then (w', [Failed(id)])
        else (w'.(suspended := w.suspended[id := Transforming(w.nextFrameId)]), [])
  }

  /** A suspended request continues. */
  function Continued(w: Worker, id: MessageId, c: Choice): (Worker, seq<Response>)
    requires id in w.suspended
  {
    var w' := w.(suspended := w.suspended - {id});
    match w.suspended[id]
    case Instantiating => (w', Answer(id, c.succeeds))
    case Transforming(target) =>
      if c.succeeds then (w'.(frames := w.frames[target := c.frame]), [NewFrame(id, target)]) else (w', [Failed(id)])
  }

  class ComputeWorker {
    var nextFrameId: FrameId
    var builders: set<FrameId>
    var frames: map<FrameId, Frame>
    var suspended: map<MessageId, Suspended>

    function State(): Worker
      reads this
    {
      Worker(nextFrameId, builders, frames, suspended)
    }

    /** Data frames are built with one partition, which may be empty. */
    ghost predicate Valid()
      reads this
    {
      forall f | f in frames :: frames[f].partitions != []
    }

    constructor ()
      ensures State() == Worker(0, {}, map[], map[]) && Valid()
    {
      nextFrameId, builders, frames, suspended := 0, {}, map[], map[];
    }

    method OnMessage(request: Request, c: Choice) returns (responses: seq<Response>)
      requires Valid() && c.frame.partitions != []
      modifies this
      ensures (State(), responses) == Handled(old(State()), request, c) && Valid()
    {
      var id := request.messageId;
      match request.task {
        case Ping => responses := [Ok(id)];
        case Instantiate =>
          suspended := suspended[id := Instantiating];
          responses := [];
        case FromIngest =>
          var frameId := nextFrameId;
          nextFrameId := nextFrameId + 1;
          if !c.succeeds {
            return [Failed(id)];
          }
          builders := builders + {frameId};
          responses := [NewFrame(id, frameId)];
        case IngestWrite(frame) =>
          if frame !in builders {
            return [Failed(id)];
          }
          responses := Answer(id, c.succeeds);
        case IngestFinish(frame) =>
          if frame !in builders || !c.succeeds {
            return [Failed(id)];
          }
          frames := frames[frame := c.frame];
          responses := [Ok(id)];
        case Scan(frame, scan) =>
          if frame !in frames {
            return [Failed(id)];
          }
          responses := PostScan(id, scan, frames[frame], c);
        case Delete(frame) =>
          var known := frame in frames;
          frames := frames - {frame};
          responses := Answer(id, !known || c.succeeds);
        case Transform(frame, stats) =>
          if frame !in frames {
            return [Failed(id)];
          }
          var target := nextFrameId;
          nextFrameId := nextFrameId + 1;
          if (stats.Some? && stats.value !in frames) || !c.succeeds {
            return [Failed(id)];
          }
          suspended := suspended[id := Transforming(target)];
          responses := [];
      }
    }

    method Resume(id: MessageId, c: Choice) returns (responses: seq<Response>)
      requires Valid() && c.frame.partitions != [] && id in suspended
      modifies this
      ensures (State(), responses) == Continued(old(State()), id, c) && Valid()
    {
      var kind := suspended[id];
      suspended := suspended - {id};
      match kind {
        case Instantiating => responses := Answer(id, c.succeeds);
        case Transforming(target) =>
          if !c.succeeds {
            return [Failed(id)];
          }
          frames := frames[target := c.frame];
          responses := [NewFrame(id, target)];
      }
    }
  }

  /** The scan loop: post one message per buffer until the stream ends or fails. */
  method PostScan(id: MessageId, scan: ScanId, frame: Frame, c: Choice) returns (responses: seq<Response>)
    requires frame.partitions != []
    ensures responses == ScanResponses(id, scan, frame, c)
  {
    responses := [];
    var stream := new DataFrameIpcStream();
    while true
      invariant fresh(stream) && stream.Valid(frame) && stream.Position(frame) == |responses| <= |StreamOf(frame)|
      invariant responses == Messages(id, scan, StreamOf(frame)[..|responses|]) && |responses| <= c.sent
      decreases |StreamOf(frame)| - |responses|
    {
      var next := stream.Next(frame, |responses| < c.sent);
      match next {
        case Some(buffer) => responses := responses + [ScanMessage(id, scan, buffer)];
        case Done => return responses + [ScanFinish(id, scan), Ok(id)];
        case Error => return responses + [Failed(id)];
      }
    }
  }
}
