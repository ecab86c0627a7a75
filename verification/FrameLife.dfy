/** The life of a data frame over runs of the worker protocol, from its ingest or its transform to its
    deletion, and how every answer reaches the task it belongs to. */
module FrameLife {
  import opened Common
  import opened IpcStream
  import opened ComputeProtocol
  import opened ComputeRuns

  // ----- what handling a request does -----

  /** The frame is registered under the id. */
  ghost predicate HasFrame(s: System, f: FrameId, frame: Frame) {
    f in s.worker.frames && s.worker.frames[f] == frame
  }

  /** The request was answered with this response, and no other. */
  ghost predicate Answered(s: System, t: System, r: Response) { t.responses == s.responses + [r] }

  /** An ingest starts under an id that nothing else has, or fails. */
  lemma IngestStarts(s: System, c: Choice)
    requires FrameIdsAgree(s.worker) && s.requests != [] && s.requests[0].task == FromIngest
    ensures var t, id := Next(s, Handle(c)), s.requests[0].messageId;
      && t.worker.frames == s.worker.frames && t.worker.suspended == s.worker.suspended
      && if c.succeeds then
           exists f :: Answered(s, t, NewFrame(id, f)) && t.worker.builders == s.worker.builders + {f}
             && f !in s.worker.builders && f !in s.worker.frames
         else Answered(s, t, Failed(id)) && t.worker.builders == s.worker.builders
  {
    var t := Next(s, Handle(c));
    if c.succeeds { assert Answered(s, t, NewFrame(s.requests[0].messageId, s.worker.nextFrameId)); }
  }

  /** Writing to an ingest changes no frame; it succeeds only for an ingest that was started. */
  lemma IngestWrites(s: System, c: Choice)
    requires s.requests != [] && s.requests[0].task.IngestWrite?
    ensures var t, id := Next(s, Handle(c)), s.requests[0].messageId;
      && t.worker == s.worker
      && Answered(s, t, if s.requests[0].task.frameId in s.worker.builders && c.succeeds then Ok(id) else Failed(id))
  {
  }

  /** Finishing an ingest is answered Ok exactly if it was started and can be finished, and then its frame
      is registered; otherwise nothing changes. */
  lemma IngestFinishes(s: System, c: Choice)
    requires s.requests != [] && s.requests[0].task.IngestFinish?
    ensures var t, id, f := Next(s, Handle(c)), s.requests[0].messageId, s.requests[0].task.frameId;
      && t.worker.builders == s.worker.builders && t.worker.suspended == s.worker.suspended
      && (Answered(s, t, Ok(id)) || Answered(s, t, Failed(id)))
      && (Answered(s, t, Ok(id)) <==> f in s.worker.builders && c.succeeds)
      && (Answered(s, t, Ok(id)) ==> HasFrame(t, f, c.frame))
      && (Answered(s, t, Failed(id)) ==> t.worker == s.worker)
  {
    var t, id := Next(s, Handle(c)), s.requests[0].messageId;
    assert t.responses[|s.responses|] == Ok(id) || t.responses[|s.responses|] == Failed(id);
  }

  /** A handled delete removes the frame, and no other; it fails only for a frame that was there. */
  lemma DeleteRemoves(s: System, c: Choice)
    requires s.requests != [] && s.requests[0].task.Delete?
    ensures var t, id, f := Next(s, Handle(c)), s.requests[0].messageId, s.requests[0].task.frameId;
      && f !in t.worker.frames && (forall g, frame | g != f :: HasFrame(s, g, frame) <==> HasFrame(t, g, frame))
      && t.worker.builders == s.worker.builders && t.worker.suspended == s.worker.suspended
      && Answered(s, t, if f in s.worker.frames && !c.succeeds then Failed(id) else Ok(id))
  {
  }

  /** A transform is suspended only if its frame and its statistics exist; it gets an id that nothing else
      has. Otherwise it fails at once. No frame changes. */
  lemma TransformStarts(s: System, c: Choice)
    requires FrameIdsAgree(s.worker) && s.requests != [] && s.requests[0].task.Transform?
    ensures var t, id, task := Next(s, Handle(c)), s.requests[0].messageId, s.requests[0].task;
      && t.worker.frames == s.worker.frames && t.worker.builders == s.worker.builders
      && if task.frameId in s.worker.frames && (task.stats.Some? ==> task.stats.value in s.worker.frames)
           && c.succeeds then
           exists f :: t.worker.suspended == s.worker.suspended[id := Transforming(f)] && t.responses == s.responses
             && f !in s.worker.builders && f !in s.worker.frames
             && forall i: MessageId :: !Targets(s.worker, i, f)
         else Answered(s, t, Failed(id)) && t.worker.suspended == s.worker.suspended
  {
    var t, id, task := Next(s, Handle(c)), s.requests[0].messageId, s.requests[0].task;
    if task.frameId in s.worker.frames && (task.stats.Some? ==> task.stats.value in s.worker.frames) && c.succeeds {
      assert t.worker.suspended == s.worker.suspended[id := Transforming(s.worker.nextFrameId)];
      assert s.responses + [] == s.responses;
    }
  }

  /** A suspended transform that continues is answered with the frame it registers, or fails. */
  lemma TransformEnds(s: System, id: MessageId, c: Choice)
    requires id in s.worker.suspended && s.worker.suspended[id].Transforming?
    ensures var t, f := Next(s, Continue(id, c)), s.worker.suspended[id].target;
      && t.worker.suspended == s.worker.suspended - {id} && t.worker.builders == s.worker.builders
      && if c.succeeds then Answered(s, t, NewFrame(id, f)) && HasFrame(t, f, c.frame)
         else Answered(s, t, Failed(id)) && t.worker.frames == s.worker.frames
  {
  }

  /** Instantiating is suspended, and answered when it continues; a ping is answered at once. Neither
      changes a frame. */
  lemma InstantiateAndPing(s: System, c: Choice)
    requires s.requests != [] && (s.requests[0].task.Instantiate? || s.requests[0].task.Ping?)
    ensures var t, id := Next(s, Handle(c)), s.requests[0].messageId;
      && t.worker.frames == s.worker.frames && t.worker.builders == s.worker.builders
      && if s.requests[0].task.Ping? then Answered(s, t, Ok(id)) && t.worker == s.worker
         else t.responses == s.responses && t.worker.suspended == s.worker.suspended[id := Instantiating]
  {
    assert s.responses + [] == s.responses;
  }

  lemma InstantiateEnds(s: System, id: MessageId, c: Choice)
    requires id in s.worker.suspended && s.worker.suspended[id].Instantiating?
    ensures var t := Next(s, Continue(id, c));
      && t.worker == s.worker.(suspended := s.worker.suspended - {id})
      && Answered(s, t, if c.succeeds then Ok(id) else Failed(id))
  {
  }

  // ----- frames over runs -----

  /** The request that is handled deletes the frame, or finishes the same ingest again. */
  predicate Concerns(s: System, a: Action, f: FrameId) {
    a.Handle? && s.requests != [] && (s.requests[0].task == Delete(f) || s.requests[0].task == IngestFinish(f))
  }

  /** No action of the run concerns the frame. */
  ghost predicate LeavesAlone(s: System, actions: seq<Action>, f: FrameId)
    decreases |actions|
  {
    actions != [] ==>
      Enabled(s, actions[0]) && !Concerns(s, actions[0], f) && LeavesAlone(Next(s, actions[0]), actions[1..], f)
  }

  lemma OthersKeepFrame(s: System, a: Action, f: FrameId, frame: Frame)
    requires FrameIdsAgree(s.worker) && Enabled(s, a) && !Concerns(s, a, f) && HasFrame(s, f, frame)
    ensures HasFrame(Next(s, a), f, frame)
  {
    if a.Continue? && s.worker.suspended[a.id].Transforming? {
      assert Targets(s.worker, a.id, s.worker.suspended[a.id].target);
    }
  }

  /** A registered frame stays until it is deleted or its ingest is finished again. */
  lemma {:induction false} FrameStays(s: System, actions: seq<Action>, t: System, f: FrameId, frame: Frame)
    requires Invariant(s) && FrameIdsAgree(s.worker) && IsRun(s, actions, t)
    requires HasFrame(s, f, frame) && LeavesAlone(s, actions, f)
    ensures Invariant(t) && FrameIdsAgree(t.worker) && HasFrame(t, f, frame)
    decreases |actions|
  {
    if actions != [] {
      StepKeeps(s, actions[0]);
      StepKeepsFrameIds(s, actions[0]);
      OthersKeepFrame(s, actions[0], f, frame);
      FrameStays(Next(s, actions[0]), actions[1..], t, f, frame);
    }
  }

  /** No frame has the id, and none will get it from a transform. */
  ghost predicate Gone(s: System, f: FrameId) {
    f !in s.worker.frames && f < s.worker.nextFrameId && forall i: MessageId :: !Targets(s.worker, i, f)
  }

  lemma OthersKeepGone(s: System, a: Action, f: FrameId)
    requires Enabled(s, a) && !Concerns(s, a, f) && Gone(s, f)
    ensures Gone(Next(s, a), f)
  {
    var t := Next(s, a);
    if a.Continue? { assert !Targets(s.worker, a.id, f); }
    forall i: MessageId ensures !Targets(t.worker, i, f) { assert !Targets(s.worker, i, f); }
  }

  lemma {:induction false} GoneStays(s: System, actions: seq<Action>, t: System, f: FrameId)
    requires IsRun(s, actions, t) && Gone(s, f) && LeavesAlone(s, actions, f)
    ensures Gone(t, f)
    decreases |actions|
  {
    if actions != [] {
      OthersKeepGone(s, actions[0], f);
      GoneStays(Next(s, actions[0]), actions[1..], t, f);
    }
  }

  /** A deleted frame stays away, unless its ingest is finished again. */
  lemma DeletedFrameStaysGone(s: System, c: Choice, actions: seq<Action>, t: System, f: FrameId)
    requires FrameIdsAgree(s.worker) && f in s.worker.frames
    requires s.requests != [] && s.requests[0].task == Delete(f)
    requires IsRun(Next(s, Handle(c)), actions, t) && LeavesAlone(Next(s, Handle(c)), actions, f)
    ensures f !in t.worker.frames
  {
    DeleteRemoves(s, c);
    var u := Next(s, Handle(c));
    forall i: MessageId ensures !Targets(u.worker, i, f) { assert !Targets(s.worker, i, f); }
    GoneStays(u, actions, t, f);
  }

  /** Until the request of the scan is handled, no action concerns the frame, and then the read gets to
      the end of the frame. */
  ghost predicate ReadUndisturbed(s: System, actions: seq<Action>, scan: ScanId, f: FrameId, frame: Frame)
    decreases |actions|
  {
    actions != [] ==>
      && Enabled(s, actions[0])
      && if actions[0].Handle? && RequestsScan(s.requests[0], scan) then
           actions[0].choice.sent >= |StreamOf(frame)|
         else !Concerns(s, actions[0], f) && ReadUndisturbed(Next(s, actions[0]), actions[1..], scan, f, frame)
  }

  lemma WaitingIsRequested(s: System, scan: ScanId)
    requires Invariant(s) && scan in s.scans && s.scans[scan].Waiting?
    ensures s.requests != []
  {
  }

  /** An undisturbed read of a registered frame reads that frame, once it is handled. */
  lemma {:induction false} UndisturbedReadsFrame(s: System, actions: seq<Action>, t: System, scan: ScanId,
                                                 f: FrameId, frame: Frame)
    requires Invariant(s) && FrameIdsAgree(s.worker) && IsRun(s, actions, t) && HasFrame(s, f, frame)
    requires scan in s.scans && s.scans[scan] == Waiting(f) && ReadUndisturbed(s, actions, scan, f, frame)
    requires t.requests == []
    ensures ReadsFrame(s, actions, scan, f, frame)
    decreases |actions|
  {
    if actions == [] {
      WaitingIsRequested(s, scan);
    } else if actions[0].Handle? && RequestsScan(s.requests[0], scan) {
      assert s.scans[scan] == Waiting(s.requests[0].task.frameId);
    } else {
      StepKeeps(s, actions[0]);
      StepKeepsFrameIds(s, actions[0]);
      OthersKeepFrame(s, actions[0], f, frame);
      WaitingScanStays(s, actions[0], scan);
      UndisturbedReadsFrame(Next(s, actions[0]), actions[1..], t, scan, f, frame);
    }
  }

  /** From the ingest to the read: after finishing an ingest was answered Ok, a read of the frame that is
      posted later, with no delete and no other finish of the ingest handled in between, and that gets to
      the end, resolves with exactly the stream of the finished frame. */
  lemma FinishedFrameIsRead(s: System, c: Choice, before: seq<Action>, u: System, after: seq<Action>, t: System,
                            f: FrameId)
    requires Invariant(s) && FrameIdsAgree(s.worker) && s.requests != [] && s.requests[0].task == IngestFinish(f)
    requires Answered(s, Next(s, Handle(c)), Ok(s.requests[0].messageId))
    requires IsRun(Next(s, Handle(c)), before, u) && LeavesAlone(Next(s, Handle(c)), before, f)
    requires IsRun(Next(u, Read(f)), after, t)
    requires ReadUndisturbed(Next(u, Read(f)), after, u.front.nextScanId, f, c.frame)
    requires t.requests == [] && t.responses == []
    ensures u.front.nextScanId in t.front.tables
    ensures t.front.tables[u.front.nextScanId] == StreamOf(c.frame)
  {
    var v := Next(s, Handle(c));
    IngestFinishes(s, c);
    StepKeeps(s, Handle(c));
    StepKeepsFrameIds(s, Handle(c));
    FrameStays(v, before, u, f, c.frame);
    RegisteredFrameIsRead(u, after, t, f, c.frame);
  }

  /** A read of a registered frame that is not disturbed resolves with its stream. */
  lemma RegisteredFrameIsRead(u: System, actions: seq<Action>, t: System, f: FrameId, frame: Frame)
    requires Invariant(u) && FrameIdsAgree(u.worker) && HasFrame(u, f, frame)
    requires IsRun(Next(u, Read(f)), actions, t)
    requires ReadUndisturbed(Next(u, Read(f)), actions, u.front.nextScanId, f, frame)
    requires t.requests == [] && t.responses == []
    ensures u.front.nextScanId in t.front.tables && t.front.tables[u.front.nextScanId] == StreamOf(frame)
  {
    var w, scan := Next(u, Read(f)), u.front.nextScanId;
    StepKeeps(u, Read(f));
    StepKeepsFrameIds(u, Read(f));
    UndisturbedReadsFrame(w, actions, t, scan, f, frame);
    ReadTableResolves(w, actions, t, scan, f);
  }

  /** From the transform to the read, in the same way. */
  lemma TransformedFrameIsRead(s: System, id: MessageId, c: Choice, before: seq<Action>, u: System,
                               after: seq<Action>, t: System, f: FrameId)
    requires Invariant(s) && FrameIdsAgree(s.worker) && id in s.worker.suspended
    requires s.worker.suspended[id] == Transforming(f) && Answered(s, Next(s, Continue(id, c)), NewFrame(id, f))
    requires IsRun(Next(s, Continue(id, c)), before, u) && LeavesAlone(Next(s, Continue(id, c)), before, f)
    requires IsRun(Next(u, Read(f)), after, t)
    requires ReadUndisturbed(Next(u, Read(f)), after, u.front.nextScanId, f, c.frame)
    requires t.requests == [] && t.responses == []
    ensures u.front.nextScanId in t.front.tables
    ensures t.front.tables[u.front.nextScanId] == StreamOf(c.frame)
  {
    var v := Next(s, Continue(id, c));
    TransformEnds(s, id, c);
    assert v.responses[|s.responses|] == NewFrame(id, f);
    StepKeeps(s, Continue(id, c));
    StepKeepsFrameIds(s, Continue(id, c));
    FrameStays(v, before, u, f, c.frame);
    RegisteredFrameIsRead(u, after, t, f, c.frame);
  }

  // ----- answers reach their tasks -----

  /** A task is settled with its answer: an error rejects it; a new frame resolves an ingest or a transform,
      and Ok every other task but a ping, with that answer; anything else is unexpected. */
  ghost predicate SettledWith(t: Settlement, task: Task, r: Response) {
    && t.task == task
    && match r
       case Failed(_) => t.outcome == Rejected
       case NewFrame(_, _) => t.outcome == if task.FromIngest? || task.Transform? then Resolved(r) else Unexpected
       case Ok(_) =>
         t.outcome == if task.FromIngest? || task.Transform? || task.Ping? then Unexpected else Resolved(r)
       case _ => false
  }

  /** Receiving a settling response settles its task with it, and no other task. */
  lemma ReceiveSettles(s: System)
    requires Invariant(s) && s.responses != [] && Settles(s.responses[0])
    ensures var t, r := Next(s, Receive), s.responses[0];
      && r.requestId in s.front.pending && r.requestId in t.front.settled
      && SettledWith(t.front.settled[r.requestId], s.front.pending[r.requestId], r)
      && t.front.pending == s.front.pending - {r.requestId}
      && forall id | id != r.requestId ::
           (id in t.front.settled <==> id in s.front.settled)
           && (id in s.front.settled ==> t.front.settled[id] == s.front.settled[id])
  {
    assert Fits(s.front.pending[s.responses[0].requestId], s.responses[0]);
  }

  lemma {:induction false} SettlingIsCounted(rs: seq<Response>, i: nat)
    requires i < |rs| && Settles(rs[i])
    ensures InResponses(rs, rs[i].requestId) >= 1
    decreases |rs|
  {
    if i > 0 { SettlingIsCounted(rs[1..], i - 1); }
  }

  /** Two responses on their way never settle the same task. */
  lemma SettledByOne(s: System, i: nat)
    requires Invariant(s) && 0 < i < |s.responses| && Settles(s.responses[i]) && Settles(s.responses[0])
    ensures s.responses[0].requestId != s.responses[i].requestId
  {
    var id := s.responses[i].requestId;
    SettlingIsCounted(s.responses[1..], i - 1);
    assert Places(s.requests, s.worker.suspended.Keys, s.responses, id) <= 1;
  }

  /** The answer is still on its way to its task. */
  ghost predicate OnItsWay(s: System, task: Task, r: Response) {
    r in s.responses && r.requestId in s.front.pending && s.front.pending[r.requestId] == task
  }

  lemma StepCarries(s: System, a: Action, task: Task, r: Response)
    requires Invariant(s) && Enabled(s, a) && Settles(r) && OnItsWay(s, task, r)
    ensures var t := Next(s, a);
      || OnItsWay(t, task, r)
      || (r.requestId in t.front.settled && SettledWith(t.front.settled[r.requestId], task, r))
  {
    if a.Receive? {
      if s.responses[0] == r {
        ReceiveSettles(s);
      } else {
        var i :| 0 <= i < |s.responses| && s.responses[i] == r;
        assert s.responses[1..][i - 1] == r;
        if Settles(s.responses[0]) { SettledByOne(s, i); }
      }
    } else if a.Post? || a.Read? {
      assert s.front.nextMessageId !in s.front.pending;
    }
  }

  /** Every answer arrives: when nothing is on its way any more, the task is settled with the answer the
      worker gave. */
  lemma {:induction false} AnswerArrives(s: System, actions: seq<Action>, t: System, task: Task, r: Response)
    requires Invariant(s) && IsRun(s, actions, t) && Settles(r) && OnItsWay(s, task, r)
    ensures OnItsWay(t, task, r)
              || (r.requestId in t.front.settled && SettledWith(t.front.settled[r.requestId], task, r))
    ensures t.responses == [] ==>
              r.requestId in t.front.settled && SettledWith(t.front.settled[r.requestId], task, r)
    decreases |actions|
  {
    if actions != [] {
      var next := Next(s, actions[0]);
      StepKeeps(s, actions[0]);
      StepCarries(s, actions[0], task, r);
      if OnItsWay(next, task, r) {
        AnswerArrives(next, actions[1..], t, task, r);
      } else {
        SettledForGood(next, actions[1..], t, r.requestId);
      }
    }
  }
}
