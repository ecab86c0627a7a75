/** Runs of a stream told from outside: what the server sent, what the readers got, and for how long
    the stream is known. */
module StreamHistory {
  import opened Common
  import opened Streams

  // ----- what came from the server -----

  ghost predicate Forwards(h: Heard, item: Item) {
    match h
    case Answered(hs) => item == Header(hs)
    case Refused(e) => item == Failure(e)
    case Responded(r) => PassesOn(r, item)
  }

  /** The producer passed on what it heard, one item for each. */
  ghost predicate AllForwarded(heard: seq<Heard>, sent: seq<Item>) {
    |heard| == |sent| && forall i | 0 <= i < |heard| :: Forwards(heard[i], sent[i])
  }

  /** The chunks of the server's responses. */
  function Chunks(heard: seq<Heard>): seq<Message>
    decreases |heard|
  {
    if heard == [] then []
    else
      var last := heard[|heard| - 1];
      Chunks(heard[..|heard| - 1]) + if last.Responded? && last.response.Chunk? then [last.response.message] else []
  }

  lemma {:induction false} ChunksAreMessages(heard: seq<Heard>, sent: seq<Item>)
    requires AllForwarded(heard, sent)
    ensures Chunks(heard) == MessagesOf(sent)
    decreases |heard|
  {
    if heard != [] { ChunksAreMessages(heard[..|heard| - 1], sent[..|sent| - 1]); }
  }

  /** A finished batch and a failed read report what the last item said; headers are received ones. */
  ghost predicate Explained(taken: seq<Item>, r: ReadResult) {
    && (r.Read? && r.batch.event == StreamFinished ==> End(r.batch.trailers) in taken)
    && (r.Read? && r.batch.headers.Some? ==> Header(r.batch.headers.value) in taken)
    && (r.ReadFailed? ==> Failure(r.reason) in taken)
  }

  ghost predicate AllExplained(taken: seq<Item>, returned: seq<Returned>) {
    forall i | 0 <= i < |returned| :: Explained(taken, returned[i].result)
  }

  ghost predicate ActiveExplained(taken: seq<Item>, active: Option<Active>) {
    active.Some? && active.value.batch.headers.Some? ==> Header(active.value.batch.headers.value) in taken
  }

  ghost predicate Told(s: Stream) {
    AllForwarded(s.heard, Sent(s)) && AllExplained(s.taken, s.returned) && ActiveExplained(s.taken, s.active)
  }

  lemma HeardIsForwarded(heard: seq<Heard>, sent: seq<Item>, h: Heard, item: Item)
    requires AllForwarded(heard, sent) && Forwards(h, item)
    ensures AllForwarded(heard + [h], sent + [item])
  {
  }

  lemma ProducerStepTells(s: Stream, a: Action)
    requires Told(s) && Enabled(s, a) && (a.Respond? || a.RejectRequest? || a.Produce?)
    ensures Told(Next(s, a))
  {
    var t := Next(s, a);
    HeardIsForwarded(s.heard, s.pushed, t.heard[|s.heard|], t.pending.value);
  }

  lemma ReturnIsExplained(taken: seq<Item>, returned: seq<Returned>, r: Returned)
    requires AllExplained(taken, returned) && Explained(taken, r.result)
    ensures AllExplained(taken, returned + [r])
  {
  }

  lemma TakenExplains(taken: seq<Item>, returned: seq<Returned>, item: Item)
    requires AllExplained(taken, returned)
    ensures AllExplained(taken + [item], returned)
  {
  }

  lemma ReceiveTells(s: Stream)
    requires Told(s) && Enabled(s, Receive)
    ensures Told(Next(s, Receive))
  {
    var a, item := s.active.value, s.queue[0];
    var p := OnItem(a.batch, item, a.limit);
    TakenExplains(s.taken, s.returned, item);
    assert item in s.taken + [item];
    if p.Return? {
      ReturnIsExplained(s.taken + [item], s.returned, Returned(a.reader, a.limit, p.result));
    }
    assert Sent(Next(s, Receive)) == Sent(s);
  }

  lemma StepTells(s: Stream, a: Action)
    requires Told(s) && Enabled(s, a)
    ensures Told(Next(s, a))
  {
    NeverClosed(s);
    match a
    case Respond(_) => ProducerStepTells(s, a);
    case RejectRequest(_) => ProducerStepTells(s, a);
    case Produce(_) => ProducerStepTells(s, a);
    case Push => assert Sent(Next(s, a)) == Sent(s);
    case Receive => ReceiveTells(s);
    case _ =>
  }

  lemma {:induction false} RunTells(s: Stream, actions: seq<Action>, t: Stream)
    requires Told(s) && IsRun(s, actions, t)
    ensures Told(t)
    decreases |actions|
  {
    if actions != [] {
      StepTells(s, actions[0]);
      RunTells(Next(s, actions[0]), actions[1..], t);
    }
  }

  lemma ReachableTells(t: Stream)
    requires Reachable(t)
    ensures Told(t) && Invariant(t)
  {
    ReachableKeeps(t);
    var actions :| IsRun(StartGrpc(), actions, t) || IsRun(StartHttp(), actions, t);
    if IsRun(StartGrpc(), actions, t) {
      RunTells(StartGrpc(), actions, t);
    } else {
      RunTells(StartHttp(), actions, t);
    }
  }

  lemma TakenIsSent(s: Stream, item: Item)
    requires QueueAgrees(s.pushed, s.taken, s.queue) && item in s.taken
    ensures item in Sent(s)
  {
  }

  /** The end or the failure among what was sent is the last thing that came from the server. */
  lemma TerminalIsLast(s: Stream, item: Item)
    requires Reachable(s) && item in s.taken && Terminal(item)
    ensures s.heard != [] && Forwards(s.heard[|s.heard| - 1], item)
  {
    ReachableTells(s);
    TakenIsSent(s, item);
  }

  /** A stream is reported finished only if the server ended it, with the server's trailers. */
  lemma FinishedByServer(s: Stream, i: nat)
    requires Reachable(s) && i < |s.returned|
    requires s.returned[i].result.Read? && s.returned[i].result.batch.event == StreamFinished
    ensures s.heard != []
    ensures s.heard[|s.heard| - 1] == Responded(EndOfStream(s.returned[i].result.batch.trailers))
  {
    ReachableTells(s);
    TerminalIsLast(s, End(s.returned[i].result.batch.trailers));
  }

  /** A read fails with a reason only if the request or the server failed with it. */
  lemma FailedByServer(s: Stream, i: nat)
    requires Reachable(s) && i < |s.returned| && s.returned[i].result.ReadFailed?
    ensures s.heard != []
    ensures var e := s.returned[i].result.reason;
      s.heard[|s.heard| - 1] == Responded(StreamError(e)) || s.heard[|s.heard| - 1] == Refused(e)
  {
    ReachableTells(s);
    TerminalIsLast(s, Failure(s.returned[i].result.reason));
  }

  /** Headers in a batch are the server's. */
  lemma HeadersFromServer(s: Stream, i: nat)
    requires Reachable(s) && i < |s.returned| && s.returned[i].result.Read?
    requires s.returned[i].result.batch.headers.Some?
    ensures Answered(s.returned[i].result.batch.headers.value) in s.heard
  {
    ReachableTells(s);
    var item := Header(s.returned[i].result.batch.headers.value);
    TakenIsSent(s, item);
    var k :| 0 <= k < |Sent(s)| && Sent(s)[k] == item;
    assert Forwards(s.heard[k], item);
  }

  /** What the readers get are the server's chunks in order, and all of them once the stream is finished. */
  lemma ChunksAreDelivered(s: Stream)
    requires Reachable(s)
    ensures Delivered(s.returned) <= Chunks(s.heard)
    ensures Finishes(s.returned) == 1 ==> Delivered(s.returned) == Chunks(s.heard)
  {
    ReachableTells(s);
    ChunksAreMessages(s.heard, Sent(s));
    MessagesAreConserved(s);
    FinishedMeansDelivered(s);
    if s.pending.Some? { AppendedItem(s.pushed, s.pending.value); }
  }

  // ----- one step of a reader -----

  /** The reader ends its turn with this result. */
  ghost predicate Ends(s: Stream, t: Stream, result: ReadResult)
    requires s.active.Some?
  {
    t.active.None? && t.returned == s.returned + [Returned(s.active.value.reader, s.active.value.limit, result)]
  }

  /** The reader keeps its turn and holds these messages. */
  ghost predicate KeepsTurn(s: Stream, t: Stream, messages: seq<Message>)
    requires s.active.Some?
  {
    && t.returned == s.returned && t.active.Some?
    && t.active.value.reader == s.active.value.reader && t.active.value.limit == s.active.value.limit
    && t.active.value.batch.messages == messages
  }

  ghost predicate IsBatch(result: ReadResult, event: Flush, messages: seq<Message>) {
    result.Read? && result.batch.event == event && result.batch.messages == messages
  }

  /** What a reader makes of an item, from the messages it holds. */
  lemma ItemDecides(b: Batch, item: Item, limit: nat)
    requires Building(b, limit)
    ensures match item
      case Header(_) => OnItem(b, item, limit).Continue? && OnItem(b, item, limit).batch.messages == b.messages
      case Data(m) =>
        if Bytes(b.messages + [m]) <= limit then
          OnItem(b, item, limit).Continue? && OnItem(b, item, limit).batch.messages == b.messages + [m]
        else OnItem(b, item, limit).Return? && IsBatch(OnItem(b, item, limit).result, FlushAfterBytes, b.messages + [m])
      case End(tr) =>
        && OnItem(b, item, limit).Return? && IsBatch(OnItem(b, item, limit).result, StreamFinished, b.messages)
        && OnItem(b, item, limit).result.batch.trailers == tr
      case Failure(e) => OnItem(b, item, limit) == Return(ReadFailed(e))
  {
    if item.Data? { AppendedBytes(b.messages, item.message); }
  }

  lemma TurnFollows(s: Stream)
    requires Enabled(s, Receive)
    ensures var t, p := Next(s, Receive), OnItem(s.active.value.batch, s.queue[0], s.active.value.limit);
      if p.Continue? then KeepsTurn(s, t, p.batch.messages) else Ends(s, t, p.result)
  {
  }

  /** A reader that takes a message goes on, unless its messages now exceed its limit; an end and a failure
      end its turn. */
  lemma ReceiveReturns(s: Stream)
    requires Reachable(s) && Enabled(s, Receive)
    ensures var t, current, limit := Next(s, Receive), Current(s.active), s.active.value.limit;
      match s.queue[0]
      case Header(_) => KeepsTurn(s, t, current)
      case Data(m) =>
        if Bytes(current + [m]) <= limit then KeepsTurn(s, t, current + [m])
        else exists result :: Ends(s, t, result) && IsBatch(result, FlushAfterBytes, current + [m])
      case End(tr) =>
        exists result :: Ends(s, t, result) && IsBatch(result, StreamFinished, current) && result.batch.trailers == tr
      case Failure(e) => Ends(s, t, ReadFailed(e))
  {
    ReachableIsBuilding(s);
    ItemDecides(s.active.value.batch, s.queue[0], s.active.value.limit);
    TurnFollows(s);
  }

  lemma ReachableIsBuilding(s: Stream)
    requires Reachable(s) && s.active.Some?
    ensures Building(s.active.value.batch, s.active.value.limit)
  {
    ReachableKeeps(s);
  }

  /** A reader whose wait is over returns what it holds, or a timeout if it holds nothing. */
  lemma TimeOutReturns(s: Stream)
    requires s.active.Some?
    ensures var t, current := Next(s, TimeOut), Current(s.active);
      if current == [] then Ends(s, t, ReadTimedOut)
      else exists result :: Ends(s, t, result) && IsBatch(result, FlushAfterTimeout, current)
  {
    assert Ends(s, Next(s, TimeOut), OnTimeout(s.active.value.batch));
  }

  /** Nothing but a reader's own receive, its timeout, and a read of an unknown stream returns anything. */
  lemma OthersReturnNothing(s: Stream, a: Action)
    requires Enabled(s, a) && !a.Receive? && !a.TimeOut? && !a.BeginRead?
    ensures Next(s, a).returned == s.returned
  {
    NeverClosed(s);
  }

  // ----- for how long a stream is known -----

  /** A read of a known stream waits for its turn; a read of an unknown one is told so. */
  lemma BeginReadReturns(s: Stream, reader: ReaderId, limit: nat)
    requires Enabled(s, BeginRead(reader, limit))
    ensures var t := Next(s, BeginRead(reader, limit));
      if s.registered then t.returned == s.returned && t.waiting == s.waiting[reader := limit]
      else t.returned == s.returned + [Returned(reader, limit, StreamUnknown)] && t.waiting == s.waiting
  {
  }

  /** A stream is known until it is destroyed, or a reader takes its end or its failure. */
  ghost predicate KnownUntil(s: Stream, destroyed: bool) { s.registered <==> !destroyed && !Ended(s.taken) }

  lemma StepKeepsKnown(s: Stream, a: Action, destroyed: bool)
    requires Invariant(s) && Enabled(s, a) && KnownUntil(s, destroyed)
    ensures KnownUntil(Next(s, a), destroyed || a.Destroy?)
  {
    if a.Receive? {
      TakenAgrees(s);
      ReceiveKeepsKnown(s, destroyed);
    }
  }

  lemma ReceiveKeepsKnown(s: Stream, destroyed: bool)
    requires Enabled(s, Receive) && !Ended(s.taken) && KnownUntil(s, destroyed)
    ensures KnownUntil(Next(s, Receive), destroyed)
  {
    assert Next(s, Receive).taken == s.taken + [s.queue[0]];
  }

  lemma {:induction false} KnownOnRuns(s: Stream, actions: seq<Action>, t: Stream, destroyed: bool)
    requires Invariant(s) && KnownUntil(s, destroyed) && IsRun(s, actions, t)
    ensures KnownUntil(t, destroyed || Destroy in actions)
    decreases |actions|
  {
    if actions != [] {
      StepKeeps(s, actions[0]);
      StepKeepsKnown(s, actions[0], destroyed);
      KnownOnRuns(Next(s, actions[0]), actions[1..], t, destroyed || actions[0].Destroy?);
      assert Destroy in actions <==> actions[0].Destroy? || Destroy in actions[1..];
    }
  }

  /** On every run: a stream is known exactly until it is destroyed, or its end or its failure is read;
      afterwards every new read is told that it is unknown. */
  lemma KnownUntilDone(actions: seq<Action>, t: Stream)
    requires IsRun(StartGrpc(), actions, t) || IsRun(StartHttp(), actions, t)
    ensures t.registered <==> Destroy !in actions && !Ended(t.taken)
    ensures forall reader, limit | Enabled(t, BeginRead(reader, limit)) && (Destroy in actions || Ended(t.taken)) ::
              Next(t, BeginRead(reader, limit)).returned == t.returned + [Returned(reader, limit, StreamUnknown)]
  {
    if IsRun(StartGrpc(), actions, t) {
      KnownOnRuns(StartGrpc(), actions, t, false);
    } else {
      KnownOnRuns(StartHttp(), actions, t, false);
    }
  }

  // ----- every read returns once -----

  function CountBegun(begun: seq<Begun>, b: Begun): nat
    decreases |begun|
  {
    if begun == [] then 0
    else CountBegun(begun[..|begun| - 1], b) + if begun[|begun| - 1] == b then 1 else 0
  }

  function CountReturned(returned: seq<Returned>, b: Begun): nat
    decreases |returned|
  {
    if returned == [] then 0
    else
      var last := returned[|returned| - 1];
      CountReturned(returned[..|returned| - 1], b) + if last.reader == b.reader && last.limit == b.limit then 1 else 0
  }

  /** Reads that began and have not returned. */
  function Open(waiting: map<ReaderId, nat>, active: Option<Active>, b: Begun): nat {
    (if b.reader in waiting && waiting[b.reader] == b.limit then 1 else 0)
    + if active.Some? && active.value.reader == b.reader && active.value.limit == b.limit then 1 else 0
  }

  ghost predicate Balanced(s: Stream) {
    && (s.active.Some? ==> s.active.value.reader !in s.waiting)
    && forall b :: CountBegun(s.begun, b) == CountReturned(s.returned, b) + Open(s.waiting, s.active, b)
  }

  lemma OneMoreBegun(begun: seq<Begun>, x: Begun, b: Begun)
    ensures CountBegun(begun + [x], b) == CountBegun(begun, b) + if x == b then 1 else 0
  {
    assert (begun + [x])[..|begun|] == begun;
  }

  lemma OneMoreReturn(returned: seq<Returned>, r: Returned, b: Begun)
    ensures CountReturned(returned + [r], b)
         == CountReturned(returned, b) + if r.reader == b.reader && r.limit == b.limit then 1 else 0
  {
    assert (returned + [r])[..|returned|] == returned;
  }

  lemma BeginReadBalances(s: Stream, reader: ReaderId, limit: nat)
    requires Balanced(s) && Enabled(s, BeginRead(reader, limit))
    ensures Balanced(Next(s, BeginRead(reader, limit)))
  {
    var t := Next(s, BeginRead(reader, limit));
    forall b ensures CountBegun(t.begun, b) == CountReturned(t.returned, b) + Open(t.waiting, t.active, b) {
      assert CountBegun(s.begun, b) == CountReturned(s.returned, b) + Open(s.waiting, s.active, b);
      OneMoreBegun(s.begun, Begun(reader, limit), b);
      if !s.registered { OneMoreReturn(s.returned, Returned(reader, limit, StreamUnknown), b); }
    }
  }

  lemma TakeTurnBalances(s: Stream, reader: ReaderId)
    requires Balanced(s) && Enabled(s, TakeTurn(reader))
    ensures Balanced(Next(s, TakeTurn(reader)))
  {
    var t := Next(s, TakeTurn(reader));
    forall b ensures CountBegun(t.begun, b) == CountReturned(t.returned, b) + Open(t.waiting, t.active, b) {
      assert CountBegun(s.begun, b) == CountReturned(s.returned, b) + Open(s.waiting, s.active, b);
    }
  }

  lemma EndBalances(s: Stream, t: Stream, result: ReadResult)
    requires Balanced(s) && s.active.Some? && Ends(s, t, result) && t.begun == s.begun && t.waiting == s.waiting
    ensures Balanced(t)
  {
    forall b ensures CountBegun(t.begun, b) == CountReturned(t.returned, b) + Open(t.waiting, t.active, b) {
      assert CountBegun(s.begun, b) == CountReturned(s.returned, b) + Open(s.waiting, s.active, b);
      OneMoreReturn(s.returned, Returned(s.active.value.reader, s.active.value.limit, result), b);
    }
  }

  lemma SameReadsBalance(s: Stream, t: Stream)
    requires Balanced(s) && t.begun == s.begun && t.returned == s.returned && t.waiting == s.waiting
    requires t.active.Some? <==> s.active.Some?
    requires t.active.Some? ==>
               t.active.value.reader == s.active.value.reader && t.active.value.limit == s.active.value.limit
    ensures Balanced(t)
  {
    forall b ensures CountBegun(t.begun, b) == CountReturned(t.returned, b) + Open(t.waiting, t.active, b) {
      assert CountBegun(s.begun, b) == CountReturned(s.returned, b) + Open(s.waiting, s.active, b);
    }
  }

  lemma ReceiveBalances(s: Stream)
    requires Balanced(s) && Enabled(s, Receive)
    ensures Balanced(Next(s, Receive))
  {
    var p := OnItem(s.active.value.batch, s.queue[0], s.active.value.limit);
    if p.Return? {
      EndBalances(s, Next(s, Receive), p.result);
    } else {
      SameReadsBalance(s, Next(s, Receive));
    }
  }

  lemma StepBalances(s: Stream, a: Action)
    requires Balanced(s) && Enabled(s, a)
    ensures Balanced(Next(s, a))
  {
    var t := Next(s, a);
    NeverClosed(s);
    match a
    case Respond(_) => SameReadsBalance(s, t);
    case RejectRequest(_) => SameReadsBalance(s, t);
    case Produce(_) => SameReadsBalance(s, t);
    case Push => SameReadsBalance(s, t);
    case BeginRead(reader, limit) => BeginReadBalances(s, reader, limit);
    case TakeTurn(reader) => TakeTurnBalances(s, reader);
    case Receive => ReceiveBalances(s);
    case TimeOut => EndBalances(s, t, OnTimeout(s.active.value.batch));
    case Destroy => SameReadsBalance(s, t);
  }

  lemma {:induction false} RunBalances(s: Stream, actions: seq<Action>, t: Stream)
    requires Balanced(s) && IsRun(s, actions, t)
    ensures Balanced(t)
    decreases |actions|
  {
    if actions != [] {
      StepBalances(s, actions[0]);
      RunBalances(Next(s, actions[0]), actions[1..], t);
    }
  }

  /** Every read returns once, to the reader and for the limit it began with: of each kind, those that
      began are those that returned and the ones still waiting or having their turn. */
  lemma EveryReadReturnsOnce(s: Stream, b: Begun)
    requires Reachable(s)
    ensures CountBegun(s.begun, b) == CountReturned(s.returned, b) + Open(s.waiting, s.active, b)
  {
    var actions :| IsRun(StartGrpc(), actions, s) || IsRun(StartHttp(), actions, s);
    assert Balanced(StartGrpc()) && Balanced(StartHttp());
    if IsRun(StartGrpc(), actions, s) {
      RunBalances(StartGrpc(), actions, s);
    } else {
      RunBalances(StartHttp(), actions, s);
    }
  }
}
