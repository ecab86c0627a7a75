/** Server streams: one producer task, a bounded queue, and readers that take turns at the queue and
    return what they received in batches. The gRPC and the HTTP manager run the same protocol; an
    HTTP stream begins with a request that answers with headers or fails. */
module Streams {
  import opened Common

  const StreamCapacity: nat := 10

  type Message = seq<bv8>
  type ReaderId = nat
  datatype Headers = Headers(status: nat, fields: seq<(string, string)>)

  /** What the producer pushes into the queue. */
  datatype Item =
    | Header(headers: Headers)
    | Data(message: Message)
    | End(trailers: seq<(string, string)>)
    | Failure(reason: string)

  datatype Flush = StreamFailed | StreamFinished | FlushAfterClose | FlushAfterTimeout | FlushAfterBytes
  datatype Batch = Batch(event: Flush, headers: Option<Headers>, messages: seq<Message>, totalBytes: nat,
      trailers: seq<(string, string)>)
  datatype ReadResult =
    | Read(batch: Batch)
    | StreamUnknown
    | StreamClosed
    | ReadTimedOut
    | ReadFailed(reason: string)

  const EmptyBatch := Batch(StreamFailed, None, [], 0, [])

  predicate Terminal(item: Item) { item.End? || item.Failure? }

  // ----- the reader's loop -----

  datatype Progress = Continue(batch: Batch) | Return(result: ReadResult)
  datatype Outcome = Received(item: Item) | Closed | TimedOut

  /** What a reader does with an item. */
  function OnItem(b: Batch, item: Item, limit: nat): Progress {
    match item
    case Header(h) => Continue(b.(headers := Some(h)))
    case Data(m) =>
      var more := b.(messages := b.messages + [m], totalBytes := b.totalBytes + |m|);
      if more.totalBytes > limit then Return(Read(more.(event := FlushAfterBytes))) else Continue(more)
    case End(t) => Return(Read(b.(event := StreamFinished, trailers := t)))
    case Failure(e) => Return(ReadFailed(e))
  }

  function OnTimeout(b: Batch): ReadResult {
    if b.messages == [] then ReadTimedOut else Read(b.(event := FlushAfterTimeout))
  }

  function OnClose(b: Batch): ReadResult {
    if b.messages == [] then StreamClosed else Read(b.(event := FlushAfterClose))
  }

  function OnOutcome(b: Batch, o: Outcome, limit: nat): Progress {
    match o
    case Received(item) => OnItem(b, item, limit)
    case Closed => Return(OnClose(b))
    case TimedOut => Return(OnTimeout(b))
  }

  /** The bytes of several messages. */
  function Bytes(ms: seq<Message>): nat
    decreases |ms|
  {
    if ms == [] then 0 else Bytes(ms[..|ms| - 1]) + |ms[|ms| - 1]|
  }

  function MessagesOf(items: seq<Item>): seq<Message>
    decreases |items|
  {
    if items == [] then []
    else
      var last := items[|items| - 1];
      MessagesOf(items[..|items| - 1]) + if last.Data? then [last.message] else []
  }

  lemma AppendedItem(items: seq<Item>, item: Item)
    ensures MessagesOf(items + [item]) == MessagesOf(items) + if item.Data? then [item.message] else []
  {
    assert (items + [item])[..|items|] == items;
  }

  lemma AppendedBytes(ms: seq<Message>, m: Message)
    ensures Bytes(ms + [m]) == Bytes(ms) + |m|
  {
    assert (ms + [m])[..|ms|] == ms;
  }

  lemma {:induction false} MessagesOfConcat(a: seq<Item>, b: seq<Item>)
    ensures MessagesOf(a + b) == MessagesOf(a) + MessagesOf(b)
    decreases |b|
  {
    if b == [] {
      assert a + b == a;
    } else {
      MessagesOfConcat(a, b[..|b| - 1]);
      assert (a + b)[..|a + b| - 1] == a + b[..|b| - 1];
    }
  }

  /** A batch still being built: its byte total is right and within the limit. */
  ghost predicate Building(b: Batch, limit: nat) {
    b.event == StreamFailed && b.totalBytes == Bytes(b.messages) && b.totalBytes <= limit
  }

  /** A returned batch exceeds the limit only by its last message, and only when that is why it was
      flushed. */
  ghost predicate WellShaped(b: Batch, limit: nat) {
    && b.totalBytes == Bytes(b.messages)
    && b.event != StreamFailed
    && (b.event == FlushAfterBytes ==>
          && b.messages != []
          && b.totalBytes > limit
          && Bytes(b.messages[..|b.messages| - 1]) <= limit)
    && (b.event == FlushAfterTimeout ==> b.messages != [])
    && (b.event != FlushAfterBytes ==> b.totalBytes <= limit)
  }

  /** How a reader stands after it received `items`: it holds or returns exactly their messages. */
  ghost predicate Holds(p: Progress, items: seq<Item>, limit: nat) {
    match p
    case Continue(b) => Building(b, limit) && b.messages == MessagesOf(items)
    case Return(Read(b)) => WellShaped(b, limit) && b.messages == MessagesOf(items)
    case Return(StreamUnknown) => false
    case Return(StreamClosed) => MessagesOf(items) == []
    case Return(ReadTimedOut) => MessagesOf(items) == []
    case Return(ReadFailed(e)) => items != [] && items[|items| - 1] == Failure(e)
  }

  lemma ItemHeld(b: Batch, item: Item, limit: nat, items: seq<Item>)
    requires Holds(Continue(b), items, limit)
    ensures Holds(OnItem(b, item, limit), items + [item], limit)
  {
    AppendedItem(items, item);
    if item.Data? {
      AppendedBytes(b.messages, item.message);
      assert (b.messages + [item.message])[..|b.messages|] == b.messages;
    }
  }

  lemma WaitEnded(b: Batch, limit: nat, items: seq<Item>)
    requires Holds(Continue(b), items, limit)
    ensures Holds(Return(OnTimeout(b)), items, limit) && Holds(Return(OnClose(b)), items, limit)
  {
  }

  function ItemsOf(outcomes: seq<Outcome>): seq<Item>
    decreases |outcomes|
  {
    if outcomes == [] then []
    else
      var last := outcomes[|outcomes| - 1];
      ItemsOf(outcomes[..|outcomes| - 1]) + if last.Received? then [last.item] else []
  }

  /** The headers that were received last. */
  function HeadersOf(items: seq<Item>): Option<Headers>
    decreases |items|
  {
    if items == [] then None
    else
      var last := items[|items| - 1];
      if last.Header? then Some(last.headers) else HeadersOf(items[..|items| - 1])
  }

  /** The batch of everything that was received. */
  function BatchOf(items: seq<Item>): Batch {
    Batch(StreamFailed, HeadersOf(items), MessagesOf(items), Bytes(MessagesOf(items)), [])
  }

  /** A reader that received these items goes on: the messages are within its limit, and there was no end
      and no failure. */
  ghost predicate GoesOn(items: seq<Item>, limit: nat) {
    BatchOf(items).totalBytes <= limit && forall item | item in items :: !Terminal(item)
  }

  /** After each of these receive calls the reader had to go on. */
  ghost predicate WentOn(outcomes: seq<Outcome>, used: nat, limit: nat)
    requires used <= |outcomes|
  {
    forall k | 0 <= k <= used :: GoesOn(ItemsOf(outcomes[..k]), limit)
  }

  /** What a reader that received this much returns after its last receive call. */
  ghost predicate Answers(result: ReadResult, received: Batch, last: Outcome, limit: nat) {
    match last
    case TimedOut =>
      result == if received.messages == [] then ReadTimedOut else Read(received.(event := FlushAfterTimeout))
    case Closed =>
      result == if received.messages == [] then StreamClosed else Read(received.(event := FlushAfterClose))
    case Received(Header(_)) => false
    case Received(Data(_)) => received.totalBytes > limit && result == Read(received.(event := FlushAfterBytes))
    case Received(End(t)) => result == Read(received.(event := StreamFinished, trailers := t))
    case Received(Failure(e)) => result == ReadFailed(e)
  }

  /** The reader's loop with the outcomes of its receive calls: it ends with the first outcome that
      makes it return, and a batch it returns holds exactly what was received until then. */
  method ReadServerStream(outcomes: seq<Outcome>, limit: nat) returns (progress: Progress, used: nat)
    ensures used <= |outcomes| && Holds(progress, ItemsOf(outcomes[..used]), limit)
    ensures progress.Continue? ==> used == |outcomes|
    ensures progress.Return? ==> used > 0 && forall i | 0 <= i < used - 1 :: outcomes[i].Received?
    ensures progress.Return? ==> Answers(progress.result, BatchOf(ItemsOf(outcomes[..used])), outcomes[used - 1], limit)
    ensures progress.Return? ==> WentOn(outcomes, used - 1, limit)
    ensures progress.Continue? ==> WentOn(outcomes, used, limit)
  {
    var batch := EmptyBatch;
    used := 0;
    while used < |outcomes|
      invariant used <= |outcomes| && forall i | 0 <= i < used :: outcomes[i].Received?
      invariant Holds(Continue(batch), ItemsOf(outcomes[..used]), limit)
      invariant batch == BatchOf(ItemsOf(outcomes[..used]))
      invariant WentOn(outcomes, used, limit)
    {
      var outcome := outcomes[used];
      progress := OnOutcome(batch, outcome, limit);
      NextOutcome(outcomes, used, batch, limit);
      NextAnswer(outcomes, used, limit);
      used := used + 1;
      if progress.Return? {
        return;
      }
      batch := progress.batch;
    }
    progress := Continue(batch);
  }

  /** The batch with one more item. */
  function With(b: Batch, item: Item): Batch {
    match item
    case Header(h) => b.(headers := Some(h))
    case Data(m) => b.(messages := b.messages + [m], totalBytes := b.totalBytes + |m|)
    case _ => b
  }

  lemma BatchWith(items: seq<Item>, item: Item)
    ensures BatchOf(items + [item]) == With(BatchOf(items), item)
  {
    assert (items + [item])[..|items|] == items;
    if item.Data? {
      AppendedBytes(MessagesOf(items), item.message);
    } else {
      assert MessagesOf(items) + [] == MessagesOf(items);
    }
  }

  /** One more item: the reader returns what it calls for, or goes on with it. */
  lemma ItemAnswered(b: Batch, item: Item, limit: nat)
    requires b.event == StreamFailed && b.trailers == []
    ensures match OnItem(b, item, limit)
      case Continue(more) => more == With(b, item) && !Terminal(item) && (item.Data? ==> more.totalBytes <= limit)
      case Return(result) => Answers(result, With(b, item), Received(item), limit)
  {
  }

  lemma NextAnswer(outcomes: seq<Outcome>, i: nat, limit: nat)
    requires i < |outcomes| && GoesOn(ItemsOf(outcomes[..i]), limit)
    ensures var items := ItemsOf(outcomes[..i + 1]);
      match OnOutcome(BatchOf(ItemsOf(outcomes[..i])), outcomes[i], limit)
      case Continue(b) => b == BatchOf(items) && GoesOn(items, limit)
      case Return(result) => Answers(result, BatchOf(items), outcomes[i], limit)
  {
    assert outcomes[..i + 1][..i] == outcomes[..i];
    var items := ItemsOf(outcomes[..i]);
    if outcomes[i].Received? {
      BatchWith(items, outcomes[i].item);
      ItemAnswered(BatchOf(items), outcomes[i].item, limit);
    } else {
      assert items + [] == items;
    }
  }

  lemma NextOutcome(outcomes: seq<Outcome>, i: nat, batch: Batch, limit: nat)
    requires i < |outcomes| && Holds(Continue(batch), ItemsOf(outcomes[..i]), limit)
    ensures Holds(OnOutcome(batch, outcomes[i], limit), ItemsOf(outcomes[..i + 1]), limit)
  {
    assert outcomes[..i + 1][..i] == outcomes[..i];
    var items := ItemsOf(outcomes[..i]);
    if outcomes[i].Received? {
      ItemHeld(batch, outcomes[i].item, limit, items);
    } else {
      WaitEnded(batch, limit, items);
      assert items + [] == items;
    }
  }

  // ----- the producer's loop -----

  datatype Response = Chunk(message: Message) | EndOfStream(trailers: seq<(string, string)>)
      | StreamError(reason: string)

  function ItemOf(r: Response): Item {
    match r
    case Chunk(m) => Data(m)
    case EndOfStream(t) => End(t)
    case StreamError(e) => Failure(e)
  }

  /** Nothing follows an end or a failure, and headers come first. */
  ghost predicate WellOrdered(items: seq<Item>) {
    forall i | 0 <= i < |items| :: (Terminal(items[i]) ==> i == |items| - 1) && (items[i].Header? ==> i == 0)
  }

  /** What the server sent is passed on: a chunk as its data, an end with its trailers, an error with its
      reason. */
  ghost predicate PassesOn(r: Response, item: Item) {
    match r
    case Chunk(m) => item == Data(m)
    case EndOfStream(t) => item == End(t)
    case StreamError(e) => item == Failure(e)
  }

  /** The producer forwards what it reads up to and including the first end or error. */
  method ForwardResponses(responses: seq<Response>) returns (items: seq<Item>, alive: bool)
    ensures |items| <= |responses| && forall i | 0 <= i < |items| :: PassesOn(responses[i], items[i])
    ensures WellOrdered(items)
    ensures alive <==> |items| == |responses| && forall r | r in responses :: r.Chunk?
    ensures !alive ==> items != [] && Terminal(items[|items| - 1])
  {
    items, alive := [], true;
    while alive && |items| < |responses|
      invariant |items| <= |responses| && forall i | 0 <= i < |items| :: PassesOn(responses[i], items[i])
      invariant WellOrdered(items)
      invariant alive <==> forall i | 0 <= i < |items| :: responses[i].Chunk?
      invariant !alive ==> items != [] && Terminal(items[|items| - 1])
      decreases |responses| - |items|
    {
      var response := responses[|items|];
      alive := response.Chunk?;
      items := items + [ItemOf(response)];
    }
  }

  // ----- the stream as a state machine -----

  datatype Phase = Requesting | Streaming | Stopped
  datatype Active = Active(reader: ReaderId, limit: nat, batch: Batch)
  datatype Returned = Returned(reader: ReaderId, limit: nat, result: ReadResult)

  /** What came from the server. */
  datatype Heard = Answered(headers: Headers) | Refused(error: string) | Responded(response: Response)
  datatype Begun = Begun(reader: ReaderId, limit: nat)

  /** A stream, with its history: what came from the server, what was pushed, what was taken from the
      queue, what a failing reader threw away, which reads began, and what the readers returned. */
  datatype Stream = Stream(
    registered: bool,
    phase: Phase,
    pending: Option<Item>,
    queue: seq<Item>,
    waiting: map<ReaderId, nat>,
    active: Option<Active>,
    heard: seq<Heard>,
    pushed: seq<Item>,
    taken: seq<Item>,
    lost: seq<Message>,
    begun: seq<Begun>,
    returned: seq<Returned>)

  function StartGrpc(): Stream { Stream(true, Streaming, None, [], map[], None, [], [], [], [], [], []) }
  function StartHttp(): Stream { Stream(true, Requesting, None, [], map[], None, [], [], [], [], [], []) }

  datatype Action =
    | Respond(headers: Headers)
    | RejectRequest(error: string)
    | Produce(response: Response)
    | Push
    | PushFails
    | BeginRead(reader: ReaderId, limit: nat)
    | TakeTurn(next: ReaderId)
    | Receive
    | TimeOut
    | ReceiveClosed
    | Destroy

  predicate ProducerRuns(s: Stream) { s.phase != Stopped || s.pending.Some? }

  /** Everyone who keeps the stream object, and with it a sender and the receiver, alive. */
  predicate Held(s: Stream) { s.registered || ProducerRuns(s) || s.waiting != map[] || s.active.Some? }

  /** Which actions can happen. A push waits for room in the queue; a receive without a message
      times out; it finds the queue closed, or a push fails, only when nobody holds the stream. */
  predicate Enabled(s: Stream, a: Action) {
    match a
    case Respond(_) => s.phase == Requesting && s.pending.None?
    case RejectRequest(_) => s.phase == Requesting && s.pending.None?
    case Produce(_) => s.phase == Streaming && s.pending.None?
    case Push => s.pending.Some? && |s.queue| < StreamCapacity
    case PushFails => s.pending.Some? && !Held(s)
    case BeginRead(r, _) => r !in s.waiting && (s.active.Some? ==> s.active.value.reader != r)
    case TakeTurn(r) => s.active.None? && r in s.waiting
    case Receive => s.active.Some? && s.queue != []
    case TimeOut => s.active.Some?
    case ReceiveClosed => s.active.Some? && s.queue == [] && !Held(s)
    case Destroy => true
  }

  function Progressed(s: Stream, p: Progress): Stream
    requires s.active.Some?
  {
    var a := s.active.value;
    match p
    case Continue(b) => s.(active := Some(a.(batch := b)))
    case Return(result) => s.(active := None, returned := s.returned + [Returned(a.reader, a.limit, result)])
  }

  /** An end or a failure removes the stream; a failure throws the batch away. */
  function Taken(s: Stream): Stream
    requires s.active.Some? && s.queue != []
  {
    var item, batch := s.queue[0], s.active.value.batch;
    var s1 := s.(queue := s.queue[1..],
                 taken := s.taken + [item],
                 registered := s.registered && !Terminal(item),
                 lost := if item.Failure? then s.lost + batch.messages else s.lost);
    Progressed(s1, OnItem(batch, item, s.active.value.limit))
  }

  function Next(s: Stream, a: Action): Stream
    requires Enabled(s, a)
  {
    match a
    case Respond(h) => s.(phase := Streaming, pending := Some(Header(h)), heard := s.heard + [Answered(h)])
    case RejectRequest(e) => s.(phase := Stopped, pending := Some(Failure(e)), heard := s.heard + [Refused(e)])
    case Produce(r) =>
      s.(phase := if r.Chunk? then Streaming else Stopped,
         pending := Some(ItemOf(r)),
         heard := s.heard + [Responded(r)])
    case Push => s.(pending := None, queue := s.queue + [s.pending.value], pushed := s.pushed + [s.pending.value])
    case PushFails => s.(pending := None, phase := Stopped)
    case BeginRead(r, limit) =>
      var s1 := s.(begun := s.begun + [Begun(r, limit)]);
      if s.registered then s1.(waiting := s.waiting[r := limit])
      else s1.(returned := s.returned + [Returned(r, limit, StreamUnknown)])
    case TakeTurn(r) => s.(waiting := s.waiting - {r}, active := Some(Active(r, s.waiting[r], EmptyBatch)))
    case Receive => Taken(s)
    case TimeOut => Progressed(s, Return(OnTimeout(s.active.value.batch)))
    case ReceiveClosed => Progressed(s, Return(OnClose(s.active.value.batch)))
    case Destroy => s.(registered := false)
  }

  // ----- what holds in every state -----

  function Delivered(returned: seq<Returned>): seq<Message>
    decreases |returned|
  {
    if returned == [] then []
    else
      var last := returned[|returned| - 1].result;
      Delivered(returned[..|returned| - 1]) + if last.Read? then last.batch.messages else []
  }

  function Finishes(returned: seq<Returned>): nat
    decreases |returned|
  {
    if returned == [] then 0
    else
      var last := returned[|returned| - 1].result;
      Finishes(returned[..|returned| - 1]) + if last.Read? && last.batch.event == StreamFinished then 1 else 0
  }

  lemma AppendedReturn(returned: seq<Returned>, r: Returned)
    ensures Delivered(returned + [r]) == Delivered(returned) + if r.result.Read? then r.result.batch.messages else []
    ensures Finishes(returned + [r]) == Finishes(returned) + if r.result.Read?
              && r.result.batch.event == StreamFinished then 1 else 0
  {
    assert (returned + [r])[..|returned|] == returned;
  }

  /** The messages of the batch being built. */
  function Current(active: Option<Active>): seq<Message> { if active.Some? then active.value.batch.messages else [] }

  function Sent(s: Stream): seq<Item> { if s.pending.Some? then s.pushed + [s.pending.value] else s.pushed }

  /** The last item is an end or a failure. */
  predicate Ended(items: seq<Item>) { items != [] && Terminal(items[|items| - 1]) }

  predicate EndedWell(items: seq<Item>) { items != [] && items[|items| - 1].End? }

  /** The queue is the part of what was pushed that has not been taken. */
  ghost predicate QueueAgrees(pushed: seq<Item>, taken: seq<Item>, queue: seq<Item>) {
    pushed == taken + queue && |queue| <= StreamCapacity
  }

  /** What the producer sends is well-ordered, and it stops with an end or a failure. */
  ghost predicate ProducerAgrees(sent: seq<Item>, phase: Phase) {
    WellOrdered(sent) && (phase == Stopped <==> Ended(sent)) && (phase == Requesting ==> sent == [])
  }

  /** What was taken is delivered, in the batch being built, or lost to a failure. */
  ghost predicate Conserved(taken: seq<Item>, returned: seq<Returned>, lost: seq<Message>, current: seq<Message>) {
    && MessagesOf(taken) == Delivered(returned) + lost + current
    && (lost != [] ==> Ended(taken) && !EndedWell(taken))
    && (Ended(taken) ==> current == [])
    && Finishes(returned) == if EndedWell(taken) then 1 else 0
  }

  ghost predicate ReturnedWell(r: Returned) {
    && r.result != StreamClosed
    && (r.result.Read? ==> WellShaped(r.result.batch, r.limit) && r.result.batch.event != FlushAfterClose)
  }

  ghost predicate AllReturnedWell(returned: seq<Returned>) {
    forall i | 0 <= i < |returned| :: ReturnedWell(returned[i])
  }

  ghost predicate ActiveWell(active: Option<Active>) {
    active.Some? ==> Building(active.value.batch, active.value.limit)
  }

  ghost predicate Invariant(s: Stream) {
    && QueueAgrees(s.pushed, s.taken, s.queue)
    && ProducerAgrees(Sent(s), s.phase)
    && Conserved(s.taken, s.returned, s.lost, Current(s.active))
    && AllReturnedWell(s.returned)
    && ActiveWell(s.active)
  }

  // ----- every action keeps the invariant -----

  lemma ProducerSends(sent: seq<Item>, phase: Phase, item: Item)
    requires ProducerAgrees(sent, phase) && phase != Stopped && (item.Header? ==> phase == Requesting)
    ensures ProducerAgrees(sent + [item], if Terminal(item) then Stopped else Streaming)
  {
  }

  /** Behind an end or a failure there is nothing, neither queued nor on its way. */
  lemma NothingFollows(s: Stream)
    requires QueueAgrees(s.pushed, s.taken, s.queue) && ProducerAgrees(Sent(s), s.phase) && Ended(s.taken)
    ensures s.queue == [] && s.pending.None? && s.phase == Stopped && s.pushed == s.taken
  {
    assert Sent(s)[|s.taken| - 1] == s.taken[|s.taken| - 1];
  }

  /** While a reader or the producer is at work, the stream object is held: its queue never closes. */
  lemma NeverClosed(s: Stream)
    ensures !Enabled(s, ReceiveClosed) && !Enabled(s, PushFails)
  {
  }

  lemma ProducerStepKeeps(s: Stream, a: Action)
    requires Invariant(s) && Enabled(s, a) && (a.Respond? || a.RejectRequest? || a.Produce?)
    ensures Invariant(Next(s, a))
  {
    ProducerSends(s.pushed, s.phase, Next(s, a).pending.value);
  }

  lemma PushKeeps(s: Stream)
    requires Invariant(s) && Enabled(s, Push)
    ensures Invariant(Next(s, Push))
  {
    var t := Next(s, Push);
    assert t.pushed == t.taken + t.queue;
    assert Sent(t) == Sent(s);
  }

  lemma ReturnConserves(taken: seq<Item>, returned: seq<Returned>, lost: seq<Message>, current: seq<Message>,
                        r: Returned)
    requires Conserved(taken, returned, lost, current) && !r.result.Read?
    ensures Conserved(taken, returned + [r], lost, current)
  {
    AppendedReturn(returned, r);
    assert Delivered(returned) + [] == Delivered(returned);
  }

  lemma FlushConserves(taken: seq<Item>, returned: seq<Returned>, lost: seq<Message>, r: Returned)
    requires r.result.Read? && r.result.batch.event != StreamFinished
    requires Conserved(taken, returned, lost, r.result.batch.messages)
    ensures Conserved(taken, returned + [r], lost, [])
  {
    AppendedReturn(returned, r);
  }

  lemma OneMoreReturned(returned: seq<Returned>, r: Returned)
    requires AllReturnedWell(returned) && ReturnedWell(r)
    ensures AllReturnedWell(returned + [r])
  {
  }

  lemma TimeOutConserves(taken: seq<Item>, returned: seq<Returned>, lost: seq<Message>, a: Active)
    requires Conserved(taken, returned, lost, a.batch.messages)
    ensures Conserved(taken, returned + [Returned(a.reader, a.limit, OnTimeout(a.batch))], lost, [])
  {
    var r := Returned(a.reader, a.limit, OnTimeout(a.batch));
    if r.result.Read? {
      FlushConserves(taken, returned, lost, r);
    } else {
      ReturnConserves(taken, returned, lost, [], r);
    }
  }

  lemma TimeOutKeeps(s: Stream)
    requires Invariant(s) && Enabled(s, TimeOut)
    ensures Invariant(Next(s, TimeOut))
  {
    var a := s.active.value;
    TimeOutConserves(s.taken, s.returned, s.lost, a);
    OneMoreReturned(s.returned, Returned(a.reader, a.limit, OnTimeout(a.batch)));
  }

  lemma TakenAgrees(s: Stream)
    requires Invariant(s) && Enabled(s, Receive)
    ensures QueueAgrees(s.pushed, s.taken + [s.queue[0]], s.queue[1..]) && !Ended(s.taken)
  {
    if Ended(s.taken) { NothingFollows(s); }
    assert (s.taken + [s.queue[0]]) + s.queue[1..] == s.taken + s.queue;
  }

  lemma EndConserves(taken: seq<Item>, returned: seq<Returned>, r: Returned, item: Item, lost: seq<Message>)
    requires Terminal(item) && Conserved(taken, returned, [], if r.result.Read? then r.result.batch.messages else lost)
    requires !Ended(taken)
    requires item.End? ==> lost == [] && r.result.Read? && r.result.batch.event == StreamFinished
    requires item.Failure? ==> r.result.ReadFailed?
    ensures Conserved(taken + [item], returned + [r], lost, [])
  {
    AppendedItem(taken, item);
    AppendedReturn(returned, r);
  }

  lemma DataConserves(taken: seq<Item>, returned: seq<Returned>, item: Item, current: seq<Message>)
    requires Conserved(taken, returned, [], current) && !Ended(taken) && !Terminal(item)
    ensures Conserved(taken + [item], returned, [], current + if item.Data? then [item.message] else [])
  {
    AppendedItem(taken, item);
  }

  /** Whatever item a reader takes, it adds it to the batch, returns it, or loses it to a failure. */
  lemma ItemConserves(taken: seq<Item>, returned: seq<Returned>, a: Active, item: Item)
    requires Conserved(taken, returned, [], a.batch.messages) && !Ended(taken)
    ensures var more := taken + [item];
      match OnItem(a.batch, item, a.limit)
      case Continue(b) => Conserved(more, returned, [], b.messages)
      case Return(result) =>
        Conserved(more, returned + [Returned(a.reader, a.limit, result)], if item.Failure? then a.batch.messages
            else [], [])
  {
    var p := OnItem(a.batch, item, a.limit);
    if Terminal(item) {
      EndConserves(taken, returned, Returned(a.reader, a.limit, p.result), item, if item.Failure? then a.batch.messages
          else []);
    } else {
      DataConserves(taken, returned, item, a.batch.messages);
      if p.Return? {
        FlushConserves(taken + [item], returned, [], Returned(a.reader, a.limit, p.result));
      }
    }
  }

  lemma ItemShapes(a: Active, item: Item)
    requires Building(a.batch, a.limit)
    ensures match OnItem(a.batch, item, a.limit)
      case Continue(b) => Building(b, a.limit)
      case Return(result) => ReturnedWell(Returned(a.reader, a.limit, result))
  {
    if item.Data? {
      AppendedBytes(a.batch.messages, item.message);
      assert (a.batch.messages + [item.message])[..|a.batch.messages|] == a.batch.messages;
    }
  }

  lemma ReceiveConserves(s: Stream)
    requires Conserved(s.taken, s.returned, s.lost, Current(s.active)) && Enabled(s, Receive) && !Ended(s.taken)
    ensures var t := Next(s, Receive); Conserved(t.taken, t.returned, t.lost, Current(t.active))
  {
    var a, item := s.active.value, s.queue[0];
    assert s.lost == [];
    assert [] + a.batch.messages == a.batch.messages;
    ItemConserves(s.taken, s.returned, a, item);
    if item.Failure? { assert Next(s, Receive).lost == a.batch.messages; }
  }

  lemma ReceiveShapes(s: Stream)
    requires AllReturnedWell(s.returned) && ActiveWell(s.active) && Enabled(s, Receive)
    ensures var t := Next(s, Receive); AllReturnedWell(t.returned) && ActiveWell(t.active)
  {
    var a := s.active.value;
    ItemShapes(a, s.queue[0]);
    var p := OnItem(a.batch, s.queue[0], a.limit);
    if p.Return? { OneMoreReturned(s.returned, Returned(a.reader, a.limit, p.result)); }
  }

  lemma ReceiveKeeps(s: Stream)
    requires Invariant(s) && Enabled(s, Receive)
    ensures Invariant(Next(s, Receive))
  {
    var t := Next(s, Receive);
    assert Sent(t) == Sent(s) && t.phase == s.phase && t.pushed == s.pushed;
    assert t.taken == s.taken + [s.queue[0]] && t.queue == s.queue[1..];
    TakenAgrees(s);
    ReceiveConserves(s);
    ReceiveShapes(s);
  }

  lemma BeginReadKeeps(s: Stream, reader: ReaderId, limit: nat)
    requires Invariant(s) && Enabled(s, BeginRead(reader, limit))
    ensures Invariant(Next(s, BeginRead(reader, limit)))
  {
    var t := Next(s, BeginRead(reader, limit));
    assert Sent(t) == Sent(s) && t.phase == s.phase && t.active == s.active;
    assert t.pushed == s.pushed && t.taken == s.taken && t.queue == s.queue && t.lost == s.lost;
    if !s.registered {
      ReturnConserves(s.taken, s.returned, s.lost, Current(s.active), Returned(reader, limit, StreamUnknown));
      OneMoreReturned(s.returned, Returned(reader, limit, StreamUnknown));
    }
  }

  /** Every action of the producer, a reader or a canceller keeps the invariant. */
  lemma StepKeeps(s: Stream, a: Action)
    requires Invariant(s) && Enabled(s, a)
    ensures Invariant(Next(s, a))
  {
    NeverClosed(s);
    match a
    case Respond(_) => ProducerStepKeeps(s, a);
    case RejectRequest(_) => ProducerStepKeeps(s, a);
    case Produce(_) => ProducerStepKeeps(s, a);
    case Push => PushKeeps(s);
    case BeginRead(r, limit) => BeginReadKeeps(s, r, limit);
    case TakeTurn(_) =>
    case Receive => ReceiveKeeps(s);
    case TimeOut => TimeOutKeeps(s);
    case Destroy =>
  }

  // ----- runs -----

  ghost predicate IsRun(s: Stream, actions: seq<Action>, t: Stream)
    decreases |actions|
  {
    if actions == [] then t == s
    else Enabled(s, actions[0]) && IsRun(Next(s, actions[0]), actions[1..], t)
  }

  lemma {:induction false} RunKeeps(s: Stream, actions: seq<Action>, t: Stream)
    requires Invariant(s) && IsRun(s, actions, t)
    ensures Invariant(t)
    decreases |actions|
  {
    if actions != [] {
      StepKeeps(s, actions[0]);
      RunKeeps(Next(s, actions[0]), actions[1..], t);
    }
  }

  /** A state that some run of a gRPC or an HTTP stream leads to. */
  ghost predicate Reachable(t: Stream) {
    exists actions :: IsRun(StartGrpc(), actions, t) || IsRun(StartHttp(), actions, t)
  }

  lemma ReachableKeeps(t: Stream)
    requires Reachable(t)
    ensures Invariant(t)
  {
    var actions :| IsRun(StartGrpc(), actions, t) || IsRun(StartHttp(), actions, t);
    if IsRun(StartGrpc(), actions, t) {
      RunKeeps(StartGrpc(), actions, t);
    } else {
      RunKeeps(StartHttp(), actions, t);
    }
  }

  /** In every run, with any interleaving of producer, readers, timeouts and cancellation: until a
      read failure is consumed, the returned batches, the batch being built and the queue together
      are exactly the messages pushed, in order; after it, what was delivered is still a prefix. */
  lemma MessagesAreConserved(s: Stream)
    requires Reachable(s)
    ensures !Ended(s.taken) || EndedWell(s.taken) ==>
              Delivered(s.returned) + Current(s.active) + MessagesOf(s.queue) == MessagesOf(s.pushed)
    ensures Delivered(s.returned) <= MessagesOf(s.pushed)
    ensures |s.queue| <= StreamCapacity
  {
    ReachableKeeps(s);
    MessagesOfConcat(s.taken, s.queue);
    ConservedInAll(MessagesOf(s.taken), Delivered(s.returned), s.lost, Current(s.active), MessagesOf(s.queue));
  }

  lemma ConservedInAll(taken: seq<Message>, delivered: seq<Message>, lost: seq<Message>, current: seq<Message>,
                       queued: seq<Message>)
    requires taken == delivered + lost + current
    ensures delivered <= taken + queued
    ensures lost == [] ==> delivered + current + queued == taken + queued
  {
    assert lost == [] ==> delivered + lost == delivered;
  }

  /** A stream is reported finished at most once, and then everything pushed has been delivered and
      nothing can be pushed any more. */
  lemma FinishedMeansDelivered(s: Stream)
    requires Reachable(s)
    ensures Finishes(s.returned) <= 1
    ensures Finishes(s.returned) == 1 ==>
              Delivered(s.returned) == MessagesOf(s.pushed) && s.queue == [] && s.pending.None? && s.phase == Stopped
  {
    ReachableKeeps(s);
    if EndedWell(s.taken) { NothingFollows(s); }
  }

  /** The byte total of every batch is the sum of its messages; only a batch flushed for its size
      exceeds the reader's limit, and only by its last message. No read ever finds the queue closed. */
  lemma BatchesAreWellShaped(s: Stream, i: nat)
    requires Reachable(s) && i < |s.returned|
    ensures ReturnedWell(s.returned[i])
  {
    ReachableKeeps(s);
  }
}
