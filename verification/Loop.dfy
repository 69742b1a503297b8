/** The message loop of vynkor/concurrent.py as a system of steps: one loop task, any number of handler tasks, and a
    bounded queue between them. A step is what runs between two awaits. */
module Loop {
  import opened Wrappers
  import opened Octets

  const RESPONSE_CHANNEL_CAPACITY := 256

  datatype ActionResult = OkBytes(data: Bytes) | ErrText(error: string)

  datatype Envelope =
    | Ping(timestamp: int)
    | Pong(original: int, server: int)
    | PluginShutdown
    | ActionRequest(actionId: string, action: string, params: Bytes)
    | ActionResponse(actionId: string, result: ActionResult)
    | Event(eventId: string)
    | EventAck(eventId: string)
    | Other(kind: nat)
    | NoPayload

  /** `response_envelope` */
  function ResponseEnvelope(actionId: string, result: ActionResult): Envelope {
    ActionResponse(actionId, result)
  }

  /** An envelope on its way from a handler task: the `index`-th of those handler number `task` returned. */
  datatype Item = Item(task: nat, index: nat, envelope: Envelope)

  datatype Progress =
    | Running
    | Putting(outputs: seq<Envelope>, next: nat, blocked: bool)   // `blocked`: awaiting queue.put

  datatype Handler = Handler(request: Envelope, progress: Progress)

  datatype Received = Disconnected | Inbound(envelope: Envelope)

  datatype Phase =
    | Waiting(recv: Option<Received>, fetched: Option<Item>)      // asyncio.wait; what each future has so far
    | InEvent(event: Envelope)                                    // awaiting handler.on_event
    | InMessage(message: Envelope)                                // awaiting handler.on_message
    | Draining(exit: bool)
    | Exited

  /** A call of client.send: a handler's envelope, or the loop's own answer to an inbound one. */
  datatype Attempt = Reply(item: Item) | Answer(envelope: Envelope)

  /** An item that has left the queue for good. */
  datatype Departure = Departure(item: Item, sent: bool)

  /** How an inbound envelope was dealt with. */
  datatype Dealt =
    | Answered(inbound: Envelope, server: int)
    | Rejected(inbound: Envelope, error: string)
    | Accepted(inbound: Envelope)
    | CalledBack(inbound: Envelope, result: Callback)
    | Ignored(inbound: Envelope)

  datatype Callback = CallbackRaised | Returned(reply: Option<Envelope>)

  datatype State = State(
    queue: seq<Item>, handlers: seq<Handler>, phase: Phase, attempts: seq<Attempt>,
    puts: seq<Item>, left: seq<Departure>, dealt: seq<Dealt>)

  const INITIAL := State([], [], Waiting(None, None), [], [], [], [])

  datatype Step =
    | RecvCompletes(r: Received)
    | GetCompletes
    | Resume(server: int, verdict: Option<string>)   // `verdict`: what accept() raises for an action request, if it does
    | CallbackEnds(result: Callback)
    | DrainOne
    | DrainDone
    | HandlerReturns(t: nat, outputs: seq<Envelope>)
    | HandlerRaises(t: nat, message: string)
    | Put(t: nat)
    | Block(t: nat)

  // ---------------------------------------------------------------------------
  // Steps
  // ---------------------------------------------------------------------------

  predicate CanPut(s: State, t: nat) {
    t < |s.handlers| && s.handlers[t].progress.Putting? && s.handlers[t].progress.next < |s.handlers[t].progress.outputs|
  }

  predicate Enabled(s: State, step: Step) {
    match step
    case RecvCompletes(_) => s.phase.Waiting? && s.phase.recv.None?
    case GetCompletes => s.phase.Waiting? && s.phase.fetched.None? && s.queue != []
    case Resume(_, _) => s.phase.Waiting? && (s.phase.recv.Some? || s.phase.fetched.Some?)
    case CallbackEnds(_) => s.phase.InEvent? || s.phase.InMessage?
    case DrainOne => s.phase.Draining? && s.queue != []
    case DrainDone => s.phase.Draining? && s.queue == []
    case HandlerReturns(t, _) => t < |s.handlers| && s.handlers[t].progress.Running?
    case HandlerRaises(t, _) => t < |s.handlers| && s.handlers[t].progress.Running?
    case Put(t) => CanPut(s, t) && |s.queue| < RESPONSE_CHANNEL_CAPACITY
    case Block(t) =>
      CanPut(s, t) && |s.queue| == RESPONSE_CHANNEL_CAPACITY && !s.handlers[t].progress.blocked
  }

  const AGAIN := Waiting(None, None)

  function FetchedItem(phase: Phase): seq<Item> {
    if phase.Waiting? && phase.fetched.Some? then [phase.fetched.value] else []
  }

  /** The loop handles an inbound envelope. */
  function Handle(s: State, envelope: Envelope, server: int, verdict: Option<string>): State {
    match envelope
    case Ping(timestamp) =>
      s.(attempts := s.attempts + [Answer(Pong(timestamp, server))], dealt := s.dealt + [Answered(envelope, server)],
         phase := Draining(false))
    case PluginShutdown => s.(dealt := s.dealt + [Ignored(envelope)], phase := Draining(true))
    case ActionRequest(actionId, _, _) =>
      if verdict.Some? then
        s.(attempts := s.attempts + [Answer(ResponseEnvelope(actionId, ErrText(verdict.value)))],
           dealt := s.dealt + [Rejected(envelope, verdict.value)], phase := AGAIN)
      else
        s.(handlers := s.handlers + [Handler(envelope, Running)], dealt := s.dealt + [Accepted(envelope)],
           phase := Draining(false))
    case Event(_) => s.(phase := InEvent(envelope))
    case NoPayload => s.(dealt := s.dealt + [Ignored(envelope)], phase := AGAIN)
    case _ => s.(phase := InMessage(envelope))
  }

  /** The state in which the loop looks at what it received: a queue item fetched in the same wait is gone. */
  function Noticed(s: State): State
    requires s.phase.Waiting?
  {
    s.(left := s.left + if s.phase.fetched.Some? then [Departure(s.phase.fetched.value, false)] else [], phase := AGAIN)
  }

  /** The loop task runs again after asyncio.wait: the receive is looked at first, and a queue item that was fetched at
      the same time is not looked at at all. */
  function ApplyResume(s: State, server: int, verdict: Option<string>): State
    requires s.phase.Waiting?
  {
    match s.phase.recv
    case None =>
      if s.phase.fetched.None? then s
      else
        var item := s.phase.fetched.value;
        s.(attempts := s.attempts + [Reply(item)], left := s.left + [Departure(item, true)], phase := AGAIN)
    case Some(received) =>
      match received
      case Disconnected => Noticed(s).(phase := Draining(true))
      case Inbound(envelope) => Handle(Noticed(s), envelope, server, verdict)
  }

  function ReplyAttempts(reply: Option<Envelope>): seq<Attempt> {
    if reply.Some? then [Answer(reply.value)] else []
  }

  function ApplyCallback(s: State, result: Callback): State
    requires s.phase.InEvent? || s.phase.InMessage?
  {
    var inbound := if s.phase.InEvent? then s.phase.event else s.phase.message;
    var s1 := s.(dealt := s.dealt + [CalledBack(inbound, result)]);
    match result
    case CallbackRaised => s1.(phase := AGAIN)
    case Returned(reply) =>
      var ack := if inbound.Event? then [Answer(EventAck(inbound.eventId))] else [];
      s1.(attempts := s.attempts + ack + ReplyAttempts(reply), phase := Draining(false))
  }

  function WithProgress(s: State, t: nat, progress: Progress): seq<Handler>
    requires t < |s.handlers|
  {
    s.handlers[t := s.handlers[t].(progress := progress)]
  }

  function ApplyPut(s: State, t: nat): State
    requires CanPut(s, t)
  {
    var p := s.handlers[t].progress;
    var item := Item(t, p.next, p.outputs[p.next]);
    s.(queue := s.queue + [item], puts := s.puts + [item],
       handlers := WithProgress(s, t, Putting(p.outputs, p.next + 1, false)))
  }

  function Apply(s: State, step: Step): State
    requires Enabled(s, step)
  {
    match step
    case RecvCompletes(r) => s.(phase := s.phase.(recv := Some(r)))
    case GetCompletes => s.(phase := s.phase.(fetched := Some(s.queue[0])), queue := s.queue[1..])
    case Resume(server, verdict) => ApplyResume(s, server, verdict)
    case CallbackEnds(result) => ApplyCallback(s, result)
    case DrainOne =>
      s.(queue := s.queue[1..], attempts := s.attempts + [Reply(s.queue[0])],
         left := s.left + [Departure(s.queue[0], true)])
    case DrainDone => s.(phase := if s.phase.exit then Exited else AGAIN)
    case HandlerReturns(t, outputs) => s.(handlers := WithProgress(s, t, Putting(outputs, 0, false)))
    case HandlerRaises(t, message) =>
      var error := ResponseEnvelope(RequestId(s.handlers[t].request), ErrText("handler panicked: " + message));
      s.(handlers := WithProgress(s, t, Putting([error], 0, false)))
    case Put(t) => ApplyPut(s, t)
    case Block(t) => s.(handlers := WithProgress(s, t, s.handlers[t].progress.(blocked := true)))
  }

  function RequestId(request: Envelope): string {
    if request.ActionRequest? then request.actionId else ""
  }

  /** The state after a run, if every step of it was enabled. */
  function Run(steps: seq<Step>): Option<State> {
    if steps == [] then Some(INITIAL)
    else
      var before := Run(steps[..|steps| - 1]);
      if before.Some? && Enabled(before.value, steps[|steps| - 1])
      then Some(Apply(before.value, steps[|steps| - 1])) else None
  }

  // ---------------------------------------------------------------------------
  // Reading the history
  // ---------------------------------------------------------------------------

  function Items(left: seq<Departure>): (s: seq<Item>)
    ensures |s| == |left|
    ensures forall i :: 0 <= i < |left| ==> s[i] == left[i].item
  {
    if left == [] then [] else Items(left[..|left| - 1]) + [left[|left| - 1].item]
  }

  /** The departures that were sent, or that were not. */
  function Pick(left: seq<Departure>, sent: bool): seq<Item> {
    if left == [] then []
    else Pick(left[..|left| - 1], sent) + if left[|left| - 1].sent == sent then [left[|left| - 1].item] else []
  }

  /** The handler envelopes among the send attempts. */
  function Replies(attempts: seq<Attempt>): seq<Item> {
    if attempts == [] then []
    else Replies(attempts[..|attempts| - 1])
         + if attempts[|attempts| - 1].Reply? then [attempts[|attempts| - 1].item] else []
  }

  /** The loop's own answers among the send attempts. */
  function Answers(attempts: seq<Attempt>): seq<Envelope> {
    if attempts == [] then []
    else Answers(attempts[..|attempts| - 1])
         + if attempts[|attempts| - 1].Answer? then [attempts[|attempts| - 1].envelope] else []
  }

  /** What the protocol owes an inbound envelope, given how it was dealt with. */
  function Owed(d: Dealt): seq<Envelope> {
    match d
    case Answered(inbound, server) => if inbound.Ping? then [Pong(inbound.timestamp, server)] else []
    case Rejected(inbound, error) => [ActionResponse(RequestId(inbound), ErrText(error))]
    case Accepted(_) => []
    case CalledBack(_, CallbackRaised) => []
    case CalledBack(inbound, Returned(reply)) =>
      (if inbound.Event? then [EventAck(inbound.eventId)] else []) + (if reply.Some? then [reply.value] else [])
    case Ignored(_) => []
  }

  function OwedAll(dealt: seq<Dealt>): seq<Envelope> {
    if dealt == [] then [] else OwedAll(dealt[..|dealt| - 1]) + Owed(dealt[|dealt| - 1])
  }

  function AcceptedRequests(dealt: seq<Dealt>): seq<Envelope> {
    if dealt == [] then []
    else AcceptedRequests(dealt[..|dealt| - 1])
         + if dealt[|dealt| - 1].Accepted? then [dealt[|dealt| - 1].inbound] else []
  }

  function Requests(handlers: seq<Handler>): (s: seq<Envelope>)
    ensures |s| == |handlers|
    ensures forall i :: 0 <= i < |handlers| ==> s[i] == handlers[i].request
  {
    seq(|handlers|, i requires 0 <= i < |handlers| => handlers[i].request)
  }

  // ---------------------------------------------------------------------------
  // The invariant
  // ---------------------------------------------------------------------------

  /** Items of one task appear in the order it returned them, none twice. */
  ghost predicate Ordered(items: seq<Item>) {
    forall i, j :: 0 <= i < j < |items| && items[i].task == items[j].task ==> items[i].index < items[j].index
  }

  /** An envelope of a handler has been put exactly if that handler's counter is past it. */
  ghost predicate PutsExact(puts: seq<Item>, handlers: seq<Handler>) {
    && (forall t: nat :: t < |handlers| ==> Counted(handlers[t].progress))
    && (forall x :: x in puts <==> x.task < |handlers| && HasPut(handlers[x.task].progress, x.index, x.envelope))
  }

  predicate Counted(p: Progress) {
    p.Putting? ==> p.next <= |p.outputs|
  }

  predicate HasPut(p: Progress, index: nat, envelope: Envelope) {
    p.Putting? && index < p.next <= |p.outputs| && p.outputs[index] == envelope
  }

  /** The queue is first-in first-out: what was put is what left, then what was fetched, then what waits. */
  ghost predicate Fifo(s: State) {
    s.puts == Items(s.left) + FetchedItem(s.phase) + s.queue
  }

  /** The send attempts are the handler envelopes that left as sent, and the answers owed, each in order; the handlers
      are the accepted requests. */
  ghost predicate Books(attempts: seq<Attempt>, left: seq<Departure>, dealt: seq<Dealt>, handlers: seq<Handler>) {
    && Replies(attempts) == Pick(left, true)
    && Answers(attempts) == OwedAll(dealt)
    && Requests(handlers) == AcceptedRequests(dealt)
  }

  ghost predicate Inv(s: State) {
    && |s.queue| <= RESPONSE_CHANNEL_CAPACITY
    && Ordered(s.puts) && PutsExact(s.puts, s.handlers) && Fifo(s)
    && Books(s.attempts, s.left, s.dealt, s.handlers)
    && (s.phase.InEvent? ==> s.phase.event.Event?)
    && (s.phase.InMessage? ==> !s.phase.message.Event?)
  }

  lemma LeftSnoc(left: seq<Departure>, d: Departure, sent: bool)
    ensures Items(left + [d]) == Items(left) + [d.item]
    ensures Pick(left + [d], sent) == Pick(left, sent) + if d.sent == sent then [d.item] else []
  {
    assert (left + [d])[..|left|] == left;
  }

  lemma AttemptSnoc(attempts: seq<Attempt>, a: Attempt)
    ensures Replies(attempts + [a]) == Replies(attempts) + if a.Reply? then [a.item] else []
    ensures Answers(attempts + [a]) == Answers(attempts) + if a.Answer? then [a.envelope] else []
  {
    assert (attempts + [a])[..|attempts|] == attempts;
  }

  function Wrap(es: seq<Envelope>): seq<Attempt> {
    if es == [] then [] else Wrap(es[..|es| - 1]) + [Answer(es[|es| - 1])]
  }

  lemma {:induction false} AnswersWrap(attempts: seq<Attempt>, es: seq<Envelope>)
    ensures Replies(attempts + Wrap(es)) == Replies(attempts)
    ensures Answers(attempts + Wrap(es)) == Answers(attempts) + es
  {
    hide Answers, Replies;
    var wrapped := Wrap(es);
    if es == [] {
      assert attempts + wrapped == attempts;
    } else {
      var init, last := es[..|es| - 1], es[|es| - 1];
      AnswersWrap(attempts, init);
      var before := Wrap(init);
      assert wrapped == before + [Answer(last)];
      hide Wrap;
      AttemptSnoc(attempts + before, Answer(last));
      assert attempts + wrapped == attempts + before + [Answer(last)];
      assert Answers(attempts + wrapped) == Answers(attempts) + init + [last];
    }
  }

  /** An envelope goes out, or is lost. */
  lemma BooksDeparture(attempts: seq<Attempt>, left: seq<Departure>, dealt: seq<Dealt>, handlers: seq<Handler>, d: Departure)
    requires Books(attempts, left, dealt, handlers)
    ensures Books(if d.sent then attempts + [Reply(d.item)] else attempts, left + [d], dealt, handlers)
  {
    LeftSnoc(left, d, true);
    AttemptSnoc(attempts, Reply(d.item));
  }

  /** An inbound envelope is dealt with: what it is owed is attempted, and an accepted one gets a handler. */
  lemma BooksDealt(attempts: seq<Attempt>, left: seq<Departure>, dealt: seq<Dealt>, handlers: seq<Handler>, d: Dealt)
    requires Books(attempts, left, dealt, handlers)
    ensures Books(attempts + Wrap(Owed(d)), left, dealt + [d],
                  handlers + if d.Accepted? then [Handler(d.inbound, Running)] else [])
  {
    AnswersWrap(attempts, Owed(d));
    DealtSnoc(dealt, d);
    hide Replies, Answers, Pick, OwedAll, AcceptedRequests, Owed, Wrap;
    assert Requests(handlers + [Handler(d.inbound, Running)]) == Requests(handlers) + [d.inbound];
    assert handlers + [] == handlers;
  }

  lemma DealtSnoc(dealt: seq<Dealt>, d: Dealt)
    ensures OwedAll(dealt + [d]) == OwedAll(dealt) + Owed(d)
    ensures AcceptedRequests(dealt + [d]) == AcceptedRequests(dealt) + if d.Accepted? then [d.inbound] else []
  {
    assert (dealt + [d])[..|dealt|] == dealt;
  }

  /** One handler makes progress. */
  lemma BooksProgress(attempts: seq<Attempt>, left: seq<Departure>, dealt: seq<Dealt>, s: State, t: nat, p: Progress)
    requires t < |s.handlers| && Books(attempts, left, dealt, s.handlers)
    ensures Books(attempts, left, dealt, WithProgress(s, t, p))
  {
    assert Requests(WithProgress(s, t, p)) == Requests(s.handlers);
  }

  lemma PutGrows(puts: seq<Item>, s: State, t: nat)
    requires CanPut(s, t) && PutsExact(puts, s.handlers) && Ordered(puts)
    ensures var p := s.handlers[t].progress;
            var puts' := puts + [Item(t, p.next, p.outputs[p.next])];
            Ordered(puts') && PutsExact(puts', WithProgress(s, t, Putting(p.outputs, p.next + 1, false)))
  {
    var p := s.handlers[t].progress;
    var item := Item(t, p.next, p.outputs[p.next]);
    var puts' := puts + [item];
    var handlers' := WithProgress(s, t, Putting(p.outputs, p.next + 1, false));
    forall x
      ensures x in puts' <==> x.task < |handlers'| && HasPut(handlers'[x.task].progress, x.index, x.envelope)
    {
      assert x in puts' <==> x in puts || x == item;
    }
    forall i | 0 <= i < |puts| && puts[i].task == t
      ensures puts[i].index < p.next
    {
      assert puts[i] in puts;
    }
  }

  /** A handler starts putting, or waits for room. */
  lemma PutsSame(puts: seq<Item>, s: State, t: nat, p: Progress)
    requires t < |s.handlers| && PutsExact(puts, s.handlers) && p.Putting? && Counted(p)
    requires if s.handlers[t].progress.Running? then p.next == 0
             else p.next == s.handlers[t].progress.next && p.outputs == s.handlers[t].progress.outputs
    ensures PutsExact(puts, WithProgress(s, t, p))
  {
  }

  lemma PutsSpawn(puts: seq<Item>, handlers: seq<Handler>, request: Envelope)
    requires PutsExact(puts, handlers)
    ensures PutsExact(puts, handlers + [Handler(request, Running)])
  {
  }

  lemma HandleKeepsInv(s: State, envelope: Envelope, server: int, verdict: Option<string>)
    requires Inv(s) && s.phase == AGAIN
    ensures Inv(Handle(s, envelope, server, verdict))
  {
    hide PutsExact, Ordered, Books, Items;
    var s' := Handle(s, envelope, server, verdict);
    if s'.dealt != s.dealt {
      var d := s'.dealt[|s.dealt|];
      BooksDealt(s.attempts, s.left, s.dealt, s.handlers, d);
      WrapOne(Owed(d));
      assert s'.attempts == s.attempts + Wrap(Owed(d));
      PutsSpawn(s.puts, s.handlers, d.inbound);
      assert s.handlers + [] == s.handlers;
    }
  }

  lemma WrapOne(es: seq<Envelope>)
    requires |es| <= 2
    ensures Wrap(es) == if |es| == 0 then [] else if |es| == 1 then [Answer(es[0])] else [Answer(es[0]), Answer(es[1])]
  {
    if |es| == 2 {
      assert es[..1][..0] == [] && es[..1][0] == es[0];
    }
  }

  /** The wait is over: what was fetched leaves the queue, sent or not. */
  lemma FetchedLeaves(s: State, attempts: seq<Attempt>, d: Departure)
    requires Inv(s) && s.phase.Waiting? && s.phase.fetched == Some(d.item)
    requires attempts == if d.sent then s.attempts + [Reply(d.item)] else s.attempts
    ensures Inv(s.(attempts := attempts, left := s.left + [d], phase := AGAIN))
  {
    hide PutsExact, Ordered, Books, Items, Pick;
    BooksDeparture(s.attempts, s.left, s.dealt, s.handlers, d);
    LeftSnoc(s.left, d, true);
  }

  lemma NoticedKeepsInv(s: State)
    requires Inv(s) && s.phase.Waiting?
    ensures Inv(Noticed(s)) && Noticed(s).phase == AGAIN
  {
    if s.phase.fetched.Some? {
      FetchedLeaves(s, s.attempts, Departure(s.phase.fetched.value, false));
    } else {
      hide PutsExact, Ordered, Books;
      assert Noticed(s).left == s.left;
    }
  }

  lemma DisconnectKeepsInv(s: State)
    requires Inv(s) && s.phase == AGAIN
    ensures Inv(s.(phase := Draining(true)))
  {
    hide PutsExact, Ordered, Books;
  }

  lemma ResumeKeepsInv(s: State, server: int, verdict: Option<string>)
    requires Inv(s) && Enabled(s, Resume(server, verdict))
    ensures Inv(ApplyResume(s, server, verdict))
  {
    hide PutsExact, Ordered, Books, Fifo, Handle;
    if s.phase.recv.None? {
      FetchedLeaves(s, s.attempts + [Reply(s.phase.fetched.value)], Departure(s.phase.fetched.value, true));
    } else {
      NoticedKeepsInv(s);
      if s.phase.recv.value.Inbound? {
        HandleKeepsInv(Noticed(s), s.phase.recv.value.envelope, server, verdict);
      } else {
        DisconnectKeepsInv(Noticed(s));
      }
    }
  }

  lemma CallbackKeepsInv(s: State, result: Callback)
    requires Inv(s) && Enabled(s, CallbackEnds(result))
    ensures Inv(ApplyCallback(s, result))
  {
    hide PutsExact, Ordered, Books, Items;
    var s' := ApplyCallback(s, result);
    var d := s'.dealt[|s.dealt|];
    BooksDealt(s.attempts, s.left, s.dealt, s.handlers, d);
    WrapOne(Owed(d));
    assert s'.attempts == s.attempts + Wrap(Owed(d));
    assert s.handlers + [] == s.handlers;
  }

  lemma DrainKeepsInv(s: State)
    requires Inv(s) && Enabled(s, DrainOne)
    ensures Inv(Apply(s, DrainOne))
  {
    hide PutsExact, Ordered, Books, Items, Pick;
    var d := Departure(s.queue[0], true);
    BooksDeparture(s.attempts, s.left, s.dealt, s.handlers, d);
    LeftSnoc(s.left, d, true);
    assert s.queue == [s.queue[0]] + s.queue[1..];
  }

  lemma ProgressKeepsInv(s: State, t: nat, p: Progress)
    requires Inv(s) && t < |s.handlers| && p.Putting? && Counted(p)
    requires if s.handlers[t].progress.Running? then p.next == 0
             else p.next == s.handlers[t].progress.next && p.outputs == s.handlers[t].progress.outputs
    ensures Inv(s.(handlers := WithProgress(s, t, p)))
  {
    hide PutsExact, Ordered, Books;
    PutsSame(s.puts, s, t, p);
    BooksProgress(s.attempts, s.left, s.dealt, s, t, p);
  }

  lemma PutKeepsInv(s: State, t: nat)
    requires Inv(s) && Enabled(s, Put(t))
    ensures Inv(ApplyPut(s, t))
  {
    hide PutsExact, Ordered, Books;
    var p := s.handlers[t].progress;
    PutGrows(s.puts, s, t);
    BooksProgress(s.attempts, s.left, s.dealt, s, t, Putting(p.outputs, p.next + 1, false));
  }

  lemma StepKeepsInv(s: State, step: Step)
    requires Inv(s) && Enabled(s, step)
    ensures Inv(Apply(s, step))
  {
    hide PutsExact, Ordered, Books, ApplyResume, ApplyPut, ApplyCallback, Items;
    match step
    case Put(t) => PutKeepsInv(s, t);
    case DrainOne => DrainKeepsInv(s);
    case Resume(server, verdict) => ResumeKeepsInv(s, server, verdict);
    case CallbackEnds(result) => CallbackKeepsInv(s, result);
    case HandlerReturns(t, outputs) => ProgressKeepsInv(s, t, Putting(outputs, 0, false));
    case HandlerRaises(t, message) =>
      var error := ResponseEnvelope(RequestId(s.handlers[t].request), ErrText("handler panicked: " + message));
      ProgressKeepsInv(s, t, Putting([error], 0, false));
    case Block(t) =>
      HandlersCounted(s, t);
      ProgressKeepsInv(s, t, s.handlers[t].progress.(blocked := true));
    case GetCompletes => assert s.queue == [s.queue[0]] + s.queue[1..];
    case RecvCompletes(_) =>
    case DrainDone =>
  }

  lemma HandlersCounted(s: State, t: nat)
    requires PutsExact(s.puts, s.handlers) && t < |s.handlers|
    ensures Counted(s.handlers[t].progress)
  {
  }

  lemma {:induction false} RunKeepsInv(steps: seq<Step>)
    ensures Run(steps).Some? ==> Inv(Run(steps).value)
  {
    hide Inv, Apply, Enabled;
    if steps == [] {
      InitiallyInv();
    } else {
      var init, last := steps[..|steps| - 1], steps[|steps| - 1];
      RunKeepsInv(init);
      if Run(init).Some? && Enabled(Run(init).value, last) {
        StepKeepsInv(Run(init).value, last);
      }
    }
  }

  lemma InitiallyInv()
    ensures Inv(INITIAL)
  {
  }
}
