/** run_concurrent_loop itself: the queue and the tasks it and its handlers share, updated in place. `trace` is the run
    so far, so that what is proved about runs holds of the object. */
module LoopTasks {
  import opened Wrappers
  import opened Loop
  import opened LoopLedger

  class ConcurrentLoop {
    var queue: seq<Item>
    var handlers: seq<Handler>
    var phase: Phase
    var attempts: seq<Attempt>
    ghost var puts: seq<Item>
    ghost var left: seq<Departure>
    ghost var dealt: seq<Dealt>
    ghost var trace: seq<Step>

    ghost function Now(): State
      reads this
    {
      State(queue, handlers, phase, attempts, puts, left, dealt)
    }

    ghost predicate Valid()
      reads this
    {
      Run(trace) == Some(Now())
    }

    /** This object has taken one more step. */
    twostate predicate Took(step: Step)
      reads this
    {
      && Enabled(old(Now()), step) && Now() == Apply(old(Now()), step)
      && trace == old(trace) + [step]
    }

    constructor ()
      ensures Valid() && trace == [] && Now() == INITIAL
    {
      queue, handlers, phase, attempts := [], [], AGAIN, [];
      puts, left, dealt, trace := [], [], [], [];
    }

    /** client.send, whose failure the loop ignores */
    method Send(attempt: Attempt)
      modifies this`attempts
      ensures attempts == old(attempts) + [attempt]
    {
      attempts := attempts + [attempt];
    }

    /** `_spawn` */
    method Spawn(request: Envelope)
      modifies this`handlers
      ensures handlers == old(handlers) + [Handler(request, Running)]
    {
      handlers := handlers + [Handler(request, Running)];
    }

    method RecvCompletes(r: Received)
      requires Valid() && phase.Waiting? && phase.recv.None?
      modifies this`phase, this`trace
      ensures Valid() && Took(Step.RecvCompletes(r))
      ensures phase == Waiting(Some(r), old(phase).fetched)
    {
      hide Run;
      phase := Waiting(Some(r), phase.fetched);
      Chain(trace, Step.RecvCompletes(r));
      trace := trace + [Step.RecvCompletes(r)];
    }

    method GetCompletes()
      requires Valid() && phase.Waiting? && phase.fetched.None? && queue != []
      modifies this`phase, this`queue, this`trace
      ensures Valid() && Took(Step.GetCompletes)
      ensures phase == Waiting(old(phase).recv, Some(old(queue)[0]))
    {
      hide Run;
      phase := Waiting(phase.recv, Some(queue[0]));
      queue := queue[1..];
      Chain(trace, Step.GetCompletes);
      trace := trace + [Step.GetCompletes];
    }

    /** One pass of the loop body after asyncio.wait, up to its next await of a callback or of the drain. */
    method Resume(server: int, verdict: Option<string>)
      requires Valid() && phase.Waiting? && (phase.recv.Some? || phase.fetched.Some?)
      modifies this
      ensures Valid() && Took(Step.Resume(server, verdict))
    {
      hide Run;
      var recv, fetched := phase.recv, phase.fetched;
      phase := AGAIN;
      if recv.Some? {
        if fetched.Some? {
          left := left + [Departure(fetched.value, false)];
        }
        if recv.value.Disconnected? {
          phase := Draining(true);
        } else {
          Dispatch(recv.value.envelope, server, verdict);
        }
      } else {
        Send(Reply(fetched.value));
        left := left + [Departure(fetched.value, true)];
      }
      Chain(trace, Step.Resume(server, verdict));
      trace := trace + [Step.Resume(server, verdict)];
      assert Now() == Apply(old(Now()), Step.Resume(server, verdict));
    }

    method Dispatch(envelope: Envelope, server: int, verdict: Option<string>)
      modifies this`attempts, this`handlers, this`phase, this`dealt
      ensures Now() == Handle(old(Now()), envelope, server, verdict)
    {
      match envelope
      case Ping(timestamp) =>
        Send(Answer(Pong(timestamp, server)));
        dealt, phase := dealt + [Answered(envelope, server)], Draining(false);
      case PluginShutdown =>
        dealt, phase := dealt + [Ignored(envelope)], Draining(true);
      case ActionRequest(actionId, _, _) =>
        if verdict.Some? {
          Send(Answer(ResponseEnvelope(actionId, ErrText(verdict.value))));
          dealt, phase := dealt + [Rejected(envelope, verdict.value)], AGAIN;
        } else {
          Spawn(envelope);
          dealt, phase := dealt + [Accepted(envelope)], Draining(false);
        }
      case Event(_) =>
        phase := InEvent(envelope);
      case NoPayload =>
        dealt, phase := dealt + [Ignored(envelope)], AGAIN;
      case _ =>
        phase := InMessage(envelope);
    }

    /** on_event or on_message returns or raises. */
    method CallbackEnds(result: Callback)
      requires Valid() && (phase.InEvent? || phase.InMessage?)
      modifies this
      ensures Valid() && Took(Step.CallbackEnds(result))
    {
      hide Run;
      var inbound := if phase.InEvent? then phase.event else phase.message;
      dealt := dealt + [CalledBack(inbound, result)];
      if result.CallbackRaised? {
        phase := AGAIN;
      } else {
        if inbound.Event? {
          Send(Answer(EventAck(inbound.eventId)));
        }
        if result.reply.Some? {
          Send(Answer(result.reply.value));
        }
        phase := Draining(false);
      }
      Chain(trace, Step.CallbackEnds(result));
      trace := trace + [Step.CallbackEnds(result)];
      assert Now() == Apply(old(Now()), Step.CallbackEnds(result));
    }

    /** on_action returns, or raises and is given the reply that says so. */
    method HandlerEnds(t: nat, result: HandlerResult)
      requires Valid() && t < |handlers| && handlers[t].progress.Running?
      modifies this`handlers, this`trace
      ensures Valid() && Took(EndOf(t, result))
    {
      hide Run;
      var outputs;
      match result {
        case Outputs(envelopes) => outputs := envelopes;
        case Raised(message) =>
          outputs := [ResponseEnvelope(RequestId(handlers[t].request), ErrText("handler panicked: " + message))];
      }
      handlers := handlers[t := handlers[t].(progress := Putting(outputs, 0, false))];
      assert handlers == WithProgress(old(Now()), t, Putting(outputs, 0, false));
      Chain(trace, EndOf(t, result));
      trace := trace + [EndOf(t, result)];
    }

    /** put_nowait; when the queue is full the task waits for room. */
    method PutNext(t: nat) returns (done: bool)
      requires Valid() && CanPut(Now(), t)
      modifies this`queue, this`handlers, this`puts, this`trace
      ensures Valid() && done == (|old(queue)| < 256)
      ensures if done then Took(Put(t))
              else if old(handlers[t].progress.blocked) then Now() == old(Now()) && trace == old(trace)
              else Took(Block(t))
    {
      hide Run;
      QueueBound(trace);
      var p := handlers[t].progress;
      done := |queue| < RESPONSE_CHANNEL_CAPACITY;
      if done {
        var item := Item(t, p.next, p.outputs[p.next]);
        queue := queue + [item];
        handlers := handlers[t := handlers[t].(progress := Putting(p.outputs, p.next + 1, false))];
        puts := puts + [item];
        Chain(trace, Put(t));
        trace := trace + [Put(t)];
      } else if !p.blocked {
        handlers := handlers[t := handlers[t].(progress := p.(blocked := true))];
        Chain(trace, Block(t));
        trace := trace + [Block(t)];
      }
    }

    /** Handler tasks run while the loop task awaits: each entry names a task that puts, if it can. */
    method Meanwhile(tasks: seq<nat>)
      requires Valid()
      modifies this`queue, this`handlers, this`puts, this`trace
      ensures Valid() && old(trace) <= trace && old(queue) <= queue
      ensures forall i :: |old(trace)| <= i < |trace| ==> trace[i].Put? || trace[i].Block?
    {
      hide Run;
      for i := 0 to |tasks|
        invariant Valid() && old(trace) <= trace && old(queue) <= queue
        invariant forall j :: |old(trace)| <= j < |trace| ==> trace[j].Put? || trace[j].Block?
      {
        if tasks[i] < |handlers| && handlers[tasks[i]].progress.Putting?
           && handlers[tasks[i]].progress.next < |handlers[tasks[i]].progress.outputs| {
          ghost var queue0 := queue;
          var _ := PutNext(tasks[i]);
          assert queue0 <= queue;
        }
      }
    }

    /** get_nowait and client.send */
    method PopAndSend()
      requires Valid() && phase.Draining? && queue != []
      modifies this`queue, this`attempts, this`left, this`trace
      ensures Valid() && Took(Step.DrainOne)
      ensures queue == old(queue)[1..] && Replies(attempts) + queue == old(Replies(attempts) + queue)
    {
      hide Run, Replies;
      AttemptSnoc(attempts, Reply(queue[0]));
      var item := queue[0];
      queue := queue[1..];
      Send(Reply(item));
      left := left + [Departure(item, true)];
      Chain(trace, DrainOne);
      trace := trace + [DrainOne];
    }

    /** The queue was seen empty: on to the next wait, or out of the loop. */
    method DrainEnds()
      requires Valid() && phase.Draining? && queue == []
      modifies this`phase, this`trace
      ensures Valid() && Took(Step.DrainDone)
      ensures phase == if old(phase.exit) then Exited else AGAIN
    {
      hide Run;
      phase := if phase.exit then Exited else AGAIN;
      Chain(trace, DrainDone);
      trace := trace + [DrainDone];
    }

    /** `while not queue.empty()`: pop and send until the queue is seen empty; `meanwhile` says which handler tasks run
        during each send. What was queued goes out, in order, and so does what the tasks put meanwhile. */
    method Drain(meanwhile: seq<seq<nat>>)
      requires Valid() && phase.Draining?
      modifies this
      ensures Valid() && old(trace) <= trace
      ensures queue == [] && phase == if old(phase.exit) then Exited else AGAIN
      ensures forall i :: |old(trace)| <= i < |trace| - 1 ==> DrainStep(trace[i])
      ensures |trace| > |old(trace)| && trace[|trace| - 1] == DrainDone
      ensures old(Replies(attempts) + queue) <= Replies(attempts)
    {
      hide Run, Replies, Apply, Enabled;
      var k := 0;
      while queue != []
        invariant Valid() && old(trace) <= trace && phase == old(phase)
        invariant forall i :: |old(trace)| <= i < |trace| ==> DrainStep(trace[i])
        invariant old(Replies(attempts) + queue) <= Replies(attempts) + queue
        decreases |meanwhile| - k, |queue|
      {
        PopAndSend();
        if k < |meanwhile| {
          Meanwhile(meanwhile[k]);
          k := k + 1;
        }
      }
      DrainEnds();
    }

    /** A handler task runs while the loop task awaits, if it can. */
    method HandlerActs(d: Doing)
      requires Valid()
      modifies this`queue, this`handlers, this`puts, this`trace
      ensures Valid() && old(trace) <= trace
    {
      hide Run, Apply;
      match d {
        case Ends(t, result) =>
          if t < |handlers| && handlers[t].progress.Running? {
            HandlerEnds(t, result);
          }
        case Puts(t) =>
          if t < |handlers| && handlers[t].progress.Putting?
             && handlers[t].progress.next < |handlers[t].progress.outputs| {
            var _ := PutNext(t);
          }
      }
    }

    /** asyncio.wait: what happens, in this order, until the loop task runs again. */
    method Wait(awaits: seq<Await>)
      requires Valid() && phase == AGAIN
      modifies this`phase, this`queue, this`handlers, this`puts, this`trace
      ensures Valid() && old(trace) <= trace
      ensures phase.Waiting? && phase.recv == FirstReceived(awaits, |awaits|)
    {
      hide Run, Apply;
      for i := 0 to |awaits|
        invariant Valid() && old(trace) <= trace
        invariant phase.Waiting? && phase.recv == FirstReceived(awaits, i)
      {
        match awaits[i] {
          case Elsewhere(d) => HandlerActs(d);
          case Receives(r) =>
            if phase.recv.None? {
              RecvCompletes(r);
            }
          case Gets =>
            if phase.fetched.None? && queue != [] {
              GetCompletes();
            }
        }
      }
    }

    /** The loop body once the wait is over. */
    method OneRound(round: Round)
      requires Valid() && phase.Waiting? && (phase.recv.Some? || phase.fetched.Some?)
      modifies this
      ensures Valid() && old(trace) <= trace
      ensures phase == if old(phase).recv.Some? && Stop(old(phase).recv.value) then Exited else AGAIN
      ensures phase.Exited? ==> queue == []
    {
      hide Run, Apply;
      ResumePhase(Now(), round.server, round.verdict);
      Resume(round.server, round.verdict);
      if phase.InEvent? || phase.InMessage? {
        HandlersAct(round.callbackAwaits);
        CallbackPhase(Now(), round.callback);
        CallbackEnds(round.callback);
      }
      if phase.Draining? {
        Drain(round.drainAwaits);
      }
    }

    method HandlersAct(doings: seq<Doing>)
      requires Valid()
      modifies this`queue, this`handlers, this`puts, this`trace
      ensures Valid() && old(trace) <= trace
    {
      for i := 0 to |doings|
        invariant Valid() && old(trace) <= trace
      {
        HandlerActs(doings[i]);
      }
    }

    /** `run_concurrent_loop`: wait, handle what came, drain, and round again until a shutdown or a disconnect. `schedule`
        says what the other tasks, the connection and the callbacks do. What the object does is a run of the step system,
        whatever they do; the loop leaves exactly when one of the waits ends in a stop, and then with an empty queue. */
    method RunConcurrentLoop(schedule: seq<Round>)
      requires Valid() && phase == AGAIN
      modifies this
      ensures Valid() && old(trace) <= trace
      ensures phase == if StopsBefore(schedule, |schedule|) then Exited else AGAIN
      ensures phase.Exited? ==> queue == []
    {
      hide Run, Apply;
      var i := 0;
      while i < |schedule| && !phase.Exited?
        invariant 0 <= i <= |schedule|
        invariant Valid() && old(trace) <= trace
        invariant phase == if StopsBefore(schedule, i) then Exited else AGAIN
        invariant phase.Exited? ==> queue == []
        decreases |schedule| - i
      {
        Wait(schedule[i].awaits);
        if phase.recv.Some? || phase.fetched.Some? {
          OneRound(schedule[i]);
        }
        i := i + 1;
      }
    }
  }

  predicate DrainStep(step: Step) {
    step == DrainOne || step.Put? || step.Block?
  }

  /** What on_action came to. */
  datatype HandlerResult = Outputs(envelopes: seq<Envelope>) | Raised(message: string)

  function EndOf(t: nat, result: HandlerResult): Step {
    match result
    case Outputs(envelopes) => HandlerReturns(t, envelopes)
    case Raised(message) => HandlerRaises(t, message)
  }

  /** What a handler task does next. */
  datatype Doing = Ends(t: nat, result: HandlerResult) | Puts(t: nat)

  /** What can happen during the loop's wait. */
  datatype Await = Elsewhere(d: Doing) | Receives(r: Received) | Gets

  /** What one round of the loop meets: during its wait, its callback if it comes to one, and its drain. */
  datatype Round = Round(
    awaits: seq<Await>, server: int, verdict: Option<string>,
    callbackAwaits: seq<Doing>, callback: Callback, drainAwaits: seq<seq<nat>>)

  /** The first thing received in the wait. */
  function FirstReceived(awaits: seq<Await>, n: nat): Option<Received>
    requires n <= |awaits|
  {
    if n == 0 then None
    else if FirstReceived(awaits, n - 1).Some? then FirstReceived(awaits, n - 1)
    else if awaits[n - 1].Receives? then Some(awaits[n - 1].r)
    else None
  }

  predicate Stops(round: Round) {
    var r := FirstReceived(round.awaits, |round.awaits|);
    r.Some? && Stop(r.value)
  }

  predicate StopsBefore(schedule: seq<Round>, n: nat)
    requires n <= |schedule|
  {
    exists k :: 0 <= k < n && Stops(schedule[k])
  }

  lemma ResumePhase(s: State, server: int, verdict: Option<string>)
    requires Enabled(s, Resume(server, verdict))
    ensures var phase := Apply(s, Resume(server, verdict)).phase;
            if s.phase.recv.None? then phase == AGAIN
            else if Stop(s.phase.recv.value) then phase == Draining(true)
            else phase == AGAIN || phase == Draining(false) || phase.InEvent? || phase.InMessage?
  {
  }

  lemma CallbackPhase(s: State, result: Callback)
    requires Enabled(s, CallbackEnds(result))
    ensures var phase := Apply(s, CallbackEnds(result)).phase; phase == AGAIN || phase == Draining(false)
  {
  }
}
