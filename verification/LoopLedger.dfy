/** What the message loop of vynkor/concurrent.py does over whole runs: where every handler envelope is, which are lost
    and when, in what order they go out, and what each inbound envelope gets. */
module LoopLedger {
  import opened Wrappers
  import opened Loop

  // ---------------------------------------------------------------------------
  // The ledger
  // ---------------------------------------------------------------------------

  /** The handler has returned this envelope at this index. */
  predicate Produced(s: State, x: Item) {
    && x.task < |s.handlers|
    && s.handlers[x.task].progress.Putting?
    && x.index < |s.handlers[x.task].progress.outputs|
    && s.handlers[x.task].progress.outputs[x.index] == x.envelope
  }

  /** Produced, and its put has not succeeded yet. */
  predicate Unput(s: State, x: Item) {
    Produced(s, x) && s.handlers[x.task].progress.next <= x.index
  }

  /** Its put is waiting for room in the queue. */
  predicate AtTheDoor(s: State, x: Item) {
    Unput(s, x) && s.handlers[x.task].progress.next == x.index && s.handlers[x.task].progress.blocked
  }

  function One(b: bool): nat {
    if b then 1 else 0
  }

  function Sent(s: State): seq<Item> {
    Replies(s.attempts)
  }

  function Lost(s: State): seq<Item> {
    Pick(s.left, false)
  }

  /** How often an envelope occurs in all the places it can be. */
  function Tally(s: State, x: Item): nat {
    One(Unput(s, x) && !AtTheDoor(s, x)) + One(AtTheDoor(s, x))
    + multiset(s.queue)[x] + multiset(FetchedItem(s.phase))[x] + multiset(Sent(s))[x] + multiset(Lost(s))[x]
  }

  lemma {:induction false} PicksPartition(left: seq<Departure>)
    ensures multiset(Items(left)) == multiset(Pick(left, true)) + multiset(Pick(left, false))
  {
    if left != [] {
      PicksPartition(left[..|left| - 1]);
    }
  }

  lemma OccursOnce(items: seq<Item>, x: Item)
    requires Ordered(items)
    ensures multiset(items)[x] == One(x in items)
  {
    if x in items {
      var i :| 0 <= i < |items| && items[i] == x;
      assert x !in items[..i] && x !in items[i + 1..] by {
        assert forall j :: 0 <= j < |items| && items[j] == x ==> !(j < i) && !(i < j);
      }
      assert items == items[..i] + [x] + items[i + 1..];
      assert multiset(items[..i])[x] == 0 && multiset(items[i + 1..])[x] == 0;
    }
  }

  lemma PutIffCounted(s: State, x: Item)
    requires PutsExact(s.puts, s.handlers)
    ensures x in s.puts <==> Produced(s, x) && !Unput(s, x)
  {
  }

  lemma PutsLedger(s: State, x: Item)
    requires Inv(s)
    ensures multiset(s.puts)[x]
            == multiset(Sent(s))[x] + multiset(Lost(s))[x] + multiset(FetchedItem(s.phase))[x] + multiset(s.queue)[x]
  {
    hide PutsExact, Ordered;
    PicksPartition(s.left);
    assert multiset(s.puts) == multiset(Items(s.left)) + multiset(FetchedItem(s.phase)) + multiset(s.queue);
  }

  /** On every run, every envelope a handler has returned is in exactly one place: not yet put, waiting to be put,
      queued, fetched, sent or lost; and nothing else is in any of them. */
  lemma {:induction false} Ledger(steps: seq<Step>, x: Item)
    requires Run(steps).Some?
    ensures Tally(Run(steps).value, x) == One(Produced(Run(steps).value, x))
  {
    var s := Run(steps).value;
    RunKeepsInv(steps);
    PutsLedger(s, x);
    PutIffCounted(s, x);
    OccursOnce(s.puts, x);
  }

  // ---------------------------------------------------------------------------
  // Losses
  // ---------------------------------------------------------------------------

  /** The loop resumes from a wait in which both the receive and the queue get have finished. */
  predicate DoubleWait(s: State, step: Step) {
    step.Resume? && s.phase.Waiting? && s.phase.recv.Some? && s.phase.fetched.Some?
  }

  lemma LossStep(s: State, step: Step)
    requires Enabled(s, step)
    ensures Lost(Apply(s, step)) == Lost(s) + if DoubleWait(s, step) then FetchedItem(s.phase) else []
  {
    hide Pick;
    var s' := Apply(s, step);
    if s'.left != s.left {
      var d := s'.left[|s.left|];
      assert s'.left == s.left + [d];
      LeftSnoc(s.left, d, false);
    }
  }

  /** How many steps of a run resumed from a double wait. */
  function DoubleWaits(steps: seq<Step>): nat {
    if steps == [] then 0
    else
      var init, last := steps[..|steps| - 1], steps[|steps| - 1];
      DoubleWaits(init) + One(Run(init).Some? && DoubleWait(Run(init).value, last))
  }

  /** An envelope is lost at each double wait, and never otherwise. */
  lemma {:induction false} LossesAreDoubleWaits(steps: seq<Step>)
    requires Run(steps).Some?
    ensures |Lost(Run(steps).value)| == DoubleWaits(steps)
  {
    if steps != [] {
      var init, last := steps[..|steps| - 1], steps[|steps| - 1];
      LossesAreDoubleWaits(init);
      hide Enabled, Apply;
      LossStep(Run(init).value, last);
    }
  }

  predicate Finished(h: Handler) {
    h.progress.Putting? && h.progress.next == |h.progress.outputs|
  }

  /** Every handler is done, and none of their envelopes is still on its way. */
  predicate Settled(s: State) {
    && (forall t :: 0 <= t < |s.handlers| ==> Finished(s.handlers[t]))
    && s.queue == [] && FetchedItem(s.phase) == []
  }

  /** How often an envelope was sent or lost. */
  function SentOrLost(s: State, x: Item): nat {
    multiset(Sent(s))[x] + multiset(Lost(s))[x]
  }

  ghost predicate AllSent(s: State) {
    forall x :: Produced(s, x) ==> x in Sent(s)
  }

  lemma SettledTally(s: State, x: Item)
    requires Settled(s)
    ensures Tally(s, x) == SentOrLost(s, x)
  {
  }

  lemma AllSentUnlessLost(s: State)
    requires forall x :: SentOrLost(s, x) == One(Produced(s, x))
    ensures AllSent(s) <==> Lost(s) == []
  {
    hide Replies, Pick, Produced;
    if Lost(s) != [] {
      var x := Lost(s)[0];
      assert multiset(Lost(s))[x] > 0 && SentOrLost(s, x) <= 1;
      assert x !in Sent(s) && Produced(s, x);
    } else {
      forall x | Produced(s, x)
        ensures x in Sent(s)
      {
        assert SentOrLost(s, x) == 1;
      }
    }
  }

  /** Once everything has settled, every envelope was sent exactly once or lost exactly once; all of them were sent
      if and only if the run had no double wait. */
  lemma {:induction false} SettledRuns(steps: seq<Step>)
    requires Run(steps).Some? && Settled(Run(steps).value)
    ensures var s := Run(steps).value;
            && (forall x :: SentOrLost(s, x) == One(Produced(s, x)))
            && (AllSent(s) <==> DoubleWaits(steps) == 0)
  {
    hide Run, Replies, Pick, Settled, Produced, Tally, SentOrLost, AllSent;
    var s := Run(steps).value;
    forall x
      ensures SentOrLost(s, x) == One(Produced(s, x))
    {
      Ledger(steps, x);
      SettledTally(s, x);
    }
    LossesAreDoubleWaits(steps);
    AllSentUnlessLost(s);
  }

  function Then(s: Option<State>, step: Step): Option<State> {
    if s.Some? && Enabled(s.value, step) then Some(Apply(s.value, step)) else None
  }

  function ThenFour(s: Option<State>, more: seq<Step>): Option<State>
    requires |more| == 4
  {
    Then(Then(Then(Then(s, more[0]), more[1]), more[2]), more[3])
  }

  lemma Chain(steps: seq<Step>, step: Step)
    ensures Run(steps + [step]) == Then(Run(steps), step)
  {
    assert (steps + [step])[..|steps|] == steps;
  }

  lemma FourMore(steps: seq<Step>, more: seq<Step>)
    requires |more| == 4
    ensures Run(steps + more) == ThenFour(Run(steps), more)
  {
    hide Run, Then;
    Chain(steps, more[0]);
    Chain(steps + [more[0]], more[1]);
    Chain(steps + [more[0]] + [more[1]], more[2]);
    Chain(steps + [more[0]] + [more[1]] + [more[2]], more[3]);
    assert steps + [more[0]] + [more[1]] + [more[2]] + [more[3]] == steps + more;
  }

  /** A request arrives, is accepted, and its handler returns one reply. */
  function Handled(request: Envelope, response: Envelope, server: int): seq<Step> {
    [RecvCompletes(Inbound(request)), Resume(server, None), HandlerReturns(0, [response]), DrainDone]
  }

  /** The reply is put and fetched, and a Ping arrives in the same wait. */
  function Collides(server: int): seq<Step> {
    [Put(0), GetCompletes, RecvCompletes(Inbound(Ping(7))), Resume(server, None)]
  }

  function ShutsDown(server: int): seq<Step> {
    [DrainDone, RecvCompletes(Inbound(PluginShutdown)), Resume(server, None), DrainDone]
  }

  function Pinged(request: Envelope, response: Envelope, server: int): State {
    State([], [Handler(request, Putting([response], 1, false))], Draining(false), [Answer(Pong(7, server))],
          [Item(0, 0, response)], [Departure(Item(0, 0, response), false)],
          [Accepted(request), Answered(Ping(7), server)])
  }

  lemma HandledRun(request: Envelope, response: Envelope, server: int)
    requires request.ActionRequest?
    ensures ThenFour(Some(INITIAL), Handled(request, response, server))
            == Some(State([], [Handler(request, Putting([response], 0, false))], AGAIN, [], [], [], [Accepted(request)]))
  {
    var more := Handled(request, response, server);
    var s1 := INITIAL.(phase := Waiting(Some(Inbound(request)), None));
    var s2 := State([], [Handler(request, Running)], Draining(false), [], [], [], [Accepted(request)]);
    var s3 := s2.(handlers := [Handler(request, Putting([response], 0, false))]);
    assert Then(Some(INITIAL), more[0]) == Some(s1);
    assert Noticed(s1) == INITIAL;
    assert Handle(INITIAL, request, server, None) == s2;
    assert WithProgress(s2, 0, Putting([response], 0, false)) == s3.handlers;
    assert Then(Some(s1), more[1]) == Some(s2);
    assert Then(Some(s2), more[2]) == Some(s3);
    assert Then(Some(s3), more[3]) == Some(s3.(phase := AGAIN));
  }

  lemma CollidesRun(request: Envelope, response: Envelope, server: int)
    ensures ThenFour(Some(State([], [Handler(request, Putting([response], 0, false))], AGAIN, [], [], [],
                                [Accepted(request)])), Collides(server))
            == Some(Pinged(request, response, server))
  {
    var more := Collides(server);
    var item := Item(0, 0, response);
    var s0 := State([], [Handler(request, Putting([response], 0, false))], AGAIN, [], [], [], [Accepted(request)]);
    var s1 := State([item], [Handler(request, Putting([response], 1, false))], AGAIN, [], [item], [],
                    [Accepted(request)]);
    var s2 := s1.(queue := [], phase := Waiting(None, Some(item)));
    var s3 := s2.(phase := Waiting(Some(Inbound(Ping(7))), Some(item)));
    assert ApplyPut(s0, 0) == s1;
    assert Then(Some(s0), more[0]) == Some(s1);
    assert [item][1..] == [];
    assert Then(Some(s1), more[1]) == Some(s2);
    assert Then(Some(s2), more[2]) == Some(s3);
    assert Noticed(s3) == s2.(phase := AGAIN, left := [Departure(item, false)]);
    assert Handle(Noticed(s3), Ping(7), server, None) == Pinged(request, response, server);
    assert Then(Some(s3), more[3]) == Some(Pinged(request, response, server));
  }

  lemma ShutsDownRun(request: Envelope, response: Envelope, server: int)
    ensures var s := Pinged(request, response, server);
            ThenFour(Some(s), ShutsDown(server)) == Some(s.(phase := Exited, dealt := s.dealt + [Ignored(PluginShutdown)]))
  {
    var more := ShutsDown(server);
    var s0 := Pinged(request, response, server);
    var s1 := s0.(phase := AGAIN);
    var s2 := s0.(phase := Waiting(Some(Inbound(PluginShutdown)), None));
    var s3 := s0.(phase := Draining(true), dealt := s0.dealt + [Ignored(PluginShutdown)]);
    assert Then(Some(s0), more[0]) == Some(s1);
    assert Then(Some(s1), more[1]) == Some(s2);
    assert Noticed(s2) == s1;
    assert Then(Some(s2), more[2]) == Some(s3);
    assert Then(Some(s3), more[3]) == Some(s3.(phase := Exited));
  }

  lemma PingedIsSettled(request: Envelope, response: Envelope, server: int)
    ensures Settled(Pinged(request, response, server))
    ensures Lost(Pinged(request, response, server)) == [Item(0, 0, response)]
  {
    OneLost(Item(0, 0, response));
    hide Pick;
  }

  lemma OneLost(x: Item)
    ensures Pick([Departure(x, false)], false) == [x]
  {
    assert [Departure(x, false)][..0] == [];
    assert Pick([], false) == [];
  }

  lemma LostRun(request: Envelope, response: Envelope, server: int)
    requires request.ActionRequest?
    ensures var s := Pinged(request, response, server);
            Run(Handled(request, response, server) + Collides(server) + ShutsDown(server))
            == Some(s.(phase := Exited, dealt := s.dealt + [Ignored(PluginShutdown)]))
  {
    var a, b := Handled(request, response, server), Collides(server);
    assert Run([]) == Some(INITIAL) && [] + a == a;
    hide Run, Then, ThenFour, Handled, Collides, ShutsDown, Pinged;
    HandledRun(request, response, server);
    CollidesRun(request, response, server);
    ShutsDownRun(request, response, server);
    FourMore([], a);
    FourMore(a, b);
    FourMore(a + b, ShutsDown(server));
  }

  /** The reply of an accepted request can be lost: the loop ends with everything settled, and all it has sent is the
      Pong. */
  lemma ReplyCanBeLost(request: Envelope, response: Envelope, server: int)
    requires request.ActionRequest?
    ensures var last := Run(Handled(request, response, server) + Collides(server) + ShutsDown(server));
            && last.Some? && last.value.phase == Exited && Settled(last.value)
            && last.value.attempts == [Answer(Pong(7, server))]
            && Lost(last.value) == [Item(0, 0, response)]
  {
    LostRun(request, response, server);
    PingedIsSettled(request, response, server);
    hide Run, Pick;
  }

  // ---------------------------------------------------------------------------
  // Order
  // ---------------------------------------------------------------------------

  /** The envelopes of one task, in order. */
  function Of(items: seq<Item>, t: nat): seq<Envelope> {
    if items == [] then []
    else Of(items[..|items| - 1], t) + if items[|items| - 1].task == t then [items[|items| - 1].envelope] else []
  }

  lemma {:induction false} OfAppend(a: seq<Item>, b: seq<Item>, t: nat)
    ensures Of(a + b, t) == Of(a, t) + Of(b, t)
  {
    if b == [] {
      assert a + b == a;
    } else {
      OfAppend(a, b[..|b| - 1], t);
      assert (a + b)[..|a + b| - 1] == a + b[..|b| - 1];
    }
  }

  /** What the handler's task has put so far. */
  function PutSoFar(handlers: seq<Handler>, t: nat): seq<Envelope> {
    if t < |handlers| && handlers[t].progress.Putting? && handlers[t].progress.next <= |handlers[t].progress.outputs|
    then handlers[t].progress.outputs[..handlers[t].progress.next] else []
  }

  lemma PutsOfStep(s: State, step: Step, t: nat)
    requires Enabled(s, step) && Inv(s) && Of(s.puts, t) == PutSoFar(s.handlers, t)
    ensures var s' := Apply(s, step); Of(s'.puts, t) == PutSoFar(s'.handlers, t)
  {
    hide Of, Ordered, Books, Fifo;
    if step.Put? {
      var p := s.handlers[step.t].progress;
      OfAppend(s.puts, [Item(step.t, p.next, p.outputs[p.next])], t);
      OneOf(Item(step.t, p.next, p.outputs[p.next]), t);
      assert p.outputs[..p.next + 1] == p.outputs[..p.next] + [p.outputs[p.next]];
    }
  }

  lemma OneOf(x: Item, t: nat)
    ensures Of([x], t) == if x.task == t then [x.envelope] else []
  {
    assert [x][..0] == [];
  }

  lemma {:induction false} PutsOf(steps: seq<Step>, t: nat)
    requires Run(steps).Some?
    ensures Of(Run(steps).value.puts, t) == PutSoFar(Run(steps).value.handlers, t)
  {
    if steps != [] {
      var init, last := steps[..|steps| - 1], steps[|steps| - 1];
      PutsOf(init, t);
      RunKeepsInv(init);
      hide Inv, Enabled, Apply, PutSoFar;
      PutsOfStep(Run(init).value, last, t);
    }
  }

  lemma {:induction false} AllPicked(left: seq<Departure>)
    requires Pick(left, false) == []
    ensures Pick(left, true) == Items(left)
  {
    if left != [] {
      AllPicked(left[..|left| - 1]);
    }
  }

  /** On a run without a double wait, what has been sent of one handler's envelopes, then what was fetched and what is
      queued, is exactly what the handler has put so far: a prefix of what it returned. */
  lemma {:induction false} SentInOrder(steps: seq<Step>, t: nat)
    requires Run(steps).Some? && DoubleWaits(steps) == 0
    ensures var s := Run(steps).value;
            Of(Sent(s), t) + Of(FetchedItem(s.phase), t) + Of(s.queue, t) == PutSoFar(s.handlers, t)
  {
    var s := Run(steps).value;
    RunKeepsInv(steps);
    LossesAreDoubleWaits(steps);
    AllPicked(s.left);
    PutsOf(steps, t);
    hide Of, PutsExact, Ordered, PutSoFar;
    OfAppend(Sent(s) + FetchedItem(s.phase), s.queue, t);
    OfAppend(Sent(s), FetchedItem(s.phase), t);
  }

  lemma {:induction false} PickOrdered(left: seq<Departure>, sent: bool)
    requires Ordered(Items(left))
    ensures Ordered(Pick(left, sent))
    ensures forall x :: x in Pick(left, sent) ==> x in Items(left)
  {
    if left != [] {
      var init, last := left[..|left| - 1], left[|left| - 1];
      assert Items(left) == Items(init) + [last.item];
      assert Ordered(Items(init)) by {
        assert forall i :: 0 <= i < |Items(init)| ==> Items(init)[i] == Items(left)[i];
      }
      PickOrdered(init, sent);
      var picked := Pick(init, sent);
      forall i | 0 <= i < |picked| && picked[i].task == last.item.task
        ensures picked[i].index < last.item.index
      {
        assert picked[i] in Items(init);
        var k :| 0 <= k < |Items(init)| && Items(init)[k] == picked[i];
        assert Items(left)[k] == picked[i] && Items(left)[|init|] == last.item;
      }
    }
  }

  lemma OrderedPrefix(a: seq<Item>, b: seq<Item>)
    requires Ordered(a + b)
    ensures Ordered(a)
  {
    assert forall i :: 0 <= i < |a| ==> (a + b)[i] == a[i];
  }

  lemma SentFromPuts(s: State)
    requires Inv(s)
    ensures Ordered(Sent(s)) && forall x :: x in Sent(s) ==> x in s.puts
  {
    hide PutsExact, Ordered, Items, Pick, Replies, Answers, OwedAll, AcceptedRequests, FetchedItem;
    assert s.puts == Items(s.left) + (FetchedItem(s.phase) + s.queue);
    PickedFromPuts(s.puts, s.left, FetchedItem(s.phase) + s.queue);
  }

  lemma PickedFromPuts(puts: seq<Item>, left: seq<Departure>, rest: seq<Item>)
    requires puts == Items(left) + rest && Ordered(puts)
    ensures Ordered(Pick(left, true)) && forall x :: x in Pick(left, true) ==> x in puts
  {
    hide Items, Pick, Ordered;
    OrderedPrefix(Items(left), rest);
    PickOrdered(left, true);
  }

  /** On every run, the handler envelopes go out as a subsequence of what each handler returned: in increasing order of
      their place in its list, none twice, and nothing a handler did not return. */
  lemma SentIsASubsequence(steps: seq<Step>)
    requires Run(steps).Some?
    ensures var s := Run(steps).value;
            Ordered(Sent(s)) && forall x :: x in Sent(s) ==> Produced(s, x)
  {
    var s := Run(steps).value;
    RunKeepsInv(steps);
    SentFromPuts(s);
    forall x | x in Sent(s)
      ensures Produced(s, x)
    {
      PutIffCounted(s, x);
    }
  }

  lemma {:induction false} QueueBound(steps: seq<Step>)
    requires Run(steps).Some?
    ensures |Run(steps).value.queue| <= 256
  {
    RunKeepsInv(steps);
  }

  /** At the step that ends the loop the queue is empty: whatever was put by then has been sent or lost. Nothing is sent
      after it. */
  lemma ExitFlushes(steps: seq<Step>, step: Step, x: Item)
    requires Run(steps).Some? && Enabled(Run(steps).value, step)
    ensures var s, s' := Run(steps).value, Apply(Run(steps).value, step);
            && (s.phase != Exited && s'.phase == Exited ==>
                  s'.queue == [] && (x in s'.puts <==> x in Sent(s') || x in Lost(s')))
            && (s.phase == Exited ==> s'.phase == Exited && s'.attempts == s.attempts && s'.left == s.left)
  {
    RunKeepsInv(steps);
    var s := Run(steps).value;
    hide Run, Inv, Replies, Pick;
    ExitStep(s, step);
    if s.phase != Exited && Apply(s, step).phase == Exited {
      PutsPlaced(s, x);
    }
  }

  lemma ExitStep(s: State, step: Step)
    requires Enabled(s, step)
    ensures var s' := Apply(s, step);
            && (s.phase != Exited && s'.phase == Exited ==>
                  s.phase.Draining? && s.queue == [] && s' == s.(phase := Exited))
            && (s.phase == Exited ==> s'.phase == Exited && s'.attempts == s.attempts && s'.left == s.left)
  {
  }

  lemma PutsPlaced(s: State, x: Item)
    requires Inv(s) && s.queue == [] && FetchedItem(s.phase) == []
    ensures x in s.puts <==> x in Sent(s) || x in Lost(s)
  {
    PutsLedger(s, x);
  }

  // ---------------------------------------------------------------------------
  // Inbound envelopes
  // ---------------------------------------------------------------------------

  /** The envelopes a run has received, in order. */
  function Inbounds(steps: seq<Step>): seq<Envelope> {
    if steps == [] then []
    else Inbounds(steps[..|steps| - 1]) + Arrived(steps[|steps| - 1])
  }

  function Arrived(step: Step): seq<Envelope> {
    if step.RecvCompletes? && step.r.Inbound? then [step.r.envelope] else []
  }

  function InboundOf(dealt: seq<Dealt>): seq<Envelope> {
    if dealt == [] then [] else InboundOf(dealt[..|dealt| - 1]) + [dealt[|dealt| - 1].inbound]
  }

  /** Received, and not dealt with yet. */
  function InHand(phase: Phase): seq<Envelope> {
    match phase
    case Waiting(Some(Inbound(envelope)), _) => [envelope]
    case InEvent(event) => [event]
    case InMessage(message) => [message]
    case _ => []
  }

  /** An envelope was dealt with in one of the ways its kind allows. */
  predicate Apt(d: Dealt) {
    match d
    case Answered(inbound, _) => inbound.Ping?
    case Rejected(inbound, _) => inbound.ActionRequest?
    case Accepted(inbound) => inbound.ActionRequest?
    case CalledBack(inbound, _) =>
      !inbound.Ping? && !inbound.PluginShutdown? && !inbound.ActionRequest? && !inbound.NoPayload?
    case Ignored(inbound) => inbound.PluginShutdown? || inbound.NoPayload?
  }

  ghost predicate Dispatched(s: State, inbounds: seq<Envelope>) {
    && InboundOf(s.dealt) + InHand(s.phase) == inbounds
    && (forall i :: 0 <= i < |s.dealt| ==> Apt(s.dealt[i]))
    && (s.phase.InEvent? || s.phase.InMessage? ==> Apt(CalledBack(InHand(s.phase)[0], CallbackRaised)))
  }

  lemma DispatchStep(s: State, step: Step, inbounds: seq<Envelope>)
    requires Enabled(s, step) && Dispatched(s, inbounds)
    ensures Dispatched(Apply(s, step), inbounds + Arrived(step))
  {
    hide InboundOf;
    var s' := Apply(s, step);
    assert inbounds + [] == inbounds;
    if s'.dealt != s.dealt {
      assert s'.dealt == s.dealt + [s'.dealt[|s.dealt|]];
      InboundSnoc(s.dealt, s'.dealt[|s.dealt|]);
    }
  }

  lemma InboundSnoc(dealt: seq<Dealt>, d: Dealt)
    ensures InboundOf(dealt + [d]) == InboundOf(dealt) + [d.inbound]
  {
    assert (dealt + [d])[..|dealt|] == dealt;
  }

  lemma {:induction false} RunDispatched(steps: seq<Step>)
    requires Run(steps).Some?
    ensures Dispatched(Run(steps).value, Inbounds(steps))
  {
    if steps != [] {
      var init, last := steps[..|steps| - 1], steps[|steps| - 1];
      RunDispatched(init);
      hide Enabled, Apply, Dispatched, Arrived;
      DispatchStep(Run(init).value, last, Inbounds(init));
    }
  }

  // What the steps of a run alone say was to be done.

  /** What becomes of an inbound envelope, given the clock and accept()'s verdict; None: it goes to a callback. */
  function Judged(inbound: Envelope, server: int, verdict: Option<string>): Option<Dealt> {
    match inbound
    case Ping(_) => Some(Answered(inbound, server))
    case ActionRequest(_, _, _) => Some(if verdict.Some? then Rejected(inbound, verdict.value) else Accepted(inbound))
    case PluginShutdown => Some(Ignored(inbound))
    case NoPayload => Some(Ignored(inbound))
    case _ => None
  }

  /** A reading of the steps without the loop: what was dealt with and how, what was received and not looked at, and what
      a callback has. */
  datatype Desk = Desk(dealt: seq<Dealt>, arrived: Option<Received>, callback: Option<Envelope>)

  function Jot(d: Desk, step: Step): Desk {
    match step
    case RecvCompletes(r) => d.(arrived := Some(r))
    case Resume(server, verdict) =>
      if d.arrived.Some? && d.arrived.value.Inbound? then
        var inbound := d.arrived.value.envelope;
        var judged := Judged(inbound, server, verdict);
        if judged.Some? then Desk(d.dealt + [judged.value], None, d.callback) else Desk(d.dealt, None, Some(inbound))
      else d.(arrived := None)
    case CallbackEnds(result) =>
      if d.callback.Some? then Desk(d.dealt + [CalledBack(d.callback.value, result)], d.arrived, None) else d
    case _ => d
  }

  function Read(steps: seq<Step>): Desk {
    if steps == [] then Desk([], None, None) else Jot(Read(steps[..|steps| - 1]), steps[|steps| - 1])
  }

  /** The loop is where the reading says it is. */
  predicate AsRead(s: State, d: Desk) {
    && s.dealt == d.dealt
    && d.arrived == (if s.phase.Waiting? then s.phase.recv else None)
    && d.callback == (match s.phase
                      case InEvent(event) => Some(event)
                      case InMessage(message) => Some(message)
                      case _ => None)
  }

  lemma JotStep(s: State, step: Step, d: Desk)
    requires Enabled(s, step) && AsRead(s, d)
    ensures AsRead(Apply(s, step), Jot(d, step))
  {
  }

  lemma {:induction false} RunAsRead(steps: seq<Step>)
    requires Run(steps).Some?
    ensures AsRead(Run(steps).value, Read(steps))
  {
    if steps != [] {
      var init, last := steps[..|steps| - 1], steps[|steps| - 1];
      RunAsRead(init);
      hide Enabled, Apply, AsRead, Jot;
      JotStep(Run(init).value, last, Read(init));
    }
  }

  /** On every run, the received envelopes are dealt with one by one in order of arrival, each in one of the ways its
      kind allows, as accept()'s verdicts and the callbacks' ends in the steps say; the loop's own answers are exactly what
      those are owed, in that order (one ACTION_ERROR with its id for each rejected request, one Pong for each Ping, one
      ack for each event whose callback returned); and there is one handler for each accepted request, in order, and no
      other. */
  lemma {:induction false} InboundDispatch(steps: seq<Step>)
    requires Run(steps).Some?
    ensures var s := Run(steps).value;
            && InboundOf(s.dealt) + InHand(s.phase) == Inbounds(steps)
            && (forall i :: 0 <= i < |s.dealt| ==> Apt(s.dealt[i]))
            && s.dealt == Read(steps).dealt
            && Answers(s.attempts) == OwedAll(Read(steps).dealt)
            && Requests(s.handlers) == AcceptedRequests(Read(steps).dealt)
  {
    RunKeepsInv(steps);
    RunDispatched(steps);
    RunAsRead(steps);
  }

  /** What one step has the client send. */
  function Sends(s: State, step: Step): seq<Attempt>
    requires Enabled(s, step)
  {
    match step
    case DrainOne => [Reply(s.queue[0])]
    case CallbackEnds(Returned(reply)) =>
      (if s.phase.InEvent? && s.phase.event.Event? then [Answer(EventAck(s.phase.event.eventId))] else [])
      + (if reply.Some? then [Answer(reply.value)] else [])
    case Resume(server, verdict) =>
      if s.phase.recv.None? then [Reply(s.phase.fetched.value)]
      else
        (match s.phase.recv.value
         case Inbound(Ping(timestamp)) => [Answer(Pong(timestamp, server))]
         case Inbound(ActionRequest(actionId, _, _)) =>
           if verdict.Some? then [Answer(ActionResponse(actionId, ErrText(verdict.value)))] else []
         case _ => [])
    case _ => []
  }

  /** The request whose handler one step spawns. */
  function Spawns(s: State, step: Step): seq<Envelope>
    requires Enabled(s, step)
  {
    if step.Resume? && s.phase.recv.Some? && s.phase.recv.value.Inbound?
       && s.phase.recv.value.envelope.ActionRequest? && step.verdict.None?
    then [s.phase.recv.value.envelope] else []
  }

  /** Where the loop goes next: it drains after an envelope it answered, spawned for or called back about, leaves after a
      shutdown or a disconnect, and otherwise waits again. */
  predicate GoesOn(s: State, step: Step, next: Phase)
    requires Enabled(s, step)
  {
    match step
    case Resume(_, verdict) =>
      if s.phase.recv.None? then next == AGAIN
      else
        (match s.phase.recv.value
         case Disconnected => next == Draining(true)
         case Inbound(PluginShutdown) => next == Draining(true)
         case Inbound(NoPayload) => next == AGAIN
         case Inbound(Ping(_)) => next == Draining(false)
         case Inbound(ActionRequest(_, _, _)) => next == if verdict.Some? then AGAIN else Draining(false)
         case Inbound(Event(id)) => next == InEvent(Event(id))
         case Inbound(other) => next == InMessage(other))
    case CallbackEnds(result) => next == if result.CallbackRaised? then AGAIN else Draining(false)
    case _ => true
  }

  /** Step by step: exactly these envelopes are attempted, exactly this handler is spawned, and the loop goes on there. In
      particular a rejected request gets its ACTION_ERROR and no handler, and a callback that raises has nothing sent. */
  lemma StepDoes(s: State, step: Step)
    requires Enabled(s, step) && (s.phase.InEvent? ==> s.phase.event.Event?)
    requires s.phase.InMessage? ==> !s.phase.message.Event?
    ensures var s' := Apply(s, step);
            && s'.attempts == s.attempts + Sends(s, step)
            && Requests(s'.handlers) == Requests(s.handlers) + Spawns(s, step)
            && GoesOn(s, step, s'.phase)
  {
  }

  // ---------------------------------------------------------------------------
  // Handlers that fail, and the end of the loop
  // ---------------------------------------------------------------------------

  /** The ACTION_ERROR a handler that raised is answered with. */
  function PanicReply(request: Envelope, message: string): Envelope {
    ActionResponse(RequestId(request), ErrText("handler panicked: " + message))
  }

  /** The handler ended with this step. */
  predicate EndedBy(step: Step, t: nat, h: Handler) {
    h.progress.Putting? &&
    match step
    case HandlerReturns(k, outputs) => k == t && h.progress.outputs == outputs
    case HandlerRaises(k, message) => k == t && h.progress.outputs == [PanicReply(h.request, message)]
    case _ => false
  }

  lemma OutcomeStays(s: State, step: Step, t: nat)
    requires Enabled(s, step) && t < |s.handlers|
    ensures var s' := Apply(s, step);
            && t < |s'.handlers| && s'.handlers[t].request == s.handlers[t].request
            && ((step.HandlerReturns? || step.HandlerRaises?) && step.t == t ==>
                  s.handlers[t].progress.Running? && EndedBy(step, t, s'.handlers[t]))
            && (s.handlers[t].progress.Putting? ==>
                  s'.handlers[t].progress.Putting? && s'.handlers[t].progress.outputs == s.handlers[t].progress.outputs)
  {
  }

  /** A handler's envelopes are what its one end determined: those it returned, or if it raised a single ACTION_ERROR
      with its request's id and the message. No later step changes them. */
  lemma {:induction false} HandlerOutcome(steps: seq<Step>, i: nat, t: nat)
    requires Run(steps).Some? && i < |steps|
    requires (steps[i].HandlerReturns? || steps[i].HandlerRaises?) && steps[i].t == t
    ensures var s := Run(steps).value; t < |s.handlers| && EndedBy(steps[i], t, s.handlers[t])
  {
    var init, last := steps[..|steps| - 1], steps[|steps| - 1];
    var s := Run(init).value;
    assert i < |init| ==> init[i] == steps[i];
    if i < |init| {
      HandlerOutcome(init, i, t);
    }
    hide Apply, Run;
    OutcomeStays(s, last, t);
  }

  /** The promise made to handlers: when the run has settled, the one that raised has had its ACTION_ERROR sent, unless
      the run had a double wait. */
  lemma PanicsAreAnswered(steps: seq<Step>, i: nat)
    requires Run(steps).Some? && Settled(Run(steps).value) && DoubleWaits(steps) == 0
    requires i < |steps| && steps[i].HandlerRaises?
    ensures var s, t := Run(steps).value, steps[i].t;
            && t < |s.handlers|
            && Reply(Item(t, 0, PanicReply(s.handlers[t].request, steps[i].message))) in s.attempts
  {
    var s, t := Run(steps).value, steps[i].t;
    HandlerOutcome(steps, i, t);
    SettledRuns(steps);
    hide Run, Replies, Settled;
    var x := Item(t, 0, PanicReply(s.handlers[t].request, steps[i].message));
    assert Produced(s, x);
    SentIsAttempted(s.attempts, x);
  }

  lemma {:induction false} SentIsAttempted(attempts: seq<Attempt>, x: Item)
    requires x in Replies(attempts)
    ensures Reply(x) in attempts
  {
    if x in Replies(attempts[..|attempts| - 1]) {
      SentIsAttempted(attempts[..|attempts| - 1], x);
    }
  }

  /** What ends the loop. */
  predicate Stop(r: Received) {
    r.Disconnected? || r.envelope.PluginShutdown?
  }

  predicate Stopping(phase: Phase) {
    phase.Exited? || phase == Draining(true) || (phase.Waiting? && phase.recv.Some? && Stop(phase.recv.value))
  }

  predicate StopStep(step: Step) {
    step.RecvCompletes? && Stop(step.r)
  }

  lemma StoppingStep(s: State, step: Step)
    requires Enabled(s, step)
    ensures Stopping(Apply(s, step).phase) <==> Stopping(s.phase) || StopStep(step)
    ensures Stopping(s.phase) ==> !step.RecvCompletes?
  {
  }

  /** The loop is on its way out exactly if it has received a shutdown or lost the connection, and it receives nothing
      after that. */
  lemma {:induction false} StopsExactly(steps: seq<Step>)
    requires Run(steps).Some?
    ensures Stopping(Run(steps).value.phase) <==> exists i :: 0 <= i < |steps| && StopStep(steps[i])
    ensures forall i, j :: 0 <= i < j < |steps| && StopStep(steps[i]) ==> !steps[j].RecvCompletes?
  {
    if steps != [] {
      var init, last := steps[..|steps| - 1], steps[|steps| - 1];
      assert forall i :: 0 <= i < |init| ==> init[i] == steps[i];
      StopsExactly(init);
      var s := Run(init).value;
      assert Run(steps).value == Apply(s, last);
      hide Run, Apply;
      StoppingStep(s, last);
    }
  }
}
