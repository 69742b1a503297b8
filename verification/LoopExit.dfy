/** The end of the message loop of vynkor/concurrent.py: which replies are stranded when it leaves while handlers are
    still at work, and exactly when leaving is safe. */
module LoopExit {
  import opened Wrappers
  import opened Loop
  import opened LoopLedger

  /** The envelopes put into the queue after the loop had left, in order. */
  function Stranded(steps: seq<Step>): seq<Item> {
    if steps == [] then []
    else
      var init, last := steps[..|steps| - 1], steps[|steps| - 1];
      Stranded(init) + if Run(init).Some? then PutLate(Run(init).value, last) else []
  }

  function PutLate(s: State, step: Step): seq<Item> {
    if s.phase.Exited? && step.Put? && CanPut(s, step.t)
    then [Item(step.t, s.handlers[step.t].progress.next,
               s.handlers[step.t].progress.outputs[s.handlers[step.t].progress.next])]
    else []
  }

  lemma QueueAfterExit(s: State, step: Step)
    requires Enabled(s, step)
    ensures var s' := Apply(s, step);
            if s.phase.Exited? then s'.phase.Exited? && s'.queue == s.queue + PutLate(s, step)
            else PutLate(s, step) == [] && (s'.phase.Exited? ==> s'.queue == [])
  {
  }

  /** The loop leaves an empty queue behind; what is in it afterwards is what was put too late. */
  lemma {:induction false} QueueIsStranded(steps: seq<Step>)
    requires Run(steps).Some?
    ensures Stranded(steps) == if Run(steps).value.phase.Exited? then Run(steps).value.queue else []
  {
    if steps != [] {
      var init, last := steps[..|steps| - 1], steps[|steps| - 1];
      QueueIsStranded(init);
      hide Enabled, Apply, PutLate;
      QueueAfterExit(Run(init).value, last);
    }
  }

  ghost predicate AllPut(s: State) {
    forall x :: !Unput(s, x)
  }

  lemma ExitedTally(s: State, x: Item)
    requires s.phase.Exited?
    ensures Tally(s, x) == SentOrLost(s, x) + multiset(s.queue)[x] + One(Unput(s, x))
  {
    hide Replies, Pick, Produced;
  }

  /** Each envelope of a run that has ended was sent, lost, stranded, or is still to be put. */
  lemma {:induction false} ExitedLedger(steps: seq<Step>, x: Item)
    requires Run(steps).Some? && Run(steps).value.phase.Exited?
    ensures var s := Run(steps).value;
            SentOrLost(s, x) + multiset(Stranded(steps))[x] + One(Unput(s, x)) == One(Produced(s, x))
  {
    Ledger(steps, x);
    QueueIsStranded(steps);
    hide Run, Tally, Stranded, SentOrLost;
    ExitedTally(Run(steps).value, x);
  }

  ghost predicate Accounted(s: State, stranded: seq<Item>) {
    forall x :: SentOrLost(s, x) + multiset(stranded)[x] + One(Unput(s, x)) == One(Produced(s, x))
  }

  lemma AllSentExactly(s: State, stranded: seq<Item>)
    requires Accounted(s, stranded)
    ensures AllSent(s) <==> Lost(s) == [] && stranded == [] && AllPut(s)
  {
    hide Replies, Pick, Produced, Unput;
    if Lost(s) != [] {
      var x := Lost(s)[0];
      assert SentOrLost(s, x) + multiset(stranded)[x] + One(Unput(s, x)) == One(Produced(s, x));
      assert multiset(Lost(s))[x] > 0;
    } else if stranded != [] {
      var x := stranded[0];
      assert SentOrLost(s, x) + multiset(stranded)[x] + One(Unput(s, x)) == One(Produced(s, x));
      assert multiset(stranded)[x] > 0;
    } else if x :| Unput(s, x) {
      assert SentOrLost(s, x) + multiset(stranded)[x] + One(Unput(s, x)) == One(Produced(s, x));
    } else {
      forall x | Produced(s, x)
        ensures x in Sent(s)
      {
        assert SentOrLost(s, x) + multiset(stranded)[x] + One(Unput(s, x)) == One(Produced(s, x));
      }
    }
  }

  /** On a run that has ended, every envelope was sent if and only if the receive and the queue get never finished in
      the same wait, nothing was put after the loop had left, and nothing is left to put. */
  lemma {:induction false} ExitedRuns(steps: seq<Step>)
    requires Run(steps).Some? && Run(steps).value.phase.Exited?
    ensures Accounted(Run(steps).value, Stranded(steps))
    ensures AllSent(Run(steps).value)
       <==> DoubleWaits(steps) == 0 && Stranded(steps) == [] && AllPut(Run(steps).value)
  {
    hide Run, Stranded, SentOrLost, Unput, Produced, AllSent, AllPut, Pick;
    forall x
      ensures SentOrLost(Run(steps).value, x) + multiset(Stranded(steps))[x] + One(Unput(Run(steps).value, x))
           == One(Produced(Run(steps).value, x))
    {
      ExitedLedger(steps, x);
    }
    LossesAreDoubleWaits(steps);
    AllSentExactly(Run(steps).value, Stranded(steps));
  }

  // ---------------------------------------------------------------------------
  // When leaving is safe
  // ---------------------------------------------------------------------------

  /** However the run goes on, every envelope is sent. */
  ghost predicate SafeFrom(steps: seq<Step>) {
    forall more: seq<Step> :: Run(steps + more).Some? ==> AllSent(Run(steps + more).value)
  }

  ghost predicate HandlersDone(s: State) {
    forall t :: 0 <= t < |s.handlers| ==> Finished(s.handlers[t])
  }

  lemma {:induction false} NothingMore(steps: seq<Step>, more: seq<Step>)
    requires Run(steps).Some? && Run(steps).value.phase.Exited? && HandlersDone(Run(steps).value)
    ensures Run(steps + more).Some? ==> more == []
    decreases |more|
  {
    if more != [] {
      var init, last := more[..|more| - 1], more[|more| - 1];
      assert steps + more == steps + init + [last];
      assert init == [] ==> steps + init == steps;
      NothingMore(steps, init);
      Chain(steps + init, last);
      hide Run;
    }
  }

  lemma {:induction false} UnputUnsent(steps: seq<Step>, x: Item)
    requires Run(steps).Some? && Unput(Run(steps).value, x)
    ensures !AllSent(Run(steps).value)
  {
    Ledger(steps, x);
    hide Run, Replies, Pick;
    assert multiset(Sent(Run(steps).value))[x] == 0;
  }

  /** A handler still at work when the loop has left can leave a reply unsent. */
  lemma {:induction false} UnfinishedIsUnsafe(steps: seq<Step>, t: nat)
    requires Run(steps).Some? && t < |Run(steps).value.handlers| && !Finished(Run(steps).value.handlers[t])
    ensures !SafeFrom(steps)
  {
    var s := Run(steps).value;
    RunKeepsInv(steps);
    HandlersCounted(s, t);
    hide Run, Inv, AllSent, PutsExact;
    var p := s.handlers[t].progress;
    if p.Running? {
      var more := [HandlerReturns(t, [NoPayload])];
      Chain(steps, more[0]);
      UnputUnsent(steps + more, Item(t, 0, NoPayload));
    } else {
      assert steps + [] == steps;
      UnputUnsent(steps + [], Item(t, p.next, p.outputs[p.next]));
    }
  }

  /** Once the loop has left, nothing a handler returned or will return goes missing, if and only if there was no double
      wait, nothing has been put since, and every handler had finished. */
  lemma {:induction false} LeavingIsSafeExactly(steps: seq<Step>)
    requires Run(steps).Some? && Run(steps).value.phase.Exited?
    ensures SafeFrom(steps)
       <==> DoubleWaits(steps) == 0 && Stranded(steps) == [] && HandlersDone(Run(steps).value)
  {
    var s := Run(steps).value;
    ExitedRuns(steps);
    hide Run, Stranded, AllSent, DoubleWaits;
    assert steps + [] == steps;
    if SafeFrom(steps) {
      assert AllSent(Run(steps + []).value);
      if t :| 0 <= t < |s.handlers| && !Finished(s.handlers[t]) {
        UnfinishedIsUnsafe(steps, t);
      }
    } else if HandlersDone(s) {
      var more :| Run(steps + more).Some? && !AllSent(Run(steps + more).value);
      NothingMore(steps, more);
    }
  }

  // ---------------------------------------------------------------------------
  // A reply put too late
  // ---------------------------------------------------------------------------

  /** A request is accepted and the loop shuts down before its handler returns. */
  function LeavesEarly(request: Envelope, server: int): seq<Step> {
    [RecvCompletes(Inbound(request)), Resume(server, None), DrainDone, RecvCompletes(Inbound(PluginShutdown))]
  }

  function RepliesLate(response: Envelope, server: int): seq<Step> {
    [Resume(server, None), DrainDone, HandlerReturns(0, [response]), Put(0)]
  }

  function ShutWhileRunning(request: Envelope): State {
    State([], [Handler(request, Running)], Waiting(Some(Inbound(PluginShutdown)), None), [], [], [], [Accepted(request)])
  }

  function LeftBehind(request: Envelope, response: Envelope): State {
    var item := Item(0, 0, response);
    State([item], [Handler(request, Putting([response], 1, false))], Exited, [], [item], [],
          [Accepted(request), Ignored(PluginShutdown)])
  }

  lemma LeavesEarlyRun(request: Envelope, server: int)
    requires request.ActionRequest?
    ensures ThenFour(Some(INITIAL), LeavesEarly(request, server)) == Some(ShutWhileRunning(request))
  {
    var more := LeavesEarly(request, server);
    var s1 := INITIAL.(phase := Waiting(Some(Inbound(request)), None));
    var s2 := State([], [Handler(request, Running)], Draining(false), [], [], [], [Accepted(request)]);
    assert Then(Some(INITIAL), more[0]) == Some(s1);
    assert Noticed(s1) == INITIAL;
    assert Handle(INITIAL, request, server, None) == s2;
    assert Then(Some(s1), more[1]) == Some(s2);
    assert Then(Some(s2), more[2]) == Some(s2.(phase := AGAIN));
  }

  lemma RepliesLateRun(request: Envelope, response: Envelope, server: int)
    ensures ThenFour(Some(ShutWhileRunning(request)), RepliesLate(response, server))
         == Some(LeftBehind(request, response))
  {
    var more := RepliesLate(response, server);
    var s0 := ShutWhileRunning(request);
    var s1 := s0.(phase := Draining(true), dealt := [Accepted(request), Ignored(PluginShutdown)]);
    var s2 := s1.(phase := Exited);
    var s3 := s2.(handlers := [Handler(request, Putting([response], 0, false))]);
    assert Noticed(s0) == s0.(phase := AGAIN);
    assert Handle(Noticed(s0), PluginShutdown, server, None) == s1;
    assert Then(Some(s0), more[0]) == Some(s1);
    assert Then(Some(s1), more[1]) == Some(s2);
    assert WithProgress(s2, 0, Putting([response], 0, false)) == s3.handlers;
    assert Then(Some(s2), more[2]) == Some(s3);
    assert ApplyPut(s3, 0) == LeftBehind(request, response);
    assert Then(Some(s3), more[3]) == Some(LeftBehind(request, response));
  }

  /** The reply of an accepted request can be stranded without any double wait: the loop has left, nothing was sent, and
      the reply sits in a queue nobody reads. */
  lemma ReplyCanBeStranded(request: Envelope, response: Envelope, server: int)
    requires request.ActionRequest?
    ensures var steps := LeavesEarly(request, server) + RepliesLate(response, server);
            && Run(steps) == Some(LeftBehind(request, response))
            && DoubleWaits(steps) == 0
            && Stranded(steps) == [Item(0, 0, response)]
  {
    var a, b := LeavesEarly(request, server), RepliesLate(response, server);
    assert Run([]) == Some(INITIAL) && [] + a == a;
    NothingPicked();
    hide Run, Then, ThenFour, LeavesEarly, RepliesLate, Stranded, DoubleWaits;
    LeavesEarlyRun(request, server);
    RepliesLateRun(request, response, server);
    FourMore([], a);
    FourMore(a, b);
    QueueIsStranded(a + b);
    LossesAreDoubleWaits(a + b);
  }

  lemma NothingPicked()
    ensures Pick([], false) == []
  {
  }

  // ---------------------------------------------------------------------------
  // Handlers that raise
  // ---------------------------------------------------------------------------

  /** On a run that has ended, a handler that raised has had its ACTION_ERROR sent if and only if that reply was put
      before the loop left and was not lost. */
  lemma {:induction false} PanicsAreAnsweredExactly(steps: seq<Step>, i: nat)
    requires Run(steps).Some? && Run(steps).value.phase.Exited?
    requires i < |steps| && steps[i].HandlerRaises?
    ensures var s, t := Run(steps).value, steps[i].t;
            && t < |s.handlers|
            && var x := Item(t, 0, PanicReply(s.handlers[t].request, steps[i].message));
               Reply(x) in s.attempts <==> x in s.puts && x !in Stranded(steps) && x !in Lost(s)
  {
    var s, t := Run(steps).value, steps[i].t;
    HandlerOutcome(steps, i, t);
    var x := Item(t, 0, PanicReply(s.handlers[t].request, steps[i].message));
    ExitedLedger(steps, x);
    RunKeepsInv(steps);
    PutIffCounted(s, x);
    hide Run, Replies, Pick, Stranded, Inv;
    AttemptedIffSent(s.attempts, x);
  }

  lemma {:induction false} AttemptedIffSent(attempts: seq<Attempt>, x: Item)
    ensures Reply(x) in attempts <==> x in Replies(attempts)
  {
    if attempts != [] {
      AttemptedIffSent(attempts[..|attempts| - 1], x);
    }
  }
}
