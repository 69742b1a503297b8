/** Any number of concurrent `route` tasks, and threads, on one gate: each task decides without state, enters the lock
    once, and calls its executor outside it, while others do the same in between. */
module GateTasks {
  import opened Wrappers
  import opened Octets
  import opened PendingIds
  import opened Gate

  datatype Phase =
    | Checked(intent: Intent)                              // decided, lock not yet entered
    | Taken(id: string, entry: PendingAction)              // popped, executor not yet called
    | Executing(id: string, entry: PendingAction)          // awaiting the executor
    | Replied(reply: Reply)

  datatype Task = Task(req: Request, phase: Phase)

  datatype Step =
    | Arrive(req: Request)
    | OtherGate                                            // another gate draws a number from the shared counter
    | RefuseStep(t: nat)
    | StoreStep(t: nat, at: Readings)
    | TakeStep(t: nat, now: real)
    | CallExecutor(t: nat)
    | ExecutorEnds(t: nat, result: ExecutorResult)

  // Ghost history.
  datatype Issue = Issue(task: nat, wallMs: int, sequence: nat, entry: PendingAction)
  datatype Taking = Taking(task: nat, at: real)
  datatype Call = Call(task: nat, id: string, params: Bytes)

  datatype State = State(
    pending: PendingMap, next: nat, now: real, tasks: seq<Task>,
    issued: map<string, Issue>, taken: map<string, Taking>, expired: set<string>, calls: seq<Call>)

  function Initial(start: real): State {
    State(map[], 0, start, [], map[], map[], {}, [])
  }

  ghost predicate Enabled(s: State, step: Step) {
    match step
    case Arrive(_) => true
    case OtherGate => true
    case RefuseStep(t) => t < |s.tasks| && s.tasks[t].phase.Checked? && s.tasks[t].phase.intent.Refuse?
    case StoreStep(t, at) =>
      t < |s.tasks| && s.tasks[t].phase == Checked(Store) && s.now <= at.sweep <= at.created
    case TakeStep(t, now) =>
      t < |s.tasks| && s.tasks[t].phase.Checked? && s.tasks[t].phase.intent.Take? && s.now <= now
    case CallExecutor(t) => t < |s.tasks| && s.tasks[t].phase.Taken?
    case ExecutorEnds(t, _) => t < |s.tasks| && s.tasks[t].phase.Executing?
  }

  function Move(s: State, t: nat, phase: Phase): seq<Task>
    requires t < |s.tasks|
  {
    s.tasks[t := s.tasks[t].(phase := phase)]
  }

  /** The sweep at the start of either locked section. */
  function SweepState(cfg: Config, s: State, now: real): State {
    var live := Sweep(s.pending, cfg.ttl, now);
    s.(pending := live, now := now, expired := s.expired + (s.pending.Keys - live.Keys))
  }

  function IssueState(cfg: Config, s: State, t: nat, wallMs: int, created: real): State
    requires t < |s.tasks|
  {
    var req := s.tasks[t].req;
    var id := PendingId(wallMs, s.next);
    var entry := EntryOf(req, created);
    s.(pending := s.pending[id := entry], next := s.next + 1, now := created,
       tasks := Move(s, t, Replied(Stored(id, req.action, TtlSecs(cfg.ttl)))),
       issued := s.issued[id := Issue(t, wallMs, s.next, entry)])
  }

  function PopState(s: State, t: nat, id: string): State
    requires t < |s.tasks|
  {
    if id !in s.pending then s.(tasks := Move(s, t, Replied(Failed(NoPending(id)))))
    else s.(pending := s.pending - {id}, tasks := Move(s, t, Taken(id, s.pending[id])),
            taken := s.taken[id := Taking(t, s.now)])
  }

  function CallState(s: State, t: nat): State
    requires t < |s.tasks| && s.tasks[t].phase.Taken?
  {
    var p := s.tasks[t].phase;
    s.(tasks := Move(s, t, Executing(p.id, p.entry)), calls := s.calls + [Call(t, p.id, p.entry.params)])
  }

  ghost function Apply(cfg: Config, loads: JsonLoads, s: State, step: Step): State
    requires Enabled(s, step)
  {
    match step
    case Arrive(req) => s.(tasks := s.tasks + [Task(req, Checked(Classify(cfg, loads, req)))])
    case OtherGate => s.(next := s.next + 1)
    case RefuseStep(t) => s.(tasks := Move(s, t, Replied(s.tasks[t].phase.intent.reply)))
    case StoreStep(t, at) => IssueState(cfg, SweepState(cfg, s, at.sweep), t, at.wallMs, at.created)
    case TakeStep(t, now) => PopState(SweepState(cfg, s, now), t, s.tasks[t].phase.intent.pendingId)
    case CallExecutor(t) =>
      CallState(s, t)
    case ExecutorEnds(t, result) => s.(tasks := Move(s, t, Replied(ExecutorReply(result))))
  }

  /** The locked sections are those of the gate object. */
  lemma LockedSections(cfg: Config, loads: JsonLoads, s: State, step: Step)
    requires Enabled(s, step)
    ensures step.StoreStep? ==>
              Apply(cfg, loads, s, step).pending == StoreInto(s.pending, cfg, s.tasks[step.t].req, s.next, step.at)
    ensures step.TakeStep? ==>
              var id := s.tasks[step.t].phase.intent.pendingId;
              var (left, entry) := TakeFrom(s.pending, cfg, id, step.now);
              && Apply(cfg, loads, s, step).pending == left
              && Apply(cfg, loads, s, step).tasks[step.t].phase
                 == (if entry.Some? then Taken(id, entry.value) else Replied(Failed(NoPending(id))))
  {
    hide PendingId, Classify;
  }

  /** The state after a run, if every step of it was enabled. */
  ghost function Run(cfg: Config, loads: JsonLoads, start: real, steps: seq<Step>): Option<State> {
    if steps == [] then Some(Initial(start))
    else
      var before := Run(cfg, loads, start, steps[..|steps| - 1]);
      var step := steps[|steps| - 1];
      if before.Some? && Enabled(before.value, step) then Some(Apply(cfg, loads, before.value, step)) else None
  }

  // ---------------------------------------------------------------------------
  // The invariant
  // ---------------------------------------------------------------------------

  /** Lifecycle: every issued id is in exactly one of live, taken or expired. */
  ghost predicate Lifecycle(s: State) {
    && s.pending.Keys + s.taken.Keys + s.expired == s.issued.Keys
    && s.pending.Keys !! s.taken.Keys && s.pending.Keys !! s.expired && s.taken.Keys !! s.expired
  }

  ghost predicate GoodIssue(cfg: Config, s: State, id: string)
    requires id in s.issued
  {
    var i := s.issued[id];
    && id == PendingId(i.wallMs, i.sequence) && i.sequence < s.next
    && i.task < |s.tasks| && s.tasks[i.task].req.action == REQUEST + cfg.op
    && s.tasks[i.task].phase == Replied(Stored(id, REQUEST + cfg.op, TtlSecs(cfg.ttl)))
    && i.entry == EntryOf(s.tasks[i.task].req, i.entry.createdAt) && i.entry.createdAt <= s.now
    && (id in s.pending ==> s.pending[id] == i.entry)
  }

  ghost predicate Called(calls: seq<Call>, id: string) {
    exists i :: 0 <= i < |calls| && calls[i].id == id
  }

  ghost predicate GoodTaking(cfg: Config, loads: JsonLoads, s: State, id: string)
    requires id in s.taken
  {
    var k := s.taken[id];
    && id in s.issued && s.issued[id].entry.createdAt <= k.at < s.issued[id].entry.createdAt + cfg.ttl
    && k.task < |s.tasks| && Classify(cfg, loads, s.tasks[k.task].req) == Take(id)
    && !s.tasks[k.task].phase.Checked?
    && (!s.tasks[k.task].phase.Taken? ==> Called(s.calls, id))
  }

  ghost predicate GoodTask(cfg: Config, loads: JsonLoads, s: State, t: nat)
    requires t < |s.tasks|
  {
    var p := s.tasks[t].phase;
    && (p.Checked? ==> p.intent == Classify(cfg, loads, s.tasks[t].req))
    && (p.Taken? || p.Executing? ==>
          p.id in s.taken && s.taken[p.id].task == t && p.id in s.issued && p.entry == s.issued[p.id].entry)
  }

  ghost predicate GoodCall(s: State, c: Call) {
    && c.id in s.taken && s.taken[c.id].task == c.task && c.task < |s.tasks|
    && c.id in s.issued && c.params == s.issued[c.id].entry.params
    && (s.tasks[c.task].phase.Executing? || s.tasks[c.task].phase.Replied?)
  }

  /** What has expired was as old as the time to live. */
  ghost predicate Overdue(cfg: Config, s: State) {
    forall id :: id in s.expired ==> id in s.issued && s.issued[id].entry.createdAt + cfg.ttl <= s.now
  }

  ghost predicate GoodIssues(cfg: Config, s: State) {
    forall id :: id in s.issued ==> GoodIssue(cfg, s, id)
  }

  ghost predicate GoodTakings(cfg: Config, loads: JsonLoads, s: State) {
    forall id :: id in s.taken ==> GoodTaking(cfg, loads, s, id)
  }

  ghost predicate GoodTasks(cfg: Config, loads: JsonLoads, s: State) {
    forall t: nat :: t < |s.tasks| ==> GoodTask(cfg, loads, s, t)
  }

  /** Every executor call is in order, and none repeats an id. */
  ghost predicate GoodCalls(s: State) {
    && (forall i :: 0 <= i < |s.calls| ==> GoodCall(s, s.calls[i]))
    && (forall i, j :: 0 <= i < j < |s.calls| ==> s.calls[i].id != s.calls[j].id)
  }

  ghost predicate Inv(cfg: Config, loads: JsonLoads, s: State) {
    && Lifecycle(s) && Overdue(cfg, s)
    && GoodIssues(cfg, s) && GoodTakings(cfg, loads, s) && GoodTasks(cfg, loads, s) && GoodCalls(s)
  }

  lemma UnusedId(cfg: Config, loads: JsonLoads, s: State, ms: int)
    requires Inv(cfg, loads, s)
    ensures PendingId(ms, s.next) !in s.issued
  {
    hide PendingId;
    var id := PendingId(ms, s.next);
    if id in s.issued {
      assert GoodIssue(cfg, s, id);
      PendingIdInjective(ms, s.next, s.issued[id].wallMs, s.issued[id].sequence);
    }
  }

  /** History only grows, no task changes its request, and a task that has replied is done. */
  ghost predicate Extends(s: State, s': State) {
    && |s.tasks| <= |s'.tasks| && s.next <= s'.next && s.now <= s'.now
    && (forall t :: 0 <= t < |s.tasks| ==> s'.tasks[t].req == s.tasks[t].req)
    && (forall t :: 0 <= t < |s.tasks| && s.tasks[t].phase.Replied? ==> s'.tasks[t] == s.tasks[t])
    && (forall id :: id in s.issued ==> id in s'.issued && s'.issued[id] == s.issued[id])
    && (forall id :: id in s.taken ==> id in s'.taken && s'.taken[id] == s.taken[id])
    && s.calls <= s'.calls
  }

  lemma IssueStays(cfg: Config, s: State, s': State, id: string)
    requires Extends(s, s') && id in s.issued && GoodIssue(cfg, s, id)
    requires id in s'.pending ==> id in s.pending && s'.pending[id] == s.pending[id]
    ensures GoodIssue(cfg, s', id)
  {
    hide PendingId;
  }

  lemma IssuesStay(cfg: Config, s: State, s': State)
    requires Extends(s, s') && GoodIssues(cfg, s)
    requires forall id :: id in s'.pending && id in s.issued ==> id in s.pending && s'.pending[id] == s.pending[id]
    ensures forall id :: id in s.issued ==> GoodIssue(cfg, s', id)
    ensures s'.issued == s.issued ==> GoodIssues(cfg, s')
  {
    hide GoodIssue;
    forall id | id in s.issued
      ensures GoodIssue(cfg, s', id)
    {
      IssueStays(cfg, s, s', id);
    }
  }

  lemma IssueFacts(cfg: Config, s: State, id: string)
    requires id in s.issued && GoodIssue(cfg, s, id)
    ensures id in s.pending ==> s.pending[id] == s.issued[id].entry
  {
  }

  lemma TakingFacts(cfg: Config, loads: JsonLoads, s: State, id: string)
    requires id in s.taken && GoodTaking(cfg, loads, s, id)
    ensures var k := s.taken[id].task;
            k < |s.tasks| && !s.tasks[k].phase.Checked? && (!s.tasks[k].phase.Taken? ==> Called(s.calls, id))
  {
  }

  lemma TakingStays(cfg: Config, loads: JsonLoads, s: State, s': State, id: string)
    requires Extends(s, s') && id in s.taken && GoodTaking(cfg, loads, s, id)
    requires var k := s.taken[id].task;
             k < |s'.tasks| ==> s'.tasks[k].phase == s.tasks[k].phase
                                || (!s'.tasks[k].phase.Checked? && Called(s'.calls, id))
    ensures GoodTaking(cfg, loads, s', id)
  {
    hide Classify;
    if Called(s.calls, id) {
      var i :| 0 <= i < |s.calls| && s.calls[i].id == id;
      assert s'.calls[i].id == id;
    }
  }

  lemma TaskStays(cfg: Config, loads: JsonLoads, s: State, s': State, t: nat)
    requires Extends(s, s') && t < |s.tasks| && GoodTask(cfg, loads, s, t) && s'.tasks[t] == s.tasks[t]
    ensures GoodTask(cfg, loads, s', t)
  {
    hide Classify;
  }

  lemma CallStays(s: State, s': State, c: Call)
    requires Extends(s, s') && GoodCall(s, c)
    requires s'.tasks[c.task].phase == s.tasks[c.task].phase || s'.tasks[c.task].phase.Replied?
    ensures GoodCall(s', c)
  {
  }

  /** All tasks but `t`, which has not entered the lock yet or is finishing, are as they were. */
  lemma OthersStay(cfg: Config, loads: JsonLoads, s: State, s': State, t: nat)
    requires Inv(cfg, loads, s) && Extends(s, s') && |s'.tasks| == |s.tasks| && s'.calls == s.calls
    requires t < |s.tasks| && forall k :: 0 <= k < |s.tasks| && k != t ==> s'.tasks[k] == s.tasks[k]
    requires s.tasks[t].phase.Checked? || (s.tasks[t].phase.Executing? && s'.tasks[t].phase.Replied?)
             || s'.tasks[t] == s.tasks[t]
    ensures forall id :: id in s.taken ==> GoodTaking(cfg, loads, s', id)
    ensures s'.taken == s.taken ==> GoodTakings(cfg, loads, s')
    ensures GoodTask(cfg, loads, s', t) ==> GoodTasks(cfg, loads, s')
    ensures GoodCalls(s')
  {
    hide GoodIssue, GoodTaking, GoodTask, Lifecycle;
    forall id | id in s.taken
      ensures GoodTaking(cfg, loads, s', id)
    {
      TakingFacts(cfg, loads, s, id);
      TakingStays(cfg, loads, s, s', id);
    }
    forall k: nat | k < |s.tasks| && k != t
      ensures GoodTask(cfg, loads, s', k)
    {
      TaskStays(cfg, loads, s, s', k);
    }
    forall i | 0 <= i < |s'.calls|
      ensures GoodCall(s', s'.calls[i])
    {
      CallStays(s, s', s.calls[i]);
    }
  }

  /** A sweep takes out exactly what is past its time. */
  lemma SweptEntries(cfg: Config, s: State, now: real)
    requires Lifecycle(s) && Overdue(cfg, s) && s.now <= now
    requires GoodIssues(cfg, s)
    ensures Overdue(cfg, SweepState(cfg, s, now))
    ensures forall id :: id in SweepState(cfg, s, now).pending ==>
              id in s.issued && now < s.issued[id].entry.createdAt + cfg.ttl
  {
    hide GoodIssue;
    forall id | id in s.issued
      ensures id in s.pending ==> s.pending[id] == s.issued[id].entry
    {
      IssueFacts(cfg, s, id);
    }
  }

  lemma SweepMoves(cfg: Config, s: State, now: real)
    requires Lifecycle(s) && s.now <= now
    ensures var s' := SweepState(cfg, s, now);
            && Extends(s, s') && Lifecycle(s')
            && s'.issued == s.issued && s'.taken == s.taken && s'.calls == s.calls && s'.tasks == s.tasks
            && (forall k :: k in s'.pending ==> k in s.pending && s'.pending[k] == s.pending[k])
  {
  }

  /** Nobody's task moves. */
  lemma AllStay(cfg: Config, loads: JsonLoads, s: State, s': State)
    requires Inv(cfg, loads, s) && Extends(s, s') && s'.tasks == s.tasks && s'.taken == s.taken && s'.calls == s.calls
    ensures GoodTakings(cfg, loads, s') && GoodTasks(cfg, loads, s') && GoodCalls(s')
  {
    if s.tasks == [] {
      NoTasks(cfg, loads, s);
    } else {
      hide GoodTaking, GoodTask, GoodCall, GoodIssue, GoodIssues, GoodTakings, GoodCalls, Extends, Lifecycle, Overdue;
      TaskStays(cfg, loads, s, s', 0);
      OthersStay(cfg, loads, s, s', 0);
    }
  }

  lemma NoTasks(cfg: Config, loads: JsonLoads, s: State)
    requires Inv(cfg, loads, s) && s.tasks == []
    ensures s.taken.Keys == {} && s.calls == []
  {
    hide GoodIssue, GoodTaking, GoodTask, GoodCall;
    if s.calls != [] {
      CallFacts(s, s.calls[0]);
    }
    if id :| id in s.taken {
      TakingFacts(cfg, loads, s, id);
    }
  }

  lemma SweepKeepsInv(cfg: Config, loads: JsonLoads, s: State, now: real)
    requires Inv(cfg, loads, s) && s.now <= now
    ensures Inv(cfg, loads, SweepState(cfg, s, now))
    ensures forall id :: id in SweepState(cfg, s, now).pending ==>
              id in s.issued && now < s.issued[id].entry.createdAt + cfg.ttl
  {
    hide GoodIssue, GoodTaking, GoodTask, GoodCall, GoodIssues, GoodTakings, GoodTasks, GoodCalls, PendingId, Extends,
         Lifecycle, Overdue, SweepState;
    var s' := SweepState(cfg, s, now);
    SweepMoves(cfg, s, now);
    SweptEntries(cfg, s, now);
    IssuesStay(cfg, s, s');
    AllStay(cfg, loads, s, s');
  }

  lemma CallFacts(s: State, c: Call)
    requires GoodCall(s, c)
    ensures c.task < |s.tasks| && c.id in s.taken && s.taken[c.id].task == c.task
    ensures s.tasks[c.task].phase.Executing? || s.tasks[c.task].phase.Replied?
  {
  }

  lemma TaskFacts(cfg: Config, loads: JsonLoads, s: State, t: nat)
    requires t < |s.tasks| && GoodTask(cfg, loads, s, t)
    ensures var p := s.tasks[t].phase;
            && (p.Checked? ==> p.intent == Classify(cfg, loads, s.tasks[t].req))
            && (p.Taken? ==> p.id in s.taken && s.taken[p.id].task == t)
  {
  }

  lemma RepliedIsGood(cfg: Config, loads: JsonLoads, s: State, t: nat)
    requires t < |s.tasks| && s.tasks[t].phase.Replied?
    ensures GoodTask(cfg, loads, s, t)
  {
  }

  lemma IssuedIsGood(cfg: Config, s: State, t: nat, wallMs: int, created: real)
    requires t < |s.tasks| && s.tasks[t].req.action == REQUEST + cfg.op
    ensures GoodIssue(cfg, IssueState(cfg, s, t, wallMs, created), PendingId(wallMs, s.next))
  {
    hide PendingId;
  }

  lemma IssueMoves(cfg: Config, s: State, t: nat, wallMs: int, created: real)
    requires Lifecycle(s) && Overdue(cfg, s) && t < |s.tasks| && s.tasks[t].phase.Checked? && s.now <= created
    requires PendingId(wallMs, s.next) !in s.issued
    ensures var s', id := IssueState(cfg, s, t, wallMs, created), PendingId(wallMs, s.next);
            && Extends(s, s') && Lifecycle(s') && Overdue(cfg, s')
            && s'.taken == s.taken && s'.calls == s.calls && |s'.tasks| == |s.tasks| && s'.tasks[t].phase.Replied?
            && (forall k :: 0 <= k < |s.tasks| && k != t ==> s'.tasks[k] == s.tasks[k])
            && (forall k :: k in s'.pending && k in s.issued ==> k in s.pending && s'.pending[k] == s.pending[k])
            && (forall k :: k in s'.issued ==> k in s.issued || k == id)
  {
    hide PendingId;
  }

  lemma IssueKeepsInv(cfg: Config, loads: JsonLoads, s: State, t: nat, wallMs: int, created: real)
    requires Inv(cfg, loads, s) && s.now <= created && t < |s.tasks| && s.tasks[t].phase == Checked(Store)
    ensures Inv(cfg, loads, IssueState(cfg, s, t, wallMs, created))
  {
    UnusedId(cfg, loads, s, wallMs);
    hide PendingId, Classify, GoodIssue, GoodTaking, GoodTask, GoodCall, GoodCalls, GoodTakings, Extends, Lifecycle, Overdue,
         IssueState;
    var s' := IssueState(cfg, s, t, wallMs, created);
    IssueMoves(cfg, s, t, wallMs, created);
    TaskFacts(cfg, loads, s, t);
    ClaimedNames(cfg, loads, s.tasks[t].req);
    RepliedIsGood(cfg, loads, s', t);
    IssuedIsGood(cfg, s, t, wallMs, created);
    OthersStay(cfg, loads, s, s', t);
    IssuesStay(cfg, s, s');
  }

  lemma PoppedIsGood(cfg: Config, loads: JsonLoads, s: State, t: nat, id: string)
    requires t < |s.tasks| && id in s.pending && id in s.issued && GoodIssue(cfg, s, id)
    requires Classify(cfg, loads, s.tasks[t].req) == Take(id) && s.now < s.issued[id].entry.createdAt + cfg.ttl
    ensures GoodTaking(cfg, loads, PopState(s, t, id), id) && GoodTask(cfg, loads, PopState(s, t, id), t)
  {
    hide Classify, PendingId;
  }

  lemma PopMoves(cfg: Config, s: State, t: nat, id: string)
    requires Lifecycle(s) && Overdue(cfg, s) && t < |s.tasks| && s.tasks[t].phase.Checked?
    ensures var s' := PopState(s, t, id);
            && Extends(s, s') && Lifecycle(s') && Overdue(cfg, s')
            && s'.issued == s.issued && s'.calls == s.calls && |s'.tasks| == |s.tasks|
            && (forall k :: 0 <= k < |s.tasks| && k != t ==> s'.tasks[k] == s.tasks[k])
            && (forall k :: k in s'.pending ==> k in s.pending && s'.pending[k] == s.pending[k])
            && (forall k :: k in s'.taken ==> k in s.taken || (k == id && id in s.pending))
            && (id !in s.pending ==> s'.taken == s.taken && s'.tasks[t].phase.Replied?)
  {
    PopLifecycle(s, t, id);
    hide Lifecycle;
  }

  lemma PopLifecycle(s: State, t: nat, id: string)
    requires Lifecycle(s) && t < |s.tasks|
    ensures Lifecycle(PopState(s, t, id))
    ensures forall k :: k in s.taken ==> k in PopState(s, t, id).taken && PopState(s, t, id).taken[k] == s.taken[k]
  {
  }

  lemma PopKeepsInv(cfg: Config, loads: JsonLoads, s: State, t: nat)
    requires Inv(cfg, loads, s) && t < |s.tasks| && s.tasks[t].phase.Checked? && s.tasks[t].phase.intent.Take?
    requires forall id :: id in s.pending ==> id in s.issued && s.now < s.issued[id].entry.createdAt + cfg.ttl
    ensures Inv(cfg, loads, PopState(s, t, s.tasks[t].phase.intent.pendingId))
  {
    hide PendingId, Classify, GoodIssue, GoodTaking, GoodTask, GoodCall, GoodCalls, Extends, Lifecycle, Overdue, PopState;
    var id0 := s.tasks[t].phase.intent.pendingId;
    PopMoves(cfg, s, t, id0);
    var s' := PopState(s, t, id0);
    TaskFacts(cfg, loads, s, t);
    if id0 in s.pending {
      PoppedIsGood(cfg, loads, s, t, id0);
    } else {
      RepliedIsGood(cfg, loads, s', t);
    }
    OthersStay(cfg, loads, s, s', t);
    IssuesStay(cfg, s, s');
  }

  lemma CalledIsGood(cfg: Config, loads: JsonLoads, s: State, t: nat)
    requires t < |s.tasks| && s.tasks[t].phase.Taken? && GoodTask(cfg, loads, s, t)
    ensures var s', id := CallState(s, t), s.tasks[t].phase.id;
            && GoodTask(cfg, loads, s', t) && GoodCall(s', s'.calls[|s.calls|]) && s'.calls[|s.calls|].id == id
            && Called(s'.calls, id)
  {
    hide Classify;
    var s' := CallState(s, t);
    assert s'.calls[|s.calls|].id == s.tasks[t].phase.id;
  }

  lemma CallKeepsInv(cfg: Config, loads: JsonLoads, s: State, t: nat)
    requires Inv(cfg, loads, s) && t < |s.tasks| && s.tasks[t].phase.Taken?
    ensures Inv(cfg, loads, CallState(s, t))
  {
    hide PendingId, Classify, GoodIssue, GoodTask, GoodTaking, GoodCall, Called;
    var s' := CallState(s, t);
    TaskFacts(cfg, loads, s, t);
    CalledIsGood(cfg, loads, s, t);
    forall id | id in s'.issued
      ensures GoodIssue(cfg, s', id)
    {
      IssueStays(cfg, s, s', id);
    }
    forall id | id in s'.taken
      ensures GoodTaking(cfg, loads, s', id)
    {
      TakingFacts(cfg, loads, s, id);
      if s.taken[id].task == t {
        TakenIdIs(cfg, loads, s, t, id);
      }
      TakingStays(cfg, loads, s, s', id);
    }
    forall k: nat | k < |s'.tasks|
      ensures GoodTask(cfg, loads, s', k)
    {
      if k != t {
        TaskStays(cfg, loads, s, s', k);
      }
    }
    forall i | 0 <= i < |s.calls|
      ensures GoodCall(s', s'.calls[i]) && s.calls[i].id != s.tasks[t].phase.id
    {
      CallFacts(s, s.calls[i]);
      CallStays(s, s', s.calls[i]);
    }
  }

  /** A task takes at most the one id its confirm names. */
  lemma TakenIdIs(cfg: Config, loads: JsonLoads, s: State, t: nat, id: string)
    requires Inv(cfg, loads, s) && t < |s.tasks| && s.tasks[t].phase.Taken?
    requires id in s.taken && s.taken[id].task == t
    ensures s.tasks[t].phase.id == id
  {
    hide Classify;
    assert GoodTask(cfg, loads, s, t);
    assert GoodTaking(cfg, loads, s, id) && GoodTaking(cfg, loads, s, s.tasks[t].phase.id);
  }

  lemma SameLifecycle(cfg: Config, s: State, s': State)
    requires Lifecycle(s) && Overdue(cfg, s)
    requires s'.pending == s.pending && s'.taken == s.taken && s'.expired == s.expired
    requires s'.issued == s.issued && s'.now == s.now
    ensures Lifecycle(s') && Overdue(cfg, s')
  {
  }

  lemma ReplyExtends(s: State, t: nat, reply: Reply)
    requires t < |s.tasks| && !s.tasks[t].phase.Replied?
    ensures Extends(s, s.(tasks := Move(s, t, Replied(reply))))
  {
  }

  /** A task that is refused, or whose executor ends, is finished. */
  lemma ReplyKeepsInv(cfg: Config, loads: JsonLoads, s: State, t: nat, reply: Reply)
    requires Inv(cfg, loads, s) && t < |s.tasks|
    requires s.tasks[t].phase.Executing? || (s.tasks[t].phase.Checked? && s.tasks[t].phase.intent.Refuse?)
    ensures Inv(cfg, loads, s.(tasks := Move(s, t, Replied(reply))))
  {
    hide PendingId, Classify, GoodIssue, GoodTaking, GoodTask, GoodCall, GoodIssues, GoodTakings, GoodTasks, GoodCalls,
         Lifecycle, Overdue, Extends;
    var s' := s.(tasks := Move(s, t, Replied(reply)));
    ReplyExtends(s, t, reply);
    RepliedIsGood(cfg, loads, s', t);
    SameLifecycle(cfg, s, s');
    OthersStay(cfg, loads, s, s', t);
    IssuesStay(cfg, s, s');
  }

  /** A new task, or a number drawn by another gate. */
  lemma ArrivalKeepsInv(cfg: Config, loads: JsonLoads, s: State, s': State)
    requires Inv(cfg, loads, s)
    requires s'.next >= s.next && s.tasks <= s'.tasks && s' == s.(next := s'.next, tasks := s'.tasks)
    requires forall t :: |s.tasks| <= t < |s'.tasks| ==> s'.tasks[t].phase == Checked(Classify(cfg, loads, s'.tasks[t].req))
    ensures Inv(cfg, loads, s')
  {
    hide PendingId, Classify, GoodIssue, GoodTaking, GoodTask, GoodCall;
    forall id | id in s'.issued
      ensures GoodIssue(cfg, s', id)
    {
      IssueStays(cfg, s, s', id);
    }
    forall id | id in s'.taken
      ensures GoodTaking(cfg, loads, s', id)
    {
      TakingFacts(cfg, loads, s, id);
      TakingStays(cfg, loads, s, s', id);
    }
    forall k: nat | k < |s'.tasks|
      ensures GoodTask(cfg, loads, s', k)
    {
      if k < |s.tasks| {
        TaskStays(cfg, loads, s, s', k);
      } else {
        ArrivedIsGood(cfg, loads, s', k);
      }
    }
    forall i | 0 <= i < |s'.calls|
      ensures GoodCall(s', s'.calls[i])
    {
      CallFacts(s, s.calls[i]);
      CallStays(s, s', s.calls[i]);
    }
  }

  lemma ArrivedIsGood(cfg: Config, loads: JsonLoads, s: State, t: nat)
    requires t < |s.tasks| && s.tasks[t].phase == Checked(Classify(cfg, loads, s.tasks[t].req))
    ensures GoodTask(cfg, loads, s, t)
  {
  }

  lemma StepKeepsInv(cfg: Config, loads: JsonLoads, s: State, step: Step)
    requires Inv(cfg, loads, s) && Enabled(s, step)
    ensures Inv(cfg, loads, Apply(cfg, loads, s, step))
  {
    hide Inv, IssueState, PopState, CallState, Classify, Sweep;
    match step
    case StoreStep(t, at) =>
      SweepKeepsInv(cfg, loads, s, at.sweep);
      IssueKeepsInv(cfg, loads, SweepState(cfg, s, at.sweep), t, at.wallMs, at.created);
    case TakeStep(t, now) =>
      SweepKeepsInv(cfg, loads, s, now);
      PopKeepsInv(cfg, loads, SweepState(cfg, s, now), t);
    case CallExecutor(t) => CallKeepsInv(cfg, loads, s, t);
    case RefuseStep(t) => ReplyKeepsInv(cfg, loads, s, t, s.tasks[t].phase.intent.reply);
    case ExecutorEnds(t, result) => ReplyKeepsInv(cfg, loads, s, t, ExecutorReply(result));
    case _ => ArrivalKeepsInv(cfg, loads, s, Apply(cfg, loads, s, step));
  }

  lemma {:induction false} RunKeepsInv(cfg: Config, loads: JsonLoads, start: real, steps: seq<Step>)
    ensures Run(cfg, loads, start, steps).Some? ==> Inv(cfg, loads, Run(cfg, loads, start, steps).value)
  {
    hide Inv, Apply, Enabled;
    if steps != [] {
      var init, last := steps[..|steps| - 1], steps[|steps| - 1];
      RunKeepsInv(cfg, loads, start, init);
      var before := Run(cfg, loads, start, init);
      if before.Some? && Enabled(before.value, last) {
        StepKeepsInv(cfg, loads, before.value, last);
      }
    } else {
      InitiallyInv(cfg, loads, start);
    }
  }

  lemma InitiallyInv(cfg: Config, loads: JsonLoads, start: real)
    ensures Inv(cfg, loads, Initial(start))
  {
  }

  // ---------------------------------------------------------------------------
  // Safety and lifecycle
  // ---------------------------------------------------------------------------

  /** The executor call `c` was asked for by a `request_<op>` task and released by a confirm that may release it. */
  ghost predicate Authorized(cfg: Config, loads: JsonLoads, s: State, c: Call) {
    && c.id in s.issued && c.id in s.taken && s.taken[c.id].task == c.task
    && s.issued[c.id].task < |s.tasks| && c.task < |s.tasks|
    && var request, confirm := s.tasks[s.issued[c.id].task].req, s.tasks[c.task].req;
    && request.action == "request_" + cfg.op && c.params == request.params
    && confirm.action == "confirm_" + cfg.op && MayConfirmSpec(cfg, confirm.caller)
    && NamesId(loads, confirm.params, c.id)
    && s.issued[c.id].entry.createdAt <= s.taken[c.id].at < s.issued[c.id].entry.createdAt + cfg.ttl
  }

  /** The task whose request was stored under `id`. */
  function RequestTask(s: State, id: string): Option<nat> {
    if id in s.issued then Some(s.issued[id].task) else None
  }

  lemma OneIdPerRequest(cfg: Config, loads: JsonLoads, s: State, a: string, b: string)
    requires Inv(cfg, loads, s) && a in s.issued && b in s.issued
    requires a != b
    ensures s.issued[a].task != s.issued[b].task
  {
    hide PendingId, Classify, GoodTask, GoodTaking, GoodCall;
    assert GoodIssue(cfg, s, a) && GoodIssue(cfg, s, b);
  }

  /** Gate safety: in every interleaving each executor call runs the parameters of an earlier request, was released by
      an allowlisted caller naming that request's id within its time to live, and happens at most once per request
      task, id and confirm, however many confirms race and however the executor ends. */
  lemma GateSafety(cfg: Config, loads: JsonLoads, start: real, steps: seq<Step>)
    requires Run(cfg, loads, start, steps).Some?
    ensures var s := Run(cfg, loads, start, steps).value;
            && (forall c :: c in s.calls ==> Authorized(cfg, loads, s, c))
            && (forall i, j :: 0 <= i < j < |s.calls| ==>
                  && s.calls[i].id != s.calls[j].id && s.calls[i].task != s.calls[j].task
                  && RequestTask(s, s.calls[i].id) != RequestTask(s, s.calls[j].id))
            && Lifecycle(s)
  {
    RunKeepsInv(cfg, loads, start, steps);
    hide Run, PendingId, Classify;
    var s := Run(cfg, loads, start, steps).value;
    forall c | c in s.calls
      ensures Authorized(cfg, loads, s, c) && Classify(cfg, loads, s.tasks[c.task].req) == Take(c.id)
    {
      ClaimedNames(cfg, loads, s.tasks[c.task].req);
    }
    forall i, j | 0 <= i < j < |s.calls|
      ensures RequestTask(s, s.calls[i].id) != RequestTask(s, s.calls[j].id)
    {
      assert s.calls[i].id in s.issued && s.calls[j].id in s.issued;
      OneIdPerRequest(cfg, loads, s, s.calls[i].id, s.calls[j].id);
    }
  }

  /** A confirm that has passed its checks gets the entry, in any interleaving, exactly if the id it names was issued,
      no other confirm has taken it, and the request is younger than the time to live at that moment; whether it has
      been swept makes no difference. What it gets is what the request stored, and otherwise its reply says so. */
  lemma TakesExactly(cfg: Config, loads: JsonLoads, start: real, steps: seq<Step>, t: nat, now: real)
    requires Run(cfg, loads, start, steps).Some? && Enabled(Run(cfg, loads, start, steps).value, TakeStep(t, now))
    ensures var s := Run(cfg, loads, start, steps).value;
            var id := s.tasks[t].phase.intent.pendingId;
            Apply(cfg, loads, s, TakeStep(t, now)).tasks[t].phase
            == if id in s.issued && id !in s.taken && now < s.issued[id].entry.createdAt + cfg.ttl
               then Taken(id, s.issued[id].entry)
               else Replied(Failed(NoPending(id)))
  {
    RunKeepsInv(cfg, loads, start, steps);
    hide Run, PendingId, Classify, GoodTask, GoodTaking, GoodCall;
    var s := Run(cfg, loads, start, steps).value;
    var id := s.tasks[t].phase.intent.pendingId;
    if id in s.issued {
      IssueFacts(cfg, s, id);
    }
  }

  /** A time to live that is not positive lets nothing through. */
  lemma ConfirmNeedsTime(cfg: Config, loads: JsonLoads, start: real, steps: seq<Step>)
    requires Run(cfg, loads, start, steps).Some?
    ensures Run(cfg, loads, start, steps).value.calls != [] ==> cfg.ttl > 0.0
  {
    GateSafety(cfg, loads, start, steps);
    hide Run;
    var s := Run(cfg, loads, start, steps).value;
    if s.calls != [] {
      assert s.calls[0] in s.calls;
    }
  }

  /** What a step may do to a live entry: leave it, hand it to a task whose confirm names it and may, or expire it once
      it is as old as the time to live. A refused, malformed or unknown confirm removes nothing else. */
  lemma LiveEntriesLeaveTwoWays(cfg: Config, loads: JsonLoads, s: State, step: Step, id: string)
    requires Inv(cfg, loads, s) && Enabled(s, step) && id in s.pending
    ensures var s' := Apply(cfg, loads, s, step);
            if id in s'.pending then s'.pending[id] == s.pending[id]
            else if id in s'.taken then
              && step.TakeStep? && s'.taken[id] == Taking(step.t, step.now)
              && Classify(cfg, loads, s.tasks[step.t].req) == Take(id)
              && step.now < s.pending[id].createdAt + cfg.ttl
            else
              && id in s'.expired
              && (step.StoreStep? || step.TakeStep?)
              && (if step.StoreStep? then step.at.sweep else step.now) >= s.pending[id].createdAt + cfg.ttl
  {
    hide PendingId, Classify, GoodIssue, GoodTask, GoodTaking, GoodCall;
    if step.StoreStep? {
      UnusedId(cfg, loads, s, step.at.wallMs);
    } else if step.TakeStep? {
      TaskFacts(cfg, loads, s, step.t);
    }
  }

  /** Nothing comes back: a taken or expired id stays so, and is never live again. */
  lemma {:induction false} Settled(cfg: Config, loads: JsonLoads, start: real, steps: seq<Step>, more: seq<Step>, id: string)
    requires Run(cfg, loads, start, steps).Some? && Run(cfg, loads, start, steps + more).Some?
    ensures var s, s' := Run(cfg, loads, start, steps).value, Run(cfg, loads, start, steps + more).value;
            (id in s.taken ==> id in s'.taken && s'.taken[id] == s.taken[id]) && (id in s.expired ==> id in s'.expired)
    decreases |more|
  {
    hide Inv, Apply, Enabled;
    if more == [] {
      assert steps + more == steps;
    } else {
      var init, last := more[..|more| - 1], more[|more| - 1];
      assert (steps + more)[..|steps + more| - 1] == steps + init;
      Settled(cfg, loads, start, steps, init, id);
      RunKeepsInv(cfg, loads, start, steps + init);
      StepSettles(cfg, loads, Run(cfg, loads, start, steps + init).value, last, id);
    }
  }

  lemma StepSettles(cfg: Config, loads: JsonLoads, s: State, step: Step, id: string)
    requires Inv(cfg, loads, s) && Enabled(s, step)
    ensures var s' := Apply(cfg, loads, s, step);
            && (id in s.taken ==> id in s'.taken && s'.taken[id] == s.taken[id])
            && (id in s.expired ==> id in s'.expired)
  {
    hide PendingId, Classify, GoodIssue, GoodTask, GoodTaking, GoodCall;
  }

  // ---------------------------------------------------------------------------
  // Replies
  // ---------------------------------------------------------------------------

  /** Step `i` is where the executor of task `t` ended. */
  predicate EndedAt(steps: seq<Step>, i: nat, t: nat) {
    i < |steps| && steps[i].ExecutorEnds? && steps[i].t == t
  }

  /** A task's reply is the one its request has coming: a refusal as decided, a stored request its id, and a confirm the
      news that nothing is pending, or what its executor ended with. */
  ghost predicate Earned(cfg: Config, loads: JsonLoads, steps: seq<Step>, s: State, t: nat)
    requires t < |s.tasks|
  {
    s.tasks[t].phase.Replied? ==>
      var reply := s.tasks[t].phase.reply;
      match Classify(cfg, loads, s.tasks[t].req) {
        case Refuse(refusal) => reply == refusal
        case Store => reply.Stored? && reply.pendingId in s.issued && s.issued[reply.pendingId].task == t
        case Take(id) =>
          reply == Failed(NoPending(id))
          || exists i: nat :: EndedAt(steps, i, t) && reply == ExecutorReply(steps[i].result)
      }
  }

  lemma TaskMoves(cfg: Config, loads: JsonLoads, s: State, step: Step, t: nat)
    requires Inv(cfg, loads, s) && Enabled(s, step)
    ensures var s' := Apply(cfg, loads, s, step);
            t < |s'.tasks| && s'.tasks[t].phase.Replied? ==>
              var reply := s'.tasks[t].phase.reply;
              if t < |s.tasks| && s.tasks[t].phase.Replied? then s'.tasks[t] == s.tasks[t]
              else
                && t < |s.tasks| && s'.tasks[t].req == s.tasks[t].req
                && match Classify(cfg, loads, s.tasks[t].req) {
                     case Refuse(refusal) => reply == refusal
                     case Store => reply.Stored? && reply.pendingId in s'.issued && s'.issued[reply.pendingId].task == t
                     case Take(id) =>
                       reply == Failed(NoPending(id))
                       || (step.ExecutorEnds? && step.t == t && reply == ExecutorReply(step.result))
                   }
  {
    hide PendingId, Classify, GoodIssue, GoodTaking, GoodCall, Lifecycle, Overdue;
    if t < |s.tasks| {
      assert GoodTask(cfg, loads, s, t);
      if s.tasks[t].phase.Executing? {
        ExecutingIsTake(cfg, loads, s, t);
      }
    }
  }

  lemma ExecutingIsTake(cfg: Config, loads: JsonLoads, s: State, t: nat)
    requires Inv(cfg, loads, s) && t < |s.tasks| && s.tasks[t].phase.Executing?
    ensures Classify(cfg, loads, s.tasks[t].req) == Take(s.tasks[t].phase.id)
  {
    hide Classify;
    assert GoodTask(cfg, loads, s, t);
    assert GoodTaking(cfg, loads, s, s.tasks[t].phase.id);
  }

  lemma IssuesGrow(cfg: Config, loads: JsonLoads, s: State, step: Step, id: string)
    requires Inv(cfg, loads, s) && Enabled(s, step) && id in s.issued
    ensures var s' := Apply(cfg, loads, s, step); id in s'.issued && s'.issued[id] == s.issued[id]
  {
    if step.StoreStep? {
      UnusedId(cfg, loads, s, step.at.wallMs);
    }
    hide PendingId, Classify, GoodIssue, GoodTask, GoodTaking, GoodCall;
  }

  /** In every interleaving every task that has replied has given the reply its request has coming. */
  lemma {:induction false} RepliesAreEarned(cfg: Config, loads: JsonLoads, start: real, steps: seq<Step>, t: nat)
    requires Run(cfg, loads, start, steps).Some? && t < |Run(cfg, loads, start, steps).value.tasks|
    ensures Earned(cfg, loads, steps, Run(cfg, loads, start, steps).value, t)
  {
    if steps != [] {
      var init, last := steps[..|steps| - 1], steps[|steps| - 1];
      var s := Run(cfg, loads, start, init).value;
      var s' := Run(cfg, loads, start, steps).value;
      assert s' == Apply(cfg, loads, s, last);
      RunKeepsInv(cfg, loads, start, init);
      if t < |s.tasks| {
        RepliesAreEarned(cfg, loads, start, init, t);
      }
      hide Run, Apply, Inv, Classify;
      TaskMoves(cfg, loads, s, last, t);
      if s'.tasks[t].phase.Replied? {
        EarnedStays(cfg, loads, steps, s, s', t, last);
      }
    }
  }

  lemma EarnedStays(cfg: Config, loads: JsonLoads, steps: seq<Step>, s: State, s': State, t: nat, last: Step)
    requires |steps| > 0 && last == steps[|steps| - 1]
    requires Inv(cfg, loads, s) && Enabled(s, last) && s' == Apply(cfg, loads, s, last)
    requires t < |s'.tasks| && s'.tasks[t].phase.Replied?
    requires t < |s.tasks| ==> Earned(cfg, loads, steps[..|steps| - 1], s, t)
    ensures Earned(cfg, loads, steps, s', t)
  {
    hide Apply, Inv, Classify, ExecutorReply;
    var init := steps[..|steps| - 1];
    TaskMoves(cfg, loads, s, last, t);
    var reply := s'.tasks[t].phase.reply;
    if s.tasks[t].phase.Replied? {
      match Classify(cfg, loads, s.tasks[t].req) {
        case Refuse(_) =>
        case Store => IssuesGrow(cfg, loads, s, last, reply.pendingId);
        case Take(id) =>
          if reply != Failed(NoPending(id)) {
            var i: nat :| EndedAt(init, i, t) && reply == ExecutorReply(init[i].result);
            assert EndedAt(steps, i, t) && steps[i] == init[i];
          }
      }
    } else if last.ExecutorEnds? && last.t == t {
      assert EndedAt(steps, |steps| - 1, t);
    }
  }
}
