/** Lazy expiry under concurrency: however `route` tasks interleave, a gate that sweeps only inside store and take is
    indistinguishable from one that never sweeps and looks at the age of what it takes. */
module GateExpiry {
  import opened Wrappers
  import opened PendingIds
  import opened Gate
  import opened GateTasks

  /** A take of the exact gate: the entry is there for it exactly while it is younger than the time to live. */
  function ExactPop(cfg: Config, x: State, t: nat, id: string, now: real): State
    requires t < |x.tasks|
  {
    var (left, taken) := TakeYoung(x.pending, cfg.ttl, id, now);
    if taken.None? then x.(now := now, tasks := Move(x, t, Replied(Failed(NoPending(id)))))
    else x.(now := now, pending := left, tasks := Move(x, t, Taken(id, taken.value)), taken := x.taken[id := Taking(t, now)])
  }

  ghost function ExactApply(cfg: Config, loads: JsonLoads, x: State, step: Step): State
    requires Enabled(x, step)
  {
    match step
    case StoreStep(t, at) => IssueState(cfg, x, t, at.wallMs, at.created)
    case TakeStep(t, now) => ExactPop(cfg, x, t, x.tasks[t].phase.intent.pendingId, now)
    case _ => Apply(cfg, loads, x, step)
  }

  ghost function ExactRun(cfg: Config, loads: JsonLoads, start: real, steps: seq<Step>): Option<State> {
    if steps == [] then Some(Initial(start))
    else
      var before := ExactRun(cfg, loads, start, steps[..|steps| - 1]);
      var step := steps[|steps| - 1];
      if before.Some? && Enabled(before.value, step) then Some(ExactApply(cfg, loads, before.value, step)) else None
  }

  /** Same tasks, same executor calls, same ids; the lazy map is the exact one less some entries past their time. */
  ghost predicate Alike(cfg: Config, s: State, x: State) {
    && s.next == x.next && s.now == x.now && s.tasks == x.tasks && s.calls == x.calls
    && s.issued == x.issued && s.taken == x.taken
    && (forall id :: id in s.pending ==> id in x.pending && x.pending[id] == s.pending[id])
    && (forall id :: id in x.pending && id !in s.pending ==> x.pending[id].createdAt + cfg.ttl <= s.now)
  }

  lemma SweptAlike(cfg: Config, s: State, x: State, now: real)
    requires Alike(cfg, s, x) && s.now <= now
    ensures Alike(cfg, SweepState(cfg, s, now), x.(now := now))
  {
  }

  lemma IssueAlike(cfg: Config, s: State, x: State, t: nat, wallMs: int, created: real)
    requires Alike(cfg, s, x) && s.now <= created && t < |s.tasks|
    ensures Alike(cfg, IssueState(cfg, s, t, wallMs, created), IssueState(cfg, x, t, wallMs, created))
  {
    hide PendingId;
  }

  lemma PopAlike(cfg: Config, s: State, x: State, t: nat, id: string, now: real)
    requires Alike(cfg, s, x) && s.now <= now && t < |s.tasks|
    ensures Alike(cfg, PopState(SweepState(cfg, s, now), t, id), ExactPop(cfg, x, t, id, now))
  {
    SweptAlike(cfg, s, x, now);
  }

  lemma StepAlike(cfg: Config, loads: JsonLoads, s: State, x: State, step: Step)
    requires Alike(cfg, s, x)
    ensures Enabled(s, step) <==> Enabled(x, step)
    ensures Enabled(s, step) ==> Alike(cfg, Apply(cfg, loads, s, step), ExactApply(cfg, loads, x, step))
  {
    hide PendingId, Classify, Sweep, SweepState, PopState, ExactPop, IssueState;
    if Enabled(s, step) {
      match step
      case StoreStep(t, at) =>
        SweptAlike(cfg, s, x, at.sweep);
        IssueAlike(cfg, SweepState(cfg, s, at.sweep), x.(now := at.sweep), t, at.wallMs, at.created);
        SameIssue(cfg, x, t, at);
      case TakeStep(t, now) => PopAlike(cfg, s, x, t, s.tasks[t].phase.intent.pendingId, now);
      case _ =>
    }
  }

  lemma SameIssue(cfg: Config, x: State, t: nat, at: Readings)
    requires t < |x.tasks|
    ensures IssueState(cfg, x.(now := at.sweep), t, at.wallMs, at.created) == IssueState(cfg, x, t, at.wallMs, at.created)
  {
    hide PendingId;
  }

  lemma {:induction false} RunsAlike(cfg: Config, loads: JsonLoads, start: real, steps: seq<Step>)
    ensures var lazy, exact := Run(cfg, loads, start, steps), ExactRun(cfg, loads, start, steps);
            (lazy.Some? <==> exact.Some?) && (lazy.Some? ==> Alike(cfg, lazy.value, exact.value))
  {
    hide Enabled, Apply, ExactApply, Alike;
    if steps == [] {
      StartAlike(cfg, start);
    } else {
      var init, last := steps[..|steps| - 1], steps[|steps| - 1];
      RunsAlike(cfg, loads, start, init);
      var lazy, exact := Run(cfg, loads, start, init), ExactRun(cfg, loads, start, init);
      if lazy.Some? {
        StepAlike(cfg, loads, lazy.value, exact.value, last);
      }
    }
  }

  lemma StartAlike(cfg: Config, start: real)
    ensures Alike(cfg, Initial(start), Initial(start))
  {
  }

  /** In every interleaving of any number of tasks: the same steps are possible at the lazy and at the exact gate, and
      every task is in the same phase with the same reply, and every executor call is the same. */
  lemma LazyTasksRefineExact(cfg: Config, loads: JsonLoads, start: real, steps: seq<Step>)
    ensures var lazy, exact := Run(cfg, loads, start, steps), ExactRun(cfg, loads, start, steps);
            && (lazy.Some? <==> exact.Some?)
            && (lazy.Some? ==> lazy.value.tasks == exact.value.tasks && lazy.value.calls == exact.value.calls)
  {
    hide Run, ExactRun;
    RunsAlike(cfg, loads, start, steps);
  }
}
