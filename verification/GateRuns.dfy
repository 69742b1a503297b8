/** Whole runs of one gate: lazy expiry behaves like exact expiry, and a confirm executes exactly what an earlier,
    unexpired, unconfirmed request stored. */
module GateRuns {
  import opened Wrappers
  import opened Octets
  import opened PendingIds
  import opened Gate

  /** One request, the clock its locked section reads, and how the executor would end. */
  datatype Event = Event(req: Request, at: Readings, result: ExecutorResult)

  datatype Observation = Observation(reply: Reply, executed: Option<Bytes>)

  datatype Trace = Trace(pending: PendingMap, next: nat, seen: seq<Observation>)

  ghost function Lazy(cfg: Config, loads: JsonLoads, n0: nat, es: seq<Event>): (t: Trace)
    ensures |t.seen| == |es|
  {
    if es == [] then Trace(map[], n0, [])
    else
      var b := Lazy(cfg, loads, n0, es[..|es| - 1]);
      var e := es[|es| - 1];
      var r := RouteSpec(cfg, loads, b.pending, b.next, e.req, e.at, e.result);
      Trace(r.pending, r.next, b.seen + [Observation(r.reply, r.executed)])
  }

  // ---------------------------------------------------------------------------
  // Lazy expiry refines exact expiry
  // ---------------------------------------------------------------------------

  /** A gate that never sweeps: an entry is there for a confirm exactly while it is younger than the time to live. */
  ghost function ExactStep(cfg: Config, loads: JsonLoads, entries: PendingMap, next: nat, e: Event): Routed {
    match Classify(cfg, loads, e.req)
    case Refuse(reply) => Routed(entries, next, reply, None)
    case Store =>
      var id := PendingId(e.at.wallMs, next);
      Routed(entries[id := EntryOf(e.req, e.at.created)], next + 1, Stored(id, e.req.action, TtlSecs(cfg.ttl)), None)
    case Take(id) =>
      var (left, taken) := TakeYoung(entries, cfg.ttl, id, e.at.sweep);
      if taken.None? then Routed(left, next, Failed(NoPending(id)), None)
      else Routed(left, next, ExecutorReply(e.result), Some(taken.value.params))
  }

  ghost function Exact(cfg: Config, loads: JsonLoads, n0: nat, es: seq<Event>): (t: Trace)
    ensures |t.seen| == |es|
  {
    if es == [] then Trace(map[], n0, [])
    else
      var b := Exact(cfg, loads, n0, es[..|es| - 1]);
      var r := ExactStep(cfg, loads, b.pending, b.next, es[|es| - 1]);
      Trace(r.pending, r.next, b.seen + [Observation(r.reply, r.executed)])
  }

  ghost predicate Monotone(es: seq<Event>) {
    forall i, j :: 0 <= i < j < |es| ==> es[i].at.sweep <= es[j].at.sweep
  }

  /** The swept map is the exact one less some entries that are past their time. */
  ghost predicate Swept(pending: PendingMap, entries: PendingMap, ttl: real, now: real) {
    && (forall id :: id in pending ==> id in entries && entries[id] == pending[id])
    && (forall id :: id in entries && id !in pending ==> entries[id].createdAt + ttl <= now)
  }

  lemma StepAgrees(cfg: Config, loads: JsonLoads, pending: PendingMap, entries: PendingMap, next: nat, now: real, e: Event)
    requires Swept(pending, entries, cfg.ttl, now) && now <= e.at.sweep
    ensures var r := RouteSpec(cfg, loads, pending, next, e.req, e.at, e.result);
            var x := ExactStep(cfg, loads, entries, next, e);
            && r.reply == x.reply && r.executed == x.executed && r.next == x.next
            && Swept(r.pending, x.pending, cfg.ttl, e.at.sweep)
  {
    hide Classify, PendingId;
  }

  lemma {:induction false} LazyAgrees(cfg: Config, loads: JsonLoads, n0: nat, es: seq<Event>)
    requires Monotone(es)
    ensures var l, x := Lazy(cfg, loads, n0, es), Exact(cfg, loads, n0, es);
            && l.seen == x.seen && l.next == x.next
            && (es != [] ==> Swept(l.pending, x.pending, cfg.ttl, es[|es| - 1].at.sweep))
            && (es == [] ==> l.pending == x.pending == map[])
  {
    if es != [] {
      hide RouteSpec, ExactStep;
      var before, e := es[..|es| - 1], es[|es| - 1];
      LazyAgrees(cfg, loads, n0, before);
      var l, x := Lazy(cfg, loads, n0, before), Exact(cfg, loads, n0, before);
      var now := if before == [] then e.at.sweep else before[|before| - 1].at.sweep;
      assert before != [] ==> before[|before| - 1] == es[|es| - 2];
      StepAgrees(cfg, loads, l.pending, x.pending, l.next, now, e);
    }
  }

  /** Lazy expiry: over a clock that does not run backwards, every reply and every executor call of the gate that
      sweeps only when it stores or takes is that of the gate whose entries end at exactly created_at + ttl. */
  lemma LazyRefinesExact(cfg: Config, loads: JsonLoads, n0: nat, es: seq<Event>)
    requires Monotone(es)
    ensures Lazy(cfg, loads, n0, es).seen == Exact(cfg, loads, n0, es).seen
  {
    LazyAgrees(cfg, loads, n0, es);
  }

  // ---------------------------------------------------------------------------
  // What a confirm executes, in terms of the history
  // ---------------------------------------------------------------------------

  ghost function Stores(cfg: Config, loads: JsonLoads, es: seq<Event>): nat {
    if es == [] then 0
    else Stores(cfg, loads, es[..|es| - 1]) + if Classify(cfg, loads, es[|es| - 1].req) == Store then 1 else 0
  }

  /** Event `i` stored its request under `id`. */
  ghost predicate Issues(cfg: Config, loads: JsonLoads, n0: nat, es: seq<Event>, i: nat, id: string)
    requires i < |es|
  {
    && Classify(cfg, loads, es[i].req) == Store
    && id == PendingId(es[i].at.wallMs, n0 + Stores(cfg, loads, es[..i]))
  }

  /** Nothing after event `i` has executed `id`. */
  ghost predicate Unconfirmed(cfg: Config, loads: JsonLoads, es: seq<Event>, seen: seq<Observation>, i: nat, id: string)
    requires |es| == |seen|
  {
    forall j :: i < j < |es| && Classify(cfg, loads, es[j].req) == Take(id) ==> seen[j].executed.None?
  }

  ghost predicate Open(cfg: Config, loads: JsonLoads, n0: nat, es: seq<Event>, i: nat, id: string)
    requires i < |es|
  {
    Issues(cfg, loads, n0, es, i, id) && Unconfirmed(cfg, loads, es, Exact(cfg, loads, n0, es).seen, i, id)
  }

  lemma {:induction false} StoresGrow(cfg: Config, loads: JsonLoads, es: seq<Event>, i: nat, j: nat)
    requires i < j <= |es| && Classify(cfg, loads, es[i].req) == Store
    ensures Stores(cfg, loads, es[..i]) < Stores(cfg, loads, es[..j])
    decreases j
  {
    hide Classify;
    assert es[..j][..j - 1] == es[..j - 1];
    if i < j - 1 {
      StoresGrow(cfg, loads, es, i, j - 1);
    }
  }

  /** No id is ever issued twice in a run. */
  lemma IssuedOnce(cfg: Config, loads: JsonLoads, n0: nat, es: seq<Event>, i: nat, j: nat, id: string)
    requires i < |es| && j < |es|
    requires Issues(cfg, loads, n0, es, i, id) && Issues(cfg, loads, n0, es, j, id)
    ensures i == j
  {
    hide Classify, PendingId;
    PendingIdInjective(es[i].at.wallMs, n0 + Stores(cfg, loads, es[..i]),
                       es[j].at.wallMs, n0 + Stores(cfg, loads, es[..j]));
    if i < j {
      StoresGrow(cfg, loads, es, i, j);
    } else if j < i {
      StoresGrow(cfg, loads, es, j, i);
    }
  }

  /** The exact gate's map holds, under each id, the entry of the one open request that issued it. */
  ghost predicate HoldsOpen(cfg: Config, loads: JsonLoads, n0: nat, es: seq<Event>, entries: PendingMap) {
    && (forall id, i: nat :: i < |es| && Open(cfg, loads, n0, es, i, id) ==>
          id in entries && entries[id] == EntryOf(es[i].req, es[i].at.created))
    && (forall id :: id in entries ==> exists i: nat :: i < |es| && Open(cfg, loads, n0, es, i, id))
  }

  lemma ExactSnoc(cfg: Config, loads: JsonLoads, n0: nat, es: seq<Event>, e: Event)
    ensures var b := Exact(cfg, loads, n0, es);
            var r := ExactStep(cfg, loads, b.pending, b.next, e);
            Exact(cfg, loads, n0, es + [e]) == Trace(r.pending, r.next, b.seen + [Observation(r.reply, r.executed)])
  {
    assert (es + [e])[..|es|] == es;
  }

  lemma {:induction false} NextIsCount(cfg: Config, loads: JsonLoads, n0: nat, es: seq<Event>)
    ensures Exact(cfg, loads, n0, es).next == n0 + Stores(cfg, loads, es)
  {
    hide Classify, PendingId;
    if es != [] {
      NextIsCount(cfg, loads, n0, es[..|es| - 1]);
    }
  }

  /** How one more event changes which requests are open. */
  lemma OpenSnoc(cfg: Config, loads: JsonLoads, n0: nat, es: seq<Event>, e: Event, i: nat, id: string)
    requires i <= |es|
    ensures var b := Exact(cfg, loads, n0, es);
            var executed := ExactStep(cfg, loads, b.pending, b.next, e).executed;
            Open(cfg, loads, n0, es + [e], i, id)
            <==> if i == |es|
                 then Classify(cfg, loads, e.req) == Store && id == PendingId(e.at.wallMs, b.next)
                 else Open(cfg, loads, n0, es, i, id) && !(Classify(cfg, loads, e.req) == Take(id) && executed.Some?)
  {
    hide Classify, PendingId, ExactStep;
    var all := es + [e];
    ExactSnoc(cfg, loads, n0, es, e);
    NextIsCount(cfg, loads, n0, es);
    assert all[..|es|] == es;
    if i < |es| {
      assert all[..i] == es[..i] && all[i] == es[i];
      var seen := Exact(cfg, loads, n0, all).seen;
      assert forall j :: 0 <= j < |es| ==> all[j] == es[j] && seen[j] == Exact(cfg, loads, n0, es).seen[j];
      assert all[|es|] == e;
    }
  }

  lemma {:induction false} EntriesAreOpen(cfg: Config, loads: JsonLoads, n0: nat, es: seq<Event>)
    ensures HoldsOpen(cfg, loads, n0, es, Exact(cfg, loads, n0, es).pending)
  {
    if es != [] {
      var before, e := es[..|es| - 1], es[|es| - 1];
      assert es == before + [e];
      EntriesAreOpen(cfg, loads, n0, before);
      ExactSnoc(cfg, loads, n0, before, e);
      EntriesAfter(cfg, loads, n0, before, e);
    }
  }

  lemma EntriesAfter(cfg: Config, loads: JsonLoads, n0: nat, es: seq<Event>, e: Event)
    requires HoldsOpen(cfg, loads, n0, es, Exact(cfg, loads, n0, es).pending)
    ensures var b := Exact(cfg, loads, n0, es);
            HoldsOpen(cfg, loads, n0, es + [e], ExactStep(cfg, loads, b.pending, b.next, e).pending)
  {
    hide Classify, PendingId, Open;
    var b := Exact(cfg, loads, n0, es);
    var after := ExactStep(cfg, loads, b.pending, b.next, e).pending;
    var all := es + [e];
    forall id, i: nat | i < |all| && Open(cfg, loads, n0, all, i, id)
      ensures id in after && after[id] == EntryOf(all[i].req, all[i].at.created)
    {
      OpenSnoc(cfg, loads, n0, es, e, i, id);
      if i < |es| {
        NotReissued(cfg, loads, n0, es, e, i, id);
      }
    }
    forall id | id in after
      ensures exists i: nat :: i < |all| && Open(cfg, loads, n0, all, i, id)
    {
      if Classify(cfg, loads, e.req) == Store && id == PendingId(e.at.wallMs, b.next) {
        OpenSnoc(cfg, loads, n0, es, e, |es|, id);
      } else {
        var i: nat :| i < |es| && Open(cfg, loads, n0, es, i, id);
        OpenSnoc(cfg, loads, n0, es, e, i, id);
      }
    }
  }

  lemma NotReissued(cfg: Config, loads: JsonLoads, n0: nat, es: seq<Event>, e: Event, i: nat, id: string)
    requires i < |es| && Open(cfg, loads, n0, es + [e], i, id)
    ensures Classify(cfg, loads, e.req) == Store ==> id != PendingId(e.at.wallMs, Exact(cfg, loads, n0, es).next)
  {
    if Classify(cfg, loads, e.req) == Store && id == PendingId(e.at.wallMs, Exact(cfg, loads, n0, es).next) {
      OpenSnoc(cfg, loads, n0, es, e, |es|, id);
      IssuedOnce(cfg, loads, n0, es + [e], i, |es|, id);
    }
  }

  /** A confirm reaches the executor exactly when an earlier request issued the id it names, that request is still
      younger than the time to live, and no confirm since has executed it; and what runs are the parameters of that
      request, never those of the confirm. */
  lemma ConfirmExecutesExactly(cfg: Config, loads: JsonLoads, n0: nat, es: seq<Event>, e: Event, id: string)
    requires Monotone(es + [e]) && Classify(cfg, loads, e.req) == Take(id)
    ensures var before := Lazy(cfg, loads, n0, es).seen;
            var last := Lazy(cfg, loads, n0, es + [e]).seen[|es|];
            && (last.executed.Some? <==>
                  exists i: nat :: i < |es| && Issues(cfg, loads, n0, es, i, id)
                                   && Unconfirmed(cfg, loads, es, before, i, id)
                                   && e.at.sweep < es[i].at.created + cfg.ttl)
            && (forall i: nat :: last.executed.Some? && i < |es| && Issues(cfg, loads, n0, es, i, id) ==>
                  last.executed == Some(es[i].req.params) && last.reply == ExecutorReply(e.result))
  {
    hide Classify, PendingId, Issues, Unconfirmed;
    var b := Exact(cfg, loads, n0, es);
    assert forall i, j :: 0 <= i < j < |es| ==> (es + [e])[i] == es[i] && (es + [e])[j] == es[j];
    LazyRefinesExact(cfg, loads, n0, es);
    LazyRefinesExact(cfg, loads, n0, es + [e]);
    ExactSnoc(cfg, loads, n0, es, e);
    EntriesAreOpen(cfg, loads, n0, es);
    assert Exact(cfg, loads, n0, es + [e]).seen[|es|].executed
        == ExactStep(cfg, loads, b.pending, b.next, e).executed;
    if id in b.pending {
      var i: nat :| i < |es| && Open(cfg, loads, n0, es, i, id);
      forall j: nat | j < |es| && Issues(cfg, loads, n0, es, j, id)
        ensures j == i
      {
        IssuedOnce(cfg, loads, n0, es, i, j, id);
      }
    }
  }
}
