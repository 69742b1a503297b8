/** The fragments of one payload in any order, with duplicates, amid any other traffic. */
module Delivery {
  import opened Wrappers
  import opened Octets
  import opened Framing
  import opened Reassembly
  import opened ReassemblyRuns
  import opened Splitter

  datatype Happening = Clock(now: real) | Arrival(sequence: nat, now: real)

  ghost predicate Fits(t: Transfer, ds: seq<Happening>) {
    forall d :: d in ds && d.Arrival? ==> d.sequence < |t.chunks|
  }

  function EventOf(t: Transfer, flags: Flags, d: Happening): Event
    requires t.Valid() && (d.Arrival? ==> d.sequence < |t.chunks|)
  {
    match d
    case Clock(now) => Tick(now)
    case Arrival(sequence, now) => Event.Fragment(flags, t.Fragment(sequence), now)
  }

  function Feed(t: Transfer, flags: Flags, ds: seq<Happening>): (es: seq<Event>)
    requires t.Valid() && Fits(t, ds)
    ensures |es| == |ds|
  {
    if ds == [] then []
    else Feed(t, flags, ds[..|ds| - 1]) + [EventOf(t, flags, ds[|ds| - 1])]
  }

  function Seen(ds: seq<Happening>): set<nat> {
    if ds == [] then {}
    else Seen(ds[..|ds| - 1]) + if ds[|ds| - 1].Arrival? then {ds[|ds| - 1].sequence} else {}
  }

  /** No clock tick comes 30 seconds or more after an arrival before it. */
  ghost predicate Quiet(ds: seq<Happening>) {
    forall i, j :: 0 <= j < i < |ds| && ds[j].Arrival? && ds[i].Clock? ==> ds[i].now - ds[j].now < REASSEMBLY_TIMEOUT
  }

  function FirstArrival(ds: seq<Happening>): (j: nat)
    requires Seen(ds) != {}
    ensures j < |ds| && ds[j].Arrival?
  {
    if Seen(ds[..|ds| - 1]) == {} then |ds| - 1 else FirstArrival(ds[..|ds| - 1])
  }

  function ChunksHeld(t: Transfer, seen: set<nat>): map<nat, Bytes> {
    map k | k in seen && k < |t.chunks| :: t.chunks[k]
  }

  /** What the receiver holds for the stream after part of its fragments. */
  function HeldBuf(t: Transfer, flags: Flags, ds: seq<Happening>): Option<Buf> {
    if Seen(ds) == {} then None
    else Some(BufOf(t, flags, Seen(ds), ds[FirstArrival(ds)].now))
  }

  function BufOf(t: Transfer, flags: Flags, seen: set<nat>, first: real): Buf {
    var held := ChunksHeld(t, seen);
    Buf(held, |t.chunks|, LogicalFlags(flags), first, SizeUpTo(held, |t.chunks|))
  }

  function One(sid: U32, buf: Option<Buf>): Sets {
    if buf.Some? then map[sid := buf.value] else map[]
  }

  lemma OneChunk(open: Option<Buf>, h: FragHeader, flags: Flags, chunk: Bytes, now: real)
    requires h.sequence < h.total
    ensures var next := AbsorbInto(open, h, flags, chunk, now);
            AbsorbChunk(One(h.streamId, open), h, flags, chunk, now) == Absorbed(One(h.streamId, next.0), next.1)
  {
    var sets := One(h.streamId, open);
    assert open.Some? ==> sets.Keys == {h.streamId};
    assert Lookup(sets, h.streamId) == open;
    var next := AbsorbInto(open, h, flags, chunk, now);
    assert Store(sets, h.streamId, next.0) == One(h.streamId, next.0);
  }

  lemma JoinNext(chunks: seq<Bytes>, m: nat)
    requires m < |chunks|
    ensures Join(chunks[..m + 1]) == Join(chunks[..m]) + chunks[m]
  {
    assert chunks[..m + 1] == chunks[..m] + [chunks[m]];
    assert Join([chunks[m]]) == chunks[m];
    JoinAppend(chunks[..m], [chunks[m]]);
  }

  lemma {:induction false} HeldFits(t: Transfer, seen: set<nat>, m: nat)
    requires m <= |t.chunks|
    ensures SizeUpTo(ChunksHeld(t, seen), m) <= |Join(t.chunks[..m])|
  {
    if m > 0 {
      HeldFits(t, seen, m - 1);
      JoinNext(t.chunks, m - 1);
    }
  }

  lemma {:induction false} AllHeld(t: Transfer, seen: set<nat>, m: nat)
    requires m <= |t.chunks| && forall k: nat :: k < m ==> k in seen
    ensures Reassemble(ChunksHeld(t, seen), m) == Some(Join(t.chunks[..m]))
  {
    if m > 0 {
      AllHeld(t, seen, m - 1);
      JoinNext(t.chunks, m - 1);
    }
  }

  lemma {:induction false} SeenBound(t: Transfer, ds: seq<Happening>)
    requires t.Valid() && Fits(t, ds)
    ensures forall k :: k in Seen(ds) ==> k < |t.chunks|
  {
    if ds != [] {
      SeenBound(t, ds[..|ds| - 1]);
    }
  }

  /** One more chunk for a set that holds the chunks of `seen`. */
  lemma ArrivalInto(t: Transfer, flags: Flags, seen: set<nat>, first: real, q: nat)
    requires t.Valid() && q < |t.chunks| && forall k :: k in seen ==> k < |t.chunks|
    ensures WriteInto(BufOf(t, flags, seen, first), q, t.chunks[q])
         == if |seen + {q}| < |t.chunks|
            then (Some(BufOf(t, flags, seen + {q}, first)), Ok(None))
            else (None, Ok(Some(Frame(LogicalFlags(flags), Join(t.chunks)))))
  {
    HeldAfter(t, seen, q);
    if |seen + {q}| == |t.chunks| {
      assert t.chunks[..|t.chunks|] == t.chunks;
      AllHeld(t, seen + {q}, |t.chunks|);
    }
  }

  lemma HeldAfter(t: Transfer, seen: set<nat>, q: nat)
    requires t.Valid() && q < |t.chunks| && forall k :: k in seen ==> k < |t.chunks|
    ensures var held, held' := ChunksHeld(t, seen), ChunksHeld(t, seen + {q});
            && held' == held[q := t.chunks[q]]
            && SizeUpTo(held', |t.chunks|)
               == SizeUpTo(held, |t.chunks|) - ChunkLength(held, q) + |t.chunks[q]| <= MAX_PAYLOAD
            && |held'| == |seen + {q}| <= |t.chunks|
            && (|held'| == |t.chunks| <==> forall k: nat :: k < |t.chunks| ==> k in seen + {q})
  {
    var held, held' := ChunksHeld(t, seen), ChunksHeld(t, seen + {q});
    assert held' == held[q := t.chunks[q]];
    SizeAfterWrite(held, q, t.chunks[q], |t.chunks|);
    assert t.chunks[..|t.chunks|] == t.chunks;
    HeldFits(t, seen + {q}, |t.chunks|);
    assert held'.Keys == seen + {q};
    Pigeonhole(seen + {q}, |t.chunks|);
  }

  /** Where the stream stands after one more arrival. */
  lemma HeldSnoc(t: Transfer, flags: Flags, ds: seq<Happening>, q: nat, now: real)
    ensures Seen(ds + [Arrival(q, now)]) == Seen(ds) + {q}
    ensures HeldBuf(t, flags, ds + [Arrival(q, now)])
         == Some(BufOf(t, flags, Seen(ds) + {q}, if Seen(ds) == {} then now else ds[FirstArrival(ds)].now))
  {
    var all := ds + [Arrival(q, now)];
    assert all[..|ds|] == ds && all[|ds|] == Arrival(q, now);
    assert Seen(ds) != {} ==> all[FirstArrival(ds)] == ds[FirstArrival(ds)];
  }

  lemma ArrivalAbsorbed(t: Transfer, flags: Flags, ds: seq<Happening>, q: nat, now: real)
    requires t.Valid() && Fits(t, ds) && q < |t.chunks|
    ensures AbsorbInto(HeldBuf(t, flags, ds), t.Header(q), flags, t.chunks[q], now)
         == if |Seen(ds) + {q}| < |t.chunks|
            then (HeldBuf(t, flags, ds + [Arrival(q, now)]), Ok(None))
            else (None, Ok(Some(Frame(LogicalFlags(flags), Join(t.chunks)))))
  {
    SeenBound(t, ds);
    HeldSnoc(t, flags, ds, q, now);
    if Seen(ds) == {} {
      SizeOfNothing(|t.chunks|);
      assert BufOf(t, flags, Seen(ds), now) == NewBuf(|t.chunks|, flags, now);
      ArrivalInto(t, flags, Seen(ds), now, q);
    } else {
      ArrivalInto(t, flags, Seen(ds), ds[FirstArrival(ds)].now, q);
    }
  }

  lemma ArrivalStep(t: Transfer, flags: Flags, ds: seq<Happening>, q: nat, now: real)
    requires t.Valid() && Fits(t, ds) && q < |t.chunks|
    ensures Step(One(t.streamId, HeldBuf(t, flags, ds)), EventOf(t, flags, Arrival(q, now)))
         == if |Seen(ds) + {q}| < |t.chunks|
            then Absorbed(One(t.streamId, HeldBuf(t, flags, ds + [Arrival(q, now)])), Ok(None))
            else Absorbed(map[], Ok(Some(Frame(LogicalFlags(flags), Join(t.chunks)))))
  {
    FragmentParses(t, q);
    ArrivalAbsorbed(t, flags, ds, q, now);
    OneChunk(HeldBuf(t, flags, ds), t.Header(q), flags, t.chunks[q], now);
  }

  lemma FeedSnoc(t: Transfer, flags: Flags, ds: seq<Happening>, d: Happening)
    requires t.Valid() && Fits(t, ds) && (d.Arrival? ==> d.sequence < |t.chunks|)
    ensures Fits(t, ds + [d])
    ensures Feed(t, flags, ds + [d]) == Feed(t, flags, ds) + [EventOf(t, flags, d)]
  {
    assert (ds + [d])[..|ds|] == ds;
  }

  lemma ClockStep(t: Transfer, flags: Flags, ds: seq<Happening>, now: real)
    requires Quiet(ds + [Clock(now)])
    ensures Step(One(t.streamId, HeldBuf(t, flags, ds)), Tick(now))
         == Absorbed(One(t.streamId, HeldBuf(t, flags, ds + [Clock(now)])), Ok(None))
  {
    var all := ds + [Clock(now)];
    assert all[..|ds|] == ds;
    if Seen(ds) != {} {
      var j := FirstArrival(ds);
      assert all[j] == ds[j] && all[|ds|] == Clock(now);
      assert Seen(all) == Seen(ds) && FirstArrival(all) == j;
      assert all[|ds|].now - all[j].now < REASSEMBLY_TIMEOUT;
    }
  }

  function Nones(n: nat): (s: seq<Outcome>)
    ensures |s| == n
  {
    if n == 0 then [] else Nones(n - 1) + [Ok(None)]
  }

  /** As long as a sequence number is missing, every fragment is swallowed and the set holds exactly what came. */
  lemma {:induction false} PartialDelivery(t: Transfer, flags: Flags, ds: seq<Happening>)
    requires t.Valid() && Fits(t, ds) && Quiet(ds)
    requires |Seen(ds)| < |t.chunks|
    ensures Run(map[], Feed(t, flags, ds)) == RunResult(One(t.streamId, HeldBuf(t, flags, ds)), Nones(|ds|))
  {
    if ds != [] {
      var init, d := ds[..|ds| - 1], ds[|ds| - 1];
      assert ds == init + [d];
      SubsetSize(Seen(init), Seen(ds));
      PartialDelivery(t, flags, init);
      RunSnoc(map[], Feed(t, flags, init), EventOf(t, flags, d));
      if d.Arrival? {
        ArrivalStep(t, flags, init, d.sequence, d.now);
      } else {
        ClockStep(t, flags, init, d.now);
      }
    }
  }

  /** Order and duplicate independence: whatever the order of the fragments and however often each was repeated
      before, the last missing one completes the set, and what comes out is the payload. */
  lemma {:induction false} CompleteDelivery(t: Transfer, flags: Flags, ds: seq<Happening>, q: nat, now: real)
    requires t.Valid() && Fits(t, ds) && Quiet(ds)
    requires q < |t.chunks| && q !in Seen(ds) && |Seen(ds)| == |t.chunks| - 1
    ensures Fits(t, ds + [Arrival(q, now)])
    ensures Run(map[], Feed(t, flags, ds + [Arrival(q, now)]))
         == RunResult(map[], Nones(|ds|) + [Ok(Some(Frame(flags.(fragmented := false, mac := false), Join(t.chunks))))])
  {
    FeedSnoc(t, flags, ds, Arrival(q, now));
    PartialDelivery(t, flags, ds);
    RunSnoc(map[], Feed(t, flags, ds), EventOf(t, flags, Arrival(q, now)));
    ArrivalStep(t, flags, ds, q, now);
  }

  lemma TickOnHeld(t: Transfer, flags: Flags, ds: seq<Happening>, tick: real)
    requires Seen(ds) != {}
    ensures Step(One(t.streamId, HeldBuf(t, flags, ds)), Tick(tick))
         == Absorbed(if tick - ds[FirstArrival(ds)].now < REASSEMBLY_TIMEOUT then One(t.streamId, HeldBuf(t, flags, ds))
                     else map[], Ok(None))
  {
  }

  /** Only a prune ends a transfer: when all fragments but one have come, and a prune and then the last one follow, the
      payload is delivered if and only if the set was younger than 30 seconds at the prune. How late the last fragment
      comes after that makes no difference. After a prune that was too late, the last fragment opens a new set. */
  lemma PruneDecides(t: Transfer, flags: Flags, ds: seq<Happening>, q: nat, tick: real, late: real)
    requires t.Valid() && Fits(t, ds) && Quiet(ds) && Seen(ds) != {}
    requires q < |t.chunks| && q !in Seen(ds) && |Seen(ds)| == |t.chunks| - 1
    ensures var r := Run(map[], Feed(t, flags, ds) + [Tick(tick)] + [EventOf(t, flags, Arrival(q, late))]);
            var delivered := Ok(Some(Frame(flags.(fragmented := false, mac := false), Join(t.chunks))));
            && (r.outcomes[|ds| + 1] == delivered <==> tick - ds[FirstArrival(ds)].now < REASSEMBLY_TIMEOUT)
            && (r.outcomes[|ds| + 1] == delivered ==> r.sets == map[])
            && (r.outcomes[|ds| + 1] != delivered ==>
                  r.outcomes[|ds| + 1] == Ok(None) && r.sets == One(t.streamId, HeldBuf(t, flags, [Arrival(q, late)])))
  {
    if tick - ds[FirstArrival(ds)].now < REASSEMBLY_TIMEOUT {
      PruneInTime(t, flags, ds, q, tick, late);
    } else {
      PruneTooLate(t, flags, ds, q, tick, late);
      hide Run, Feed, Quiet, HeldBuf, EventOf, Join, Fits, Seen, LogicalFlags, FirstArrival;
    }
  }

  lemma PruneInTime(t: Transfer, flags: Flags, ds: seq<Happening>, q: nat, tick: real, late: real)
    requires t.Valid() && Fits(t, ds) && Quiet(ds) && Seen(ds) != {}
    requires q < |t.chunks| && q !in Seen(ds) && |Seen(ds)| == |t.chunks| - 1
    requires tick - ds[FirstArrival(ds)].now < REASSEMBLY_TIMEOUT
    ensures var r := Run(map[], Feed(t, flags, ds) + [Tick(tick)] + [EventOf(t, flags, Arrival(q, late))]);
            && r.outcomes[|ds| + 1] == Ok(Some(Frame(LogicalFlags(flags), Join(t.chunks))))
            && r.sets == map[]
  {
    hide Run, Feed, Quiet, HeldBuf, Step, EventOf, Join, Fits, Seen, FirstArrival, LogicalFlags, Nones, One;
    PartialDelivery(t, flags, ds);
    TwoMore(Feed(t, flags, ds), Tick(tick), EventOf(t, flags, Arrival(q, late)));
    TickOnHeld(t, flags, ds, tick);
    ArrivalStep(t, flags, ds, q, late);
  }

  lemma PruneTooLate(t: Transfer, flags: Flags, ds: seq<Happening>, q: nat, tick: real, late: real)
    requires t.Valid() && Fits(t, ds) && Quiet(ds) && Seen(ds) != {}
    requires q < |t.chunks| && q !in Seen(ds) && |Seen(ds)| == |t.chunks| - 1
    requires tick - ds[FirstArrival(ds)].now >= REASSEMBLY_TIMEOUT
    ensures var r := Run(map[], Feed(t, flags, ds) + [Tick(tick)] + [EventOf(t, flags, Arrival(q, late))]);
            && r.outcomes[|ds| + 1] == Ok(None)
            && r.sets == One(t.streamId, HeldBuf(t, flags, [Arrival(q, late)]))
  {
    NothingYet(t, flags);
    hide Run, Feed, Quiet, HeldBuf, Step, EventOf, Join, Fits, Seen, FirstArrival, LogicalFlags, Nones;
    PartialDelivery(t, flags, ds);
    TwoMore(Feed(t, flags, ds), Tick(tick), EventOf(t, flags, Arrival(q, late)));
    TickOnHeld(t, flags, ds, tick);
    ArrivalStep(t, flags, [], q, late);
    assert [] + [Arrival(q, late)] == [Arrival(q, late)];
  }

  lemma NothingYet(t: Transfer, flags: Flags)
    ensures Fits(t, []) && Seen([]) == {} && One(t.streamId, HeldBuf(t, flags, [])) == map[]
  {
  }

  lemma TwoMore(es: seq<Event>, a: Event, b: Event)
    ensures var before := Run(map[], es);
            var first := Step(before.sets, a);
            var second := Step(first.sets, b);
            && Run(map[], es + [a] + [b]).sets == second.sets
            && Run(map[], es + [a] + [b]).outcomes[|es| + 1] == second.outcome
  {
    hide Step, Run;
    RunSnoc(map[], es, a);
    RunSnoc(map[], es + [a], b);
  }

  /** Two fragments half a minute or more apart, with the receive loop's prune before each, the second while it waits: the
      set is older than the limit when it completes. */
  lemma StaleSetCompletes(t: Transfer, flags: Flags, before: real, prune: real, late: real)
    requires t.Valid() && |t.chunks| == 2 && prune < REASSEMBLY_TIMEOUT <= late
    ensures var ds := [Clock(before), Arrival(0, 0.0), Clock(prune), Arrival(1, late)];
            && Fits(t, ds)
            && Run(map[], Feed(t, flags, ds)).outcomes
               == [Ok(None), Ok(None), Ok(None), Ok(Some(Frame(flags.(fragmented := false, mac := false), Join(t.chunks))))]
  {
    var first := [Clock(before), Arrival(0, 0.0), Clock(prune)];
    FirstThree(before, prune);
    hide Run, Feed, Seen, Join, Quiet;
    assert first + [Arrival(1, late)] == [Clock(before), Arrival(0, 0.0), Clock(prune), Arrival(1, late)];
    CompleteDelivery(t, flags, first, 1, late);
    ThreeNones();
    hide Nones;
  }

  lemma FirstThree(before: real, prune: real)
    requires prune < REASSEMBLY_TIMEOUT
    ensures var first := [Clock(before), Arrival(0, 0.0), Clock(prune)];
            Seen(first) == {0} && Quiet(first)
  {
    var first := [Clock(before), Arrival(0, 0.0), Clock(prune)];
    assert first[..2] == [Clock(before), Arrival(0, 0.0)];
    assert first[..2][..1] == [Clock(before)];
    assert Seen([Clock(before)]) == {};
    assert Seen([Clock(before), Arrival(0, 0.0)]) == {0};
  }

  lemma ThreeNones()
    ensures Nones(3) == [Ok(None), Ok(None), Ok(None)]
  {
    assert Nones(2) == [Ok(None), Ok(None)];
  }

  lemma OnlyNothing(sets: Sets, s: U32)
    ensures Only(sets, s) == map[] <==> s !in sets
  {
    assert s in sets ==> s in Only(sets, s);
  }

  /** The same amid arbitrary traffic: other streams may interleave anything, well-formed or not. Unless the
      64-stream cap refuses one of its fragments, the transfer delivers its payload at its last missing fragment,
      nothing before that, and leaves no set behind. */
  lemma {:induction false} InterleavedDelivery(sets: Sets, es: seq<Event>, t: Transfer, flags: Flags, ds: seq<Happening>, q: nat, now: real)
    requires t.Valid() && Fits(t, ds) && Quiet(ds)
    requires q < |t.chunks| && q !in Seen(ds) && |Seen(ds)| == |t.chunks| - 1
    requires t.streamId !in sets
    requires Fits(t, ds + [Arrival(q, now)]) && Project(es, t.streamId) == Feed(t, flags, ds + [Arrival(q, now)])
    requires Err(TooManyStreams) !in OutcomesOn(es, Run(sets, es).outcomes, t.streamId)
    ensures OutcomesOn(es, Run(sets, es).outcomes, t.streamId)
         == Nones(|ds|) + [Ok(Some(Frame(flags.(fragmented := false, mac := false), Join(t.chunks))))]
    ensures t.streamId !in Run(sets, es).sets
  {
    hide Run, OutcomesOn, Feed, Project, Quiet, Fits, Seen, Join;
    OnlyNothing(sets, t.streamId);
    OnlyNothing(Run(sets, es).sets, t.streamId);
    NonInterference(sets, es, t.streamId);
    CompleteDelivery(t, flags, ds, q, now);
  }

  /** In particular when at most 64 streams are open or named in the whole run. */
  lemma {:induction false} DeliveryWithinCap(sets: Sets, es: seq<Event>, t: Transfer, flags: Flags, ds: seq<Happening>,
                                            q: nat, now: real)
    requires t.Valid() && Fits(t, ds) && Quiet(ds)
    requires q < |t.chunks| && q !in Seen(ds) && |Seen(ds)| == |t.chunks| - 1
    requires t.streamId !in sets
    requires Fits(t, ds + [Arrival(q, now)]) && Project(es, t.streamId) == Feed(t, flags, ds + [Arrival(q, now)])
    requires |sets.Keys + Streams(es)| <= MAX_REASSEMBLY_STREAMS
    ensures OutcomesOn(es, Run(sets, es).outcomes, t.streamId)
         == Nones(|ds|) + [Ok(Some(Frame(flags.(fragmented := false, mac := false), Join(t.chunks))))]
    ensures t.streamId !in Run(sets, es).sets
  {
    hide Run, OutcomesOn, Feed, Project, Quiet, Fits, Seen, Join;
    CapUnreached(sets, es);
    OutcomesOnAmong(es, Run(sets, es).outcomes, t.streamId, Err(TooManyStreams));
    InterleavedDelivery(sets, es, t, flags, ds, q, now);
  }
}
