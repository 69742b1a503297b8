/** Fragment reassembly over whole runs: the invariant, a history-keeping reference machine that the code refines,
    and non-interference between streams. */
module ReassemblyRuns {
  import opened Wrappers
  import opened Octets
  import opened Framing
  import opened Reassembly

  datatype Event =
    | Tick(now: real)                                        // _prune_reassembly
    | Fragment(flags: Flags, payload: Bytes, now: real)      // _absorb_fragment

  function Step(sets: Sets, e: Event): Absorbed {
    match e
    case Tick(now) => Absorbed(Prune(sets, now), Ok(None))
    case Fragment(flags, payload, now) => Absorb(sets, flags, payload, now)
  }

  datatype RunResult = RunResult(sets: Sets, outcomes: seq<Outcome>)

  function Run(sets: Sets, es: seq<Event>): (r: RunResult)
    ensures |r.outcomes| == |es|
  {
    if es == [] then RunResult(sets, [])
    else
      var before := Run(sets, es[..|es| - 1]);
      var last := Step(before.sets, es[|es| - 1]);
      RunResult(last.sets, before.outcomes + [last.outcome])
  }

  lemma StepKeepsInv(sets: Sets, e: Event)
    requires Inv(sets)
    ensures Inv(Step(sets, e).sets) && Deliverable(Step(sets, e).outcome)
  {
    match e
    case Tick(now) => PruneKeepsInv(sets, now);
    case Fragment(flags, payload, now) => AbsorbKeepsInv(sets, flags, payload, now);
  }

  /** On every run from sane sets the bounds hold at the end, and every outcome on the way was deliverable. */
  lemma {:induction false} RunKeepsInv(sets: Sets, es: seq<Event>)
    requires Inv(sets)
    ensures Inv(Run(sets, es).sets)
    ensures forall o :: o in Run(sets, es).outcomes ==> Deliverable(o)
  {
    if es != [] {
      RunKeepsInv(sets, es[..|es| - 1]);
      StepKeepsInv(Run(sets, es[..|es| - 1]).sets, es[|es| - 1]);
    }
  }

  // ---------------------------------------------------------------------------
  // History refinement
  // ---------------------------------------------------------------------------

  datatype Chunk = Chunk(sequence: nat, data: Bytes)

  /** The reference keeps every chunk ever written to an open set, and no totals. */
  datatype Log = Log(total: nat, flags: Flags, openedAt: real, writes: seq<Chunk>)

  type Logs = map<U32, Log>

  /** Last write wins. */
  function LastWrite(writes: seq<Chunk>, sequence: nat): Option<Bytes> {
    if writes == [] then None
    else if writes[|writes| - 1].sequence == sequence then Some(writes[|writes| - 1].data)
    else LastWrite(writes[..|writes| - 1], sequence)
  }

  ghost predicate Covered(writes: seq<Chunk>, total: nat) {
    forall k: nat :: k < total ==> LastWrite(writes, k).Some?
  }

  function Latest(writes: seq<Chunk>, sequence: nat): Bytes {
    match LastWrite(writes, sequence)
    case Some(data) => data
    case None => []
  }

  /** The latest chunks of sequence numbers 0..n-1, in that order. */
  function Assemble(writes: seq<Chunk>, n: nat): Bytes {
    if n == 0 then [] else Assemble(writes, n - 1) + Latest(writes, n - 1)
  }

  ghost function LogWrite(log: Log, sequence: nat, chunk: Bytes): (Option<Log>, Outcome) {
    var writes := log.writes + [Chunk(sequence, chunk)];
    var payload := Assemble(writes, log.total);
    if |payload| > MAX_PAYLOAD then (None, Err(PayloadTooLarge(MAX_PAYLOAD + 1)))
    else if Covered(writes, log.total) then (None, Ok(Some(Frame(log.flags, payload))))
    else (Some(log.(writes := writes)), Ok(None))
  }

  ghost function LogInto(open: Option<Log>, h: FragHeader, flags: Flags, chunk: Bytes, now: real): (Option<Log>, Outcome) {
    match open
    case None => LogWrite(Log(h.total, flags.(fragmented := false, mac := false), now, []), h.sequence, chunk)
    case Some(log) =>
      if log.total != h.total then (None, Err(FragmentTotalMismatch)) else LogWrite(log, h.sequence, chunk)
  }

  ghost function RefChunk(logs: Logs, h: FragHeader, flags: Flags, chunk: Bytes, now: real): (Logs, Outcome) {
    if !(h.sequence < h.total) then (logs, Err(InvalidFragmentHeader(h.sequence, h.total)))
    else if h.streamId !in logs && |logs| >= MAX_REASSEMBLY_STREAMS then (logs, Err(TooManyStreams))
    else
      var open := if h.streamId in logs then Some(logs[h.streamId]) else None;
      var (log, outcome) := LogInto(open, h, flags, chunk, now);
      (if log.Some? then logs[h.streamId := log.value] else logs - {h.streamId}, outcome)
  }

  ghost function RefStep(logs: Logs, e: Event): (Logs, Outcome) {
    match e
    case Tick(now) => (map sid | sid in logs && now - logs[sid].openedAt < REASSEMBLY_TIMEOUT :: logs[sid], Ok(None))
    case Fragment(flags, payload, now) =>
      match ParseFragHeader(payload)
      case None => (logs, Err(FragmentHeaderTooShort))
      case Some(h) => RefChunk(logs, h, flags, payload[FRAG_HEADER_SIZE..], now)
  }

  ghost function RefRun(logs: Logs, es: seq<Event>): (Logs, seq<Outcome>) {
    if es == [] then (logs, [])
    else
      var (before, outcomes) := RefRun(logs, es[..|es| - 1]);
      var (after, outcome) := RefStep(before, es[|es| - 1]);
      (after, outcomes + [outcome])
  }

  /** The set holds, per sequence number, the last chunk logged, and counts what those chunks add up to. */
  ghost predicate Represents(b: Buf, log: Log) {
    && b.total == log.total && b.flags == log.flags && b.firstSeen == log.openedAt
    && (forall k: nat :: (k in b.fragments <==> LastWrite(log.writes, k).Some?))
    && (forall k: nat :: k in b.fragments ==> b.fragments[k] == Latest(log.writes, k) && k < b.total)
    && b.bufferedBytes == |Assemble(log.writes, log.total)|
  }

  ghost predicate Refines(sets: Sets, logs: Logs) {
    sets.Keys == logs.Keys && forall sid :: sid in sets ==> Represents(sets[sid], logs[sid])
  }

  lemma {:induction false} SameContents(fragments: map<nat, Bytes>, writes: seq<Chunk>, n: nat)
    requires forall k: nat :: k in fragments <==> LastWrite(writes, k).Some?
    requires forall k: nat :: k in fragments ==> fragments[k] == Latest(writes, k)
    ensures SizeUpTo(fragments, n) == |Assemble(writes, n)|
    ensures Reassemble(fragments, n).Some? ==> Reassemble(fragments, n).value == Assemble(writes, n)
  {
    if n > 0 {
      SameContents(fragments, writes, n - 1);
    }
  }

  /** The same answer from both machines, and again one state behind the two. */
  ghost predicate Agree(next: (Option<Buf>, Outcome), next': (Option<Log>, Outcome)) {
    && next.1 == next'.1
    && (next.0.Some? <==> next'.0.Some?)
    && (next.0.Some? ==> Represents(next.0.value, next'.0.value))
  }

  /** Counting keys and replaying the history agree on when a set is complete, and on what it then holds. */
  lemma CompleteIffCovered(fragments: map<nat, Bytes>, writes: seq<Chunk>, n: nat)
    requires forall k: nat :: k in fragments <==> LastWrite(writes, k).Some?
    requires forall k: nat :: k in fragments ==> fragments[k] == Latest(writes, k) && k < n
    ensures |fragments| == n <==> Covered(writes, n)
    ensures Covered(writes, n) ==> Reassemble(fragments, n) == Some(Assemble(writes, n))
  {
    hide LastWrite;
    SameContents(fragments, writes, n);
    Pigeonhole(fragments.Keys, n);
    if Covered(writes, n) {
      forall k: nat | k < n
        ensures k in fragments.Keys
      {
        assert LastWrite(writes, k).Some?;
      }
      ReassembleAll(fragments, n);
    } else {
      var k: nat :| k < n && !LastWrite(writes, k).Some?;
      assert k !in fragments.Keys;
    }
  }

  lemma WriteContents(b: Buf, log: Log, sequence: nat, chunk: Bytes)
    requires Represents(b, log) && sequence < b.total
    ensures var fragments := b.fragments[sequence := chunk];
            var writes := log.writes + [Chunk(sequence, chunk)];
            var newTotal := b.bufferedBytes - ChunkLength(b.fragments, sequence) + |chunk|;
            && Represents(b.(fragments := fragments, bufferedBytes := newTotal), log.(writes := writes))
            && (|fragments| == b.total <==> Covered(writes, b.total))
            && (Covered(writes, b.total) ==> Reassemble(fragments, b.total) == Some(Assemble(writes, b.total)))
  {
    var fragments := b.fragments[sequence := chunk];
    var writes := log.writes + [Chunk(sequence, chunk)];
    assert writes[..|writes| - 1] == log.writes;
    SameContents(b.fragments, log.writes, b.total);
    SameContents(fragments, writes, b.total);
    SizeAfterWrite(b.fragments, sequence, chunk, b.total);
    CompleteIffCovered(fragments, writes, b.total);
  }

  lemma WriteRefines(b: Buf, log: Log, sequence: nat, chunk: Bytes)
    requires Represents(b, log) && sequence < b.total
    ensures Agree(WriteInto(b, sequence, chunk), LogWrite(log, sequence, chunk))
  {
    WriteContents(b, log, sequence, chunk);
  }

  lemma {:induction false} EmptyLog(n: nat)
    ensures Assemble([], n) == []
  {
    if n > 0 {
      EmptyLog(n - 1);
    }
  }

  lemma AbsorbIntoRefines(open: Option<Buf>, log: Option<Log>, h: FragHeader, flags: Flags, chunk: Bytes, now: real)
    requires open.Some? <==> log.Some?
    requires open.Some? ==> Represents(open.value, log.value)
    requires h.sequence < h.total
    ensures Agree(AbsorbInto(open, h, flags, chunk, now), LogInto(log, h, flags, chunk, now))
  {
    EmptyLog(h.total);
    if open.None? {
      WriteRefines(NewBuf(h.total, flags, now), Log(h.total, LogicalFlags(flags), now, []), h.sequence, chunk);
    } else if open.value.total == h.total {
      WriteRefines(open.value, log.value, h.sequence, chunk);
    }
  }

  lemma StoreRefines(sets: Sets, logs: Logs, sid: U32, next: (Option<Buf>, Outcome), next': (Option<Log>, Outcome))
    requires Refines(sets, logs) && Agree(next, next')
    ensures Refines(Store(sets, sid, next.0), if next'.0.Some? then logs[sid := next'.0.value] else logs - {sid})
  {
  }

  lemma SameSize(sets: Sets, logs: Logs)
    requires Refines(sets, logs)
    ensures |sets| == |logs|
  {
    assert |sets.Keys| == |logs.Keys|;
  }

  lemma ChunkRefines(sets: Sets, logs: Logs, h: FragHeader, flags: Flags, chunk: Bytes, now: real)
    requires Refines(sets, logs)
    ensures AbsorbChunk(sets, h, flags, chunk, now).outcome == RefChunk(logs, h, flags, chunk, now).1
    ensures Refines(AbsorbChunk(sets, h, flags, chunk, now).sets, RefChunk(logs, h, flags, chunk, now).0)
  {
    SameSize(sets, logs);
    if h.sequence < h.total && (h.streamId in sets || |sets| < MAX_REASSEMBLY_STREAMS) {
      var open := Lookup(sets, h.streamId);
      var log := if h.streamId in logs then Some(logs[h.streamId]) else None;
      var next, next' := AbsorbInto(open, h, flags, chunk, now), LogInto(log, h, flags, chunk, now);
      AbsorbIntoRefines(open, log, h, flags, chunk, now);
      StoreRefines(sets, logs, h.streamId, next, next');
      assert AbsorbChunk(sets, h, flags, chunk, now) == Absorbed(Store(sets, h.streamId, next.0), next.1);
    }
  }

  lemma StepRefines(sets: Sets, logs: Logs, e: Event)
    requires Refines(sets, logs)
    ensures Step(sets, e).outcome == RefStep(logs, e).1
    ensures Refines(Step(sets, e).sets, RefStep(logs, e).0)
  {
    if e.Fragment? && ParseFragHeader(e.payload).Some? {
      ChunkRefines(sets, logs, ParseFragHeader(e.payload).value, e.flags, e.payload[FRAG_HEADER_SIZE..], e.now);
    }
  }

  /** History refinement: on every run, with consistent fragments or not, the incremental map with its byte counter
      and cardinality test answers exactly like the reference that replays the whole history of each open set. So
      every delivered payload is the in-order concatenation of the latest chunk for each sequence number. */
  lemma {:induction false} RunRefines(sets: Sets, logs: Logs, es: seq<Event>)
    requires Refines(sets, logs)
    ensures Run(sets, es).outcomes == RefRun(logs, es).1
    ensures Refines(Run(sets, es).sets, RefRun(logs, es).0)
  {
    if es != [] {
      var before := es[..|es| - 1];
      RunRefines(sets, logs, before);
      StepRefines(Run(sets, before).sets, RefRun(logs, before).0, es[|es| - 1]);
    }
  }

  // ---------------------------------------------------------------------------
  // Non-interference
  // ---------------------------------------------------------------------------

  function Only(sets: Sets, s: U32): Sets {
    if s in sets then map[s := sets[s]] else map[]
  }

  predicate Names(e: Event, s: U32) {
    e.Fragment? && ParseFragHeader(e.payload).Some? && ParseFragHeader(e.payload).value.streamId == s
  }

  /** The part of a run stream `s` can see: its own fragments and the clock ticks. */
  predicate Concerns(e: Event, s: U32) {
    e.Tick? || Names(e, s)
  }

  function Project(es: seq<Event>, s: U32): seq<Event> {
    if es == [] then []
    else Project(es[..|es| - 1], s) + if Concerns(es[|es| - 1], s) then [es[|es| - 1]] else []
  }

  /** What came back for those events. */
  function OutcomesOn(es: seq<Event>, outcomes: seq<Outcome>, s: U32): seq<Outcome>
    requires |es| == |outcomes|
  {
    if es == [] then []
    else OutcomesOn(es[..|es| - 1], outcomes[..|es| - 1], s)
         + if Concerns(es[|es| - 1], s) then [outcomes[|es| - 1]] else []
  }

  /** A fragment of another stream leaves the set of `s` alone, whatever error it raises. */
  lemma ChunkElsewhere(sets: Sets, h: FragHeader, flags: Flags, chunk: Bytes, now: real, s: U32)
    requires h.streamId != s
    ensures Only(AbsorbChunk(sets, h, flags, chunk, now).sets, s) == Only(sets, s)
  {
  }

  /** A fragment of `s` is treated as if its set were the only one, unless the cap refuses it. */
  lemma ChunkAlone(sets: Sets, h: FragHeader, flags: Flags, chunk: Bytes, now: real, s: U32)
    requires h.streamId == s
    ensures var a, solo := AbsorbChunk(sets, h, flags, chunk, now), AbsorbChunk(Only(sets, s), h, flags, chunk, now);
            && solo.outcome != Err(TooManyStreams)
            && (a.outcome != Err(TooManyStreams) ==> solo == Absorbed(Only(a.sets, s), a.outcome))
  {
    if h.sequence < h.total {
      var open := Lookup(sets, s);
      var next := AbsorbInto(open, h, flags, chunk, now);
      assert s in sets ==> Only(sets, s).Keys == {s};
      assert Lookup(Only(sets, s), s) == open;
      assert AbsorbChunk(Only(sets, s), h, flags, chunk, now) == Absorbed(Store(Only(sets, s), s, next.0), next.1);
      IntoNeverFull(open, h, flags, chunk, now);
      StoreLocal(sets, next.0, s);
    }
  }

  lemma StoreLocal(sets: Sets, buf: Option<Buf>, s: U32)
    ensures Only(Store(sets, s, buf), s) == Store(Only(sets, s), s, buf)
  {
  }

  lemma IntoNeverFull(open: Option<Buf>, h: FragHeader, flags: Flags, chunk: Bytes, now: real)
    ensures AbsorbInto(open, h, flags, chunk, now).1 != Err(TooManyStreams)
  {
  }

  lemma StepLocal(sets: Sets, e: Event, s: U32)
    ensures !Concerns(e, s) ==> Only(Step(sets, e).sets, s) == Only(sets, s)
    ensures Concerns(e, s) && Step(sets, e).outcome != Err(TooManyStreams)
            ==> Step(Only(sets, s), e) == Absorbed(Only(Step(sets, e).sets, s), Step(sets, e).outcome)
    ensures Concerns(e, s) ==> Step(Only(sets, s), e).outcome != Err(TooManyStreams)
  {
    if e.Fragment? && ParseFragHeader(e.payload).Some? {
      var h := ParseFragHeader(e.payload).value;
      if h.streamId == s {
        ChunkAlone(sets, h, e.flags, e.payload[FRAG_HEADER_SIZE..], e.now, s);
      } else {
        ChunkElsewhere(sets, h, e.flags, e.payload[FRAG_HEADER_SIZE..], e.now, s);
      }
    }
  }

  lemma RunSnoc(sets: Sets, es: seq<Event>, e: Event)
    ensures var before := Run(sets, es);
            var last := Step(before.sets, e);
            Run(sets, es + [e]) == RunResult(last.sets, before.outcomes + [last.outcome])
  {
    assert (es + [e])[..|es|] == es;
  }

  lemma OutcomesOnSnoc(es: seq<Event>, e: Event, outcomes: seq<Outcome>, o: Outcome, s: U32)
    requires |es| == |outcomes|
    ensures Project(es + [e], s) == Project(es, s) + if Concerns(e, s) then [e] else []
    ensures OutcomesOn(es + [e], outcomes + [o], s) == OutcomesOn(es, outcomes, s) + if Concerns(e, s) then [o] else []
  {
    assert (es + [e])[..|es|] == es && (outcomes + [o])[..|es|] == outcomes;
  }

  lemma {:induction false} SoloRun(sets: Sets, es: seq<Event>, s: U32)
    requires Err(TooManyStreams) !in OutcomesOn(es, Run(sets, es).outcomes, s)
    ensures Run(Only(sets, s), Project(es, s))
         == RunResult(Only(Run(sets, es).sets, s), OutcomesOn(es, Run(sets, es).outcomes, s))
  {
    if es != [] {
      var init, e := es[..|es| - 1], es[|es| - 1];
      var before := Run(sets, init);
      assert es == init + [e];
      RunSnoc(sets, init, e);
      OutcomesOnSnoc(init, e, before.outcomes, Step(before.sets, e).outcome, s);
      SoloRun(sets, init, s);
      StepLocal(before.sets, e, s);
      RunSnoc(Only(sets, s), Project(init, s), e);
      if !Concerns(e, s) {
        assert Project(es, s) == Project(init, s);
      }
    }
  }

  lemma {:induction false} SoloNeverFull(sets: Sets, es: seq<Event>, s: U32)
    requires sets == Only(sets, s)
    requires forall e :: e in es ==> Concerns(e, s)
    ensures Err(TooManyStreams) !in Run(sets, es).outcomes
    ensures Run(sets, es).sets == Only(Run(sets, es).sets, s)
  {
    if es != [] {
      var init, e := es[..|es| - 1], es[|es| - 1];
      SoloNeverFull(sets, init, s);
      StepLocal(Run(sets, init).sets, e, s);
    }
  }

  lemma {:induction false} ProjectConcerns(es: seq<Event>, s: U32)
    ensures forall e :: e in Project(es, s) ==> Concerns(e, s)
  {
    if es != [] {
      ProjectConcerns(es[..|es| - 1], s);
    }
  }

  /** Non-interference: whatever other streams send and whatever errors they provoke, stream `s` sees the outcomes of
      the run over its own fragments alone exactly when none of its fragments is refused by the 64-stream cap, and
      then its set at the end is the same too. */
  lemma {:induction false} NonInterference(sets: Sets, es: seq<Event>, s: U32)
    ensures var seen := OutcomesOn(es, Run(sets, es).outcomes, s);
            var solo := Run(Only(sets, s), Project(es, s));
            && (seen == solo.outcomes <==> Err(TooManyStreams) !in seen)
            && (seen == solo.outcomes ==> Only(Run(sets, es).sets, s) == solo.sets)
  {
    ProjectConcerns(es, s);
    SoloNeverFull(Only(sets, s), Project(es, s), s);
    if Err(TooManyStreams) !in OutcomesOn(es, Run(sets, es).outcomes, s) {
      SoloRun(sets, es, s);
    }
  }

  // ---------------------------------------------------------------------------
  // When the cap is never reached
  // ---------------------------------------------------------------------------

  /** The streams that the fragments of a run name. */
  function Streams(es: seq<Event>): set<U32> {
    if es == [] then {}
    else Streams(es[..|es| - 1]) + StreamOf(es[|es| - 1])
  }

  function StreamOf(e: Event): set<U32> {
    if e.Fragment? && ParseFragHeader(e.payload).Some? then {ParseFragHeader(e.payload).value.streamId} else {}
  }

  lemma ChunkOpensOwn(sets: Sets, h: FragHeader, flags: Flags, chunk: Bytes, now: real)
    ensures AbsorbChunk(sets, h, flags, chunk, now).sets.Keys <= sets.Keys + {h.streamId}
    ensures AbsorbChunk(sets, h, flags, chunk, now).outcome == Err(TooManyStreams) ==>
              |sets.Keys + {h.streamId}| > MAX_REASSEMBLY_STREAMS
  {
    hide AbsorbInto;
    IntoNeverFull(Lookup(sets, h.streamId), h, flags, chunk, now);
    assert h.streamId !in sets ==> |sets.Keys + {h.streamId}| == |sets| + 1;
  }

  lemma StepOpensOwn(sets: Sets, e: Event)
    ensures Step(sets, e).sets.Keys <= sets.Keys + StreamOf(e)
    ensures Step(sets, e).outcome == Err(TooManyStreams) ==> |sets.Keys + StreamOf(e)| > MAX_REASSEMBLY_STREAMS
  {
    hide AbsorbChunk;
    if e.Fragment? && ParseFragHeader(e.payload).Some? {
      ChunkOpensOwn(sets, ParseFragHeader(e.payload).value, e.flags, e.payload[FRAG_HEADER_SIZE..], e.now);
    }
  }

  lemma SmallerSet(a: set<U32>, b: set<U32>)
    requires a <= b
    ensures |a| <= |b|
  {
    assert b == a + (b - a);
  }

  /** A run whose open sets and named streams number at most 64 together never meets the cap, whatever its order. */
  lemma {:induction false} CapUnreached(sets: Sets, es: seq<Event>)
    requires |sets.Keys + Streams(es)| <= 64
    ensures Run(sets, es).sets.Keys <= sets.Keys + Streams(es)
    ensures Err(TooManyStreams) !in Run(sets, es).outcomes
  {
    if es != [] {
      var init, e := es[..|es| - 1], es[|es| - 1];
      SmallerSet(sets.Keys + Streams(init), sets.Keys + Streams(es));
      CapUnreached(sets, init);
      var before := Run(sets, init).sets;
      StepOpensOwn(before, e);
      SmallerSet(before.Keys + StreamOf(e), sets.Keys + Streams(es));
    }
  }

  lemma {:induction false} OutcomesOnAmong(es: seq<Event>, outcomes: seq<Outcome>, s: U32, o: Outcome)
    requires |es| == |outcomes| && o !in outcomes
    ensures o !in OutcomesOn(es, outcomes, s)
  {
    if es != [] {
      OutcomesOnAmong(es[..|es| - 1], outcomes[..|es| - 1], s, o);
    }
  }

  /** So every stream of such a run is as if it were alone. */
  lemma {:induction false} EveryStreamAlone(sets: Sets, es: seq<Event>, s: U32)
    requires |sets.Keys + Streams(es)| <= MAX_REASSEMBLY_STREAMS
    ensures Run(Only(sets, s), Project(es, s))
         == RunResult(Only(Run(sets, es).sets, s), OutcomesOn(es, Run(sets, es).outcomes, s))
  {
    CapUnreached(sets, es);
    OutcomesOnAmong(es, Run(sets, es).outcomes, s, Err(TooManyStreams));
    SoloRun(sets, es, s);
  }
}
