/** Fragment reassembly of vynkor/client.py, on values: what one fragment and one prune do to the open sets. */
module Reassembly {
  import opened Wrappers
  import opened Octets
  import opened Framing

  const MAX_REASSEMBLY_STREAMS := 64
  const REASSEMBLY_TIMEOUT := 30.0

  /** The fields of a `_ReassemblyBuf`. */
  datatype Buf = Buf(fragments: map<nat, Bytes>, total: nat, flags: Flags, firstSeen: real, bufferedBytes: int)

  /** `self._reassembly`, by stream id. */
  type Sets = map<U32, Buf>

  /** None: keep receiving. Some: a completed frame. Err: the exception raised. */
  type Outcome = Result<Option<Frame>, WireError>

  datatype Absorbed = Absorbed(sets: Sets, outcome: Outcome)

  function Prune(sets: Sets, now: real): Sets {
    map sid | sid in sets && now - sets[sid].firstSeen < REASSEMBLY_TIMEOUT :: sets[sid]
  }

  /** The flags a completed set is returned with: those of the fragment that opened it, less two bits. */
  function LogicalFlags(flags: Flags): Flags {
    flags.(fragmented := false, mac := false)
  }

  /** `reassemble`: fragments 0..total-1 in order; None is the KeyError of a missing one. */
  function Reassemble(fragments: map<nat, Bytes>, total: nat): Option<Bytes> {
    if total == 0 then Some([])
    else if total - 1 !in fragments || Reassemble(fragments, total - 1).None? then None
    else Some(Reassemble(fragments, total - 1).value + fragments[total - 1])
  }

  function ChunkLength(fragments: map<nat, Bytes>, sequence: nat): nat {
    if sequence in fragments then |fragments[sequence]| else 0
  }

  function Lookup(sets: Sets, sid: U32): Option<Buf> {
    if sid in sets then Some(sets[sid]) else None
  }

  function Store(sets: Sets, sid: U32, buf: Option<Buf>): Sets {
    if buf.Some? then sets[sid := buf.value] else sets - {sid}
  }

  /** Buffer one chunk: the byte count is kept incrementally, and the set is complete when it has `total` keys. */
  function WriteInto(buf: Buf, sequence: nat, chunk: Bytes): (Option<Buf>, Outcome) {
    var newTotal := buf.bufferedBytes - ChunkLength(buf.fragments, sequence) + |chunk|;
    var fragments := buf.fragments[sequence := chunk];
    if newTotal > MAX_PAYLOAD then (None, Err(PayloadTooLarge(MAX_PAYLOAD + 1)))
    else if |fragments| == buf.total then
      match Reassemble(fragments, buf.total)
      case Some(payload) => (None, Ok(Some(Frame(buf.flags, payload))))
      case None => (None, Err(MissingFragment))
    else (Some(buf.(fragments := fragments, bufferedBytes := newTotal)), Ok(None))
  }

  function NewBuf(total: nat, flags: Flags, now: real): Buf {
    Buf(map[], total, LogicalFlags(flags), now, 0)
  }

  /** What a well-formed fragment does to the set of its own stream. */
  function AbsorbInto(open: Option<Buf>, h: FragHeader, flags: Flags, chunk: Bytes, now: real): (Option<Buf>, Outcome) {
    match open
    case None => WriteInto(NewBuf(h.total, flags, now), h.sequence, chunk)
    case Some(buf) =>
      if buf.total != h.total then (None, Err(FragmentTotalMismatch)) else WriteInto(buf, h.sequence, chunk)
  }

  function AbsorbChunk(sets: Sets, h: FragHeader, flags: Flags, chunk: Bytes, now: real): Absorbed {
    if h.total == 0 || h.sequence >= h.total then
      Absorbed(sets, Err(InvalidFragmentHeader(h.sequence, h.total)))
    else if h.streamId !in sets && |sets| >= MAX_REASSEMBLY_STREAMS then
      Absorbed(sets, Err(TooManyStreams))
    else
      var (buf, outcome) := AbsorbInto(Lookup(sets, h.streamId), h, flags, chunk, now);
      Absorbed(Store(sets, h.streamId, buf), outcome)
  }

  /** `_absorb_fragment`; `now` is the clock a newly opened set reads. */
  function Absorb(sets: Sets, flags: Flags, payload: Bytes, now: real): Absorbed {
    match ParseFragHeader(payload)
    case None => Absorbed(sets, Err(FragmentHeaderTooShort))
    case Some(h) => AbsorbChunk(sets, h, flags, payload[FRAG_HEADER_SIZE..], now)
  }

  // ---------------------------------------------------------------------------
  // Counting
  // ---------------------------------------------------------------------------

  function Range(n: nat): (s: set<nat>)
    ensures |s| == n
    ensures forall k: nat :: k in s <==> k < n
  {
    if n == 0 then {} else Range(n - 1) + {n - 1}
  }

  lemma SubsetSize(a: set<nat>, b: set<nat>)
    requires a <= b
    ensures |a| <= |b| && (|a| == |b| ==> a == b)
  {
    assert b == a + (b - a);
  }

  /** Pigeonhole: a set of sequence numbers below `n` has `n` elements exactly when it has all of them. */
  lemma Pigeonhole(keys: set<nat>, n: nat)
    requires forall k :: k in keys ==> k < n
    ensures |keys| <= n
    ensures |keys| == n <==> forall k: nat :: k < n ==> k in keys
  {
    SubsetSize(keys, Range(n));
    if forall k: nat :: k < n ==> k in keys {
      assert keys == Range(n);
    }
  }

  /** Bytes held for the first `n` sequence numbers. */
  function SizeUpTo(fragments: map<nat, Bytes>, n: nat): nat {
    if n == 0 then 0 else SizeUpTo(fragments, n - 1) + ChunkLength(fragments, n - 1)
  }

  lemma {:induction false} SizeAfterWrite(fragments: map<nat, Bytes>, sequence: nat, chunk: Bytes, n: nat)
    ensures SizeUpTo(fragments[sequence := chunk], n)
         == SizeUpTo(fragments, n) + if sequence < n then |chunk| - ChunkLength(fragments, sequence) else 0
  {
    if n > 0 {
      SizeAfterWrite(fragments, sequence, chunk, n - 1);
    }
  }

  lemma {:induction false} SizeOfNothing(n: nat)
    ensures SizeUpTo(map[], n) == 0
  {
    if n > 0 {
      SizeOfNothing(n - 1);
    }
  }

  lemma {:induction false} ReassembleAll(fragments: map<nat, Bytes>, n: nat)
    requires forall k: nat :: k < n ==> k in fragments
    ensures Reassemble(fragments, n).Some? && |Reassemble(fragments, n).value| == SizeUpTo(fragments, n)
  {
    if n > 0 {
      ReassembleAll(fragments, n - 1);
    }
  }

  // ---------------------------------------------------------------------------
  // The invariant
  // ---------------------------------------------------------------------------

  /** A set that may still be empty. */
  ghost predicate OpenInv(b: Buf) {
    && |b.fragments| < b.total < 0x1_0000
    && (forall k :: k in b.fragments ==> k < b.total)
    && b.bufferedBytes == SizeUpTo(b.fragments, b.total) <= MAX_PAYLOAD
    && !b.flags.fragmented && !b.flags.mac
  }

  ghost predicate BufInv(b: Buf) {
    0 < |b.fragments| && OpenInv(b)
  }

  ghost predicate Inv(sets: Sets) {
    && |sets| <= MAX_REASSEMBLY_STREAMS
    && forall sid :: sid in sets ==> BufInv(sets[sid])
  }

  lemma PruneKeepsInv(sets: Sets, now: real)
    requires Inv(sets)
    ensures Inv(Prune(sets, now))
    ensures forall sid :: sid in Prune(sets, now) <==> sid in sets && now - sets[sid].firstSeen < 30.0
  {
    assert Prune(sets, now).Keys <= sets.Keys;
    assert sets.Keys == Prune(sets, now).Keys + (sets.Keys - Prune(sets, now).Keys);
  }

  ghost predicate Deliverable(outcome: Outcome) {
    && outcome != Err(MissingFragment)
    && (outcome.Ok? && outcome.value.Some? ==>
          var f := outcome.value.value;
          |f.payload| <= MAX_PAYLOAD && !f.flags.fragmented && !f.flags.mac)
  }

  lemma WriteIntoKeepsInv(b: Buf, sequence: nat, chunk: Bytes)
    requires OpenInv(b) && sequence < b.total
    ensures var (buf, outcome) := WriteInto(b, sequence, chunk);
            (buf.Some? ==> BufInv(buf.value) && outcome == Ok(None)) && Deliverable(outcome)
  {
    var fragments := b.fragments[sequence := chunk];
    SizeAfterWrite(b.fragments, sequence, chunk, b.total);
    assert fragments.Keys == b.fragments.Keys + {sequence};
    assert sequence in fragments;
    Pigeonhole(fragments.Keys, b.total);
    if |fragments| == b.total {
      ReassembleAll(fragments, b.total);
    }
  }

  lemma AbsorbIntoKeepsInv(open: Option<Buf>, h: FragHeader, flags: Flags, chunk: Bytes, now: real)
    requires open.Some? ==> BufInv(open.value)
    requires h.sequence < h.total
    ensures var (buf, outcome) := AbsorbInto(open, h, flags, chunk, now);
            (buf.Some? ==> BufInv(buf.value) && outcome == Ok(None)) && Deliverable(outcome)
  {
    var b := if open.Some? then open.value else NewBuf(h.total, flags, now);
    SizeOfNothing(h.total);
    if b.total == h.total {
      WriteIntoKeepsInv(b, h.sequence, chunk);
    }
  }

  lemma StoreKeepsInv(sets: Sets, sid: U32, buf: Option<Buf>)
    requires Inv(sets)
    requires buf.Some? ==> BufInv(buf.value) && (sid in sets || |sets| < MAX_REASSEMBLY_STREAMS)
    ensures Inv(Store(sets, sid, buf))
  {
    if buf.Some? {
      assert sets[sid := buf.value].Keys == sets.Keys + {sid};
    } else {
      assert (sets - {sid}).Keys == sets.Keys - {sid};
    }
  }

  lemma AbsorbChunkKeepsInv(sets: Sets, h: FragHeader, flags: Flags, chunk: Bytes, now: real)
    requires Inv(sets)
    ensures var a := AbsorbChunk(sets, h, flags, chunk, now);
            Inv(a.sets) && Deliverable(a.outcome)
  {
    if h.sequence < h.total && (h.streamId in sets || |sets| < MAX_REASSEMBLY_STREAMS) {
      var open := Lookup(sets, h.streamId);
      var next := AbsorbInto(open, h, flags, chunk, now);
      AbsorbIntoKeepsInv(open, h, flags, chunk, now);
      StoreKeepsInv(sets, h.streamId, next.0);
      assert AbsorbChunk(sets, h, flags, chunk, now) == Absorbed(Store(sets, h.streamId, next.0), next.1);
    }
  }

  /** After every return and after every exception of `_absorb_fragment` the sets are within their bounds, a set
      judged complete by its cardinality has every fragment, and no payload above the limit is delivered. */
  lemma AbsorbKeepsInv(sets: Sets, flags: Flags, payload: Bytes, now: real)
    requires Inv(sets)
    ensures var a := Absorb(sets, flags, payload, now);
            Inv(a.sets) && Deliverable(a.outcome)
  {
    var header := ParseFragHeader(payload);
    if header.Some? {
      AbsorbChunkKeepsInv(sets, header.value, flags, payload[FRAG_HEADER_SIZE..], now);
    }
  }

  ghost function TotalBuffered(sets: Sets): nat {
    if sets == map[] then 0
    else
      var sid :| sid in sets;
      SizeUpTo(sets[sid].fragments, sets[sid].total) + TotalBuffered(sets - {sid})
  }

  /** At most 64 MiB of fragment data is held at any time. */
  lemma {:induction false} MemoryBound(sets: Sets)
    requires Inv(sets)
    ensures TotalBuffered(sets) <= |sets| * 1_048_576 <= 64 * 1_048_576
  {
    if sets != map[] {
      var sid :| sid in sets && TotalBuffered(sets) == SizeUpTo(sets[sid].fragments, sets[sid].total) + TotalBuffered(sets - {sid});
      assert (sets - {sid}).Keys == sets.Keys - {sid};
      assert |sets - {sid}| == |sets| - 1;
      MemoryBound(sets - {sid});
    }
  }
}
