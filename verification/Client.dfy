/** The stateful part of vynkor/client.py: sending, fragmenting, and receiving with reassembly. */
module Client {
  import opened Wrappers
  import opened Octets
  import opened Framing
  import opened Readers
  import opened Reassembly
  import opened Splitter

  // ---------------------------------------------------------------------------
  // What a call does, as a function of its inputs
  // ---------------------------------------------------------------------------

  /** Fragment frame `k` of a transfer, as it is written. */
  function FragmentFrame(p: Primitives, key: Key, target: Bytes, t: Transfer, k: nat): Bytes
    requires t.Valid() && k < |t.chunks| && |t.Fragment(k)| <= MAX_PAYLOAD
  {
    PackFrame(p, target, t.Fragment(k), FRAGMENTED, key, true).value
  }

  ghost predicate Framable(t: Transfer) {
    t.Valid() && forall k: nat :: k < |t.chunks| ==> |t.Fragment(k)| <= MAX_PAYLOAD
  }

  /** The first `m` fragment frames. */
  ghost function FragmentFrames(p: Primitives, key: Key, target: Bytes, t: Transfer, m: nat): (s: seq<Bytes>)
    requires Framable(t) && m <= |t.chunks|
  {
    if m == 0 then [] else FragmentFrames(p, key, target, t, m - 1) + [FragmentFrame(p, key, target, t, m - 1)]
  }

  /** The checks `send_fragmented` makes before it writes anything. */
  function FragmentedError(isWs: bool, payload: Bytes, chunkSize: int): Option<WireError> {
    if isWs then Some(FragmentedOverWebSocket)
    else if |payload| > MAX_PAYLOAD then Some(PayloadTooLarge(|payload|))
    else if chunkSize <= 0 || chunkSize + FRAG_HEADER_SIZE > MAX_PAYLOAD then Some(InvalidChunkSize(chunkSize))
    else if FragmentCount(|payload|, chunkSize) > MAX_FRAGMENTS
    then Some(TooManyFragments(FragmentCount(|payload|, chunkSize)))
    else None
  }

  lemma ProductUpTo(a: nat, b: nat, k: nat)
    requires a <= b
    ensures a * k <= b * k
  {
  }

  /** Which calls pass those checks. */
  lemma NoErrorExactly(isWs: bool, payload: Bytes, chunkSize: int)
    ensures FragmentedError(isWs, payload, chunkSize).None?
       <==> && !isWs && |payload| <= 1_048_576 && 0 < chunkSize && chunkSize + 10 <= 1_048_576
            && |payload| <= 65_535 * chunkSize
  {
    if chunkSize > 0 {
      Ceiling(|payload|, chunkSize);
      var t := FragmentCount(|payload|, chunkSize);
      hide FragmentCount;
      if t <= 65_535 {
        ProductUpTo(t, 65_535, chunkSize);
      } else {
        ProductUpTo(65_535, t - 1, chunkSize);
      }
    }
  }

  /** The clock readings of one turn of the receive loop: at the prune, and when a set is opened. */
  datatype Reading = Reading(prune: real, open: real)

  /** What a turn makes of the frame it read, once the stale sets are gone: Ok(None) means go round again. */
  function Digest(pruned: Sets, frame: Result<Frame, WireError>, now: real): Absorbed {
    match frame
    case Err(e) => Absorbed(pruned, Err(e))
    case Ok(f) =>
      if f.flags.fragmented then Absorb(pruned, f.flags, f.payload, now) else Absorbed(pruned, Ok(Some(f)))
  }

  /** One turn of the receive loop; `rest` is the input it leaves. */
  datatype Turn<S> = Turned(outcome: Outcome, sets: Sets, rest: S)

  function RecvTurn(p: Primitives, key: Key, sets: Sets, s: Bytes, at: Reading): (t: Turn<Bytes>)
    ensures t.outcome == Ok(None) ==> |t.rest| < |s|
  {
    var r := Parse(p, key, s);
    var a := Digest(Prune(sets, at.prune), AsyncOutcome(r.outcome), at.open);
    Turned(a.outcome, a.sets, s[r.consumed..])
  }

  /** What `recv_frame` ends with: its result, the open sets, the unread input, and the next turn's number. */
  datatype Received<S> = Received(outcome: Result<Frame, WireError>, sets: Sets, rest: S, turn: nat)

  function Recv(p: Primitives, key: Key, sets: Sets, s: Bytes, clock: nat -> Reading, turn: nat): Received<Bytes>
    decreases |s|
  {
    var t := RecvTurn(p, key, sets, s, clock(turn));
    match t.outcome
    case Err(e) => Received(Err(e), t.sets, t.rest, turn + 1)
    case Ok(Some(f)) => Received(Ok(f), t.sets, t.rest, turn + 1)
    case Ok(None) => Recv(p, key, t.sets, t.rest, clock, turn + 1)
  }

  /** What the WebSocket delivers before it closes. */
  datatype Message = Text | Binary(data: Bytes)

  /** `_ws_recv_frame`: text messages are skipped, a binary one is one frame. */
  function NextFrame(p: Primitives, key: Key, inbox: seq<Message>): (r: (Result<Frame, WireError>, seq<Message>))
    ensures r.0.Ok? ==> |r.1| < |inbox|
  {
    if inbox == [] then (Err(ConnectionClosed), [])
    else if inbox[0].Text? then NextFrame(p, key, inbox[1..])
    else (Parse(p, key, inbox[0].data).outcome, inbox[1..])
  }

  function WsTurn(p: Primitives, key: Key, sets: Sets, inbox: seq<Message>, at: Reading): (t: Turn<seq<Message>>)
    ensures t.outcome == Ok(None) ==> |t.rest| < |inbox|
  {
    var (frame, rest) := NextFrame(p, key, inbox);
    var a := Digest(Prune(sets, at.prune), frame, at.open);
    Turned(a.outcome, a.sets, rest)
  }

  function WsRecv(p: Primitives, key: Key, sets: Sets, inbox: seq<Message>, clock: nat -> Reading, turn: nat)
    : Received<seq<Message>>
    decreases |inbox|
  {
    var t := WsTurn(p, key, sets, inbox, clock(turn));
    match t.outcome
    case Err(e) => Received(Err(e), t.sets, t.rest, turn + 1)
    case Ok(Some(f)) => Received(Ok(f), t.sets, t.rest, turn + 1)
    case Ok(None) => WsRecv(p, key, t.sets, t.rest, clock, turn + 1)
  }

  // ---------------------------------------------------------------------------
  // The objects
  // ---------------------------------------------------------------------------

  /** `_ReassemblyBuf` */
  class ReassemblyBuf {
    var fragments: map<nat, Bytes>
    const total: nat
    const flags: Flags
    const firstSeen: real
    var bufferedBytes: int

    constructor (total: nat, flags: Flags, now: real)
      ensures View() == Buf(map[], total, flags, now, 0)
    {
      fragments := map[];
      this.total := total;
      this.flags := flags;
      firstSeen := now;
      bufferedBytes := 0;
    }

    function View(): Buf
      reads this
    {
      Buf(fragments, total, flags, firstSeen, bufferedBytes)
    }

    predicate IsComplete()
      reads this
    {
      |fragments| == total
    }

    /** The second half of `_absorb_fragment`: buffer one chunk. `keep` is false when the caller must drop the set. */
    method Buffer(sequence: nat, chunk: Bytes) returns (r: Outcome, keep: bool)
      modifies this
      ensures var next := WriteInto(old(View()), sequence, chunk);
              r == next.1 && keep == next.0.Some? && (keep ==> View() == next.0.value)
    {
      var replaced := if sequence in fragments then fragments[sequence] else [];
      var newTotal := bufferedBytes - |replaced| + |chunk|;
      if newTotal > MAX_PAYLOAD {
        return Err(PayloadTooLarge(MAX_PAYLOAD + 1)), false;
      }
      bufferedBytes := newTotal;
      fragments := fragments[sequence := chunk];
      if IsComplete() {
        var joined := Join();
        r := if joined.Some? then Ok(Some(Frame(flags, joined.value))) else Err(MissingFragment);
        return r, false;
      }
      return Ok(None), true;
    }

    /** None is the KeyError of a missing sequence number. */
    method Join() returns (r: Option<Bytes>)
      ensures r == Reassemble(fragments, total)
    {
      var joined: Bytes := [];
      for sequence := 0 to total
        invariant Reassemble(fragments, sequence) == Some(joined)
      {
        if sequence !in fragments {
          MissingStaysMissing(fragments, sequence, total);
          return None;
        }
        joined := joined + fragments[sequence];
      }
      return Some(joined);
    }
  }

  lemma {:induction false} MissingStaysMissing(fragments: map<nat, Bytes>, k: nat, total: nat)
    requires k !in fragments && k < total
    ensures Reassemble(fragments, total) == None
  {
    if k < total - 1 {
      MissingStaysMissing(fragments, k, total - 1);
    }
  }

  lemma StoreOverwrites(sets: Sets, sid: U32, first: Buf)
    ensures forall buf :: Store(sets[sid := first], sid, buf) == Store(sets, sid, buf)
  {
  }

  class VynkorClient {
    const prims: Primitives
    const isWs: bool
    const reader: ByteStream
    var inbox: seq<Message>                      // what the WebSocket is still to deliver
    var sessionKey: Key
    var written: seq<Bytes>                      // frames handed to the transport, in order
    var reassembly: map<U32, ReassemblyBuf>
    var nextStreamId: U32

    ghost predicate Distinct()
      reads this`reassembly
    {
      forall a, b :: a in reassembly && b in reassembly && a != b ==> reassembly[a] != reassembly[b]
    }

    /** The open sets, by value. */
    ghost function OpenSets(): Sets
      reads this`reassembly, reassembly.Values
    {
      map sid | sid in reassembly :: reassembly[sid].View()
    }

    ghost predicate Valid()
      reads this, reader
    {
      reader.Valid() && nextStreamId != 0 && Distinct()
    }

    constructor (prims: Primitives, isWs: bool, reader: ByteStream, inbox: seq<Message>, sessionKey: Key)
      requires reader.Valid()
      ensures Valid() && reassembly == map[] && nextStreamId == 1 && written == []
      ensures this.prims == prims && this.isWs == isWs && this.reader == reader
      ensures this.inbox == inbox && this.sessionKey == sessionKey
    {
      this.prims, this.isWs, this.reader, this.inbox, this.sessionKey := prims, isWs, reader, inbox, sessionKey;
      written := [];
      reassembly := map[];
      nextStreamId := 1;
    }

    /** `send_raw_with_flags`: one frame, compressed only off the WebSocket; a refused frame writes nothing. */
    method SendRawWithFlags(target: Bytes, flags: Flags, payload: Bytes) returns (error: Option<WireError>)
      modifies this`written
      ensures match PackFrame(prims, target, payload, flags, sessionKey, !isWs) {
                case Ok(frame) => error == None && written == old(written) + [frame]
                case Err(e) => error == Some(e) && written == old(written)
              }
    {
      if isWs && |payload| > MAX_PAYLOAD {
        return Some(PayloadTooLarge(|payload|));
      }
      var packed := PackFrame(prims, target, payload, flags, sessionKey, !isWs);
      if packed.Err? {
        return Some(packed.error);
      }
      written := written + [packed.value];
      return None;
    }

    /** `send_fragmented`: a refused call writes nothing and burns no stream id; an accepted one writes every fragment
        of the payload, in order, on the current id, and moves to the next. */
    method SendFragmented(target: Bytes, payload: Bytes, chunkSize: int) returns (error: Option<WireError>)
      requires nextStreamId != 0
      modifies this`written, this`nextStreamId
      ensures nextStreamId != 0
      ensures error == FragmentedError(isWs, payload, chunkSize)
      ensures error.None? <==> && !isWs && |payload| <= 1_048_576 && 0 < chunkSize && chunkSize + 10 <= 1_048_576
                               && |payload| <= 65_535 * chunkSize
      ensures error.Some? ==> written == old(written) && nextStreamId == old(nextStreamId)
      ensures error.None? ==>
                var t := Cut(payload, chunkSize, old(nextStreamId));
                && Framable(t) && Octets.Join(t.chunks) == payload
                && written == old(written) + FragmentFrames(prims, sessionKey, target, t, |t.chunks|)
                && nextStreamId == NextStreamId(old(nextStreamId))
    {
      hide FragmentFrame, PackFragHeader, FragmentCount;
      NoErrorExactly(isWs, payload, chunkSize);
      if isWs {
        return Some(FragmentedOverWebSocket);
      }
      if |payload| > MAX_PAYLOAD {
        return Some(PayloadTooLarge(|payload|));
      }
      if chunkSize <= 0 || chunkSize + FRAG_HEADER_SIZE > MAX_PAYLOAD {
        return Some(InvalidChunkSize(chunkSize));
      }
      var total := FragmentCount(|payload|, chunkSize);
      if total > MAX_FRAGMENTS {
        return Some(TooManyFragments(total));
      }
      var streamId := nextStreamId;
      nextStreamId := NextStreamId(nextStreamId);
      var fragmentId := streamId % 0x1_0000;
      ghost var t := Cut(payload, chunkSize, streamId);
      CutIsValid(payload, chunkSize, streamId);
      for sequence := 0 to total
        invariant written == old(written) + FragmentFrames(prims, sessionKey, target, t, sequence)
        invariant sessionKey == old(sessionKey) && nextStreamId == NextStreamId(streamId)
      {
        var chunk := ChunkAt(payload, chunkSize, sequence);
        SendFragment(target, PackFragHeader(FragHeader(fragmentId, sequence, total, streamId)) + chunk, t, sequence);
      }
      return None;
    }

    /** One turn of the sending loop. */
    method SendFragment(target: Bytes, fragment: Bytes, ghost t: Transfer, ghost k: nat)
      requires !isWs && t.Valid() && k < |t.chunks| && fragment == t.Fragment(k) && |fragment| <= MAX_PAYLOAD
      modifies this`written
      ensures written == old(written) + [FragmentFrame(prims, sessionKey, target, t, k)]
    {
      var e := SendRawWithFlags(target, FRAGMENTED, fragment);
    }

    /** `_prune_reassembly` */
    method PruneReassembly(now: real)
      requires Valid()
      modifies this`reassembly
      ensures Valid()
      ensures OpenSets() == Prune(old(OpenSets()), now)
      ensures reassembly.Values <= old(reassembly.Values)
    {
      var stale := set sid | sid in reassembly && now - reassembly[sid].firstSeen >= REASSEMBLY_TIMEOUT;
      var remaining := stale;
      while remaining != {}
        invariant remaining <= stale && remaining <= reassembly.Keys
        invariant reassembly == old(reassembly) - (stale - remaining)
      {
        var sid :| sid in remaining;
        reassembly := reassembly - {sid};
        remaining := remaining - {sid};
      }
      assert OpenSets() == Prune(old(OpenSets()), now);
    }

    /** `self._reassembly[sid] = buf` */
    method Register(sid: U32, buf: ReassemblyBuf)
      requires Valid() && buf !in reassembly.Values
      modifies this`reassembly
      ensures Valid() && reassembly == old(reassembly)[sid := buf]
      ensures OpenSets() == old(OpenSets())[sid := buf.View()]
    {
      reassembly := reassembly[sid := buf];
    }

    /** `del self._reassembly[sid]` */
    method Drop(sid: U32)
      requires Valid()
      modifies this`reassembly
      ensures Valid() && reassembly == old(reassembly) - {sid}
      ensures OpenSets() == old(OpenSets()) - {sid}
    {
      reassembly := reassembly - {sid};
    }

    /** Buffering in one set changes no other; a set that is not kept is dropped. */
    method BufferIn(sid: U32, sequence: nat, chunk: Bytes) returns (r: Outcome)
      requires Valid() && sid in reassembly
      modifies this`reassembly, reassembly[sid]
      ensures Valid() && reassembly.Values <= old(reassembly.Values)
      ensures var next := WriteInto(old(OpenSets())[sid], sequence, chunk);
              r == next.1 && OpenSets() == Store(old(OpenSets()), sid, next.0)
    {
      hide WriteInto;
      ghost var sets := OpenSets();
      var keep;
      r, keep := reassembly[sid].Buffer(sequence, chunk);
      if keep {
        assert OpenSets() == sets[sid := reassembly[sid].View()];
      } else {
        assert OpenSets() - {sid} == sets - {sid};
        Drop(sid);
      }
    }

    /** The set a well-formed fragment belongs to, opened if need be. */
    method FindOrOpen(h: FragHeader, flags: Flags, now: real) returns (error: Option<WireError>)
      requires Valid()
      modifies this`reassembly
      ensures Valid()
      ensures fresh(reassembly.Values - old(reassembly.Values))
      ensures error.None? ==> h.streamId in reassembly
      ensures var sets, sid := old(OpenSets()), h.streamId;
              if sid in sets then
                if sets[sid].total != h.total then error == Some(FragmentTotalMismatch) && OpenSets() == sets - {sid}
                else error == None && OpenSets() == sets
              else if |sets| >= MAX_REASSEMBLY_STREAMS then error == Some(TooManyStreams) && OpenSets() == sets
              else error == None && OpenSets() == sets[sid := NewBuf(h.total, flags, now)]
    {
      assert OpenSets().Keys == reassembly.Keys;
      if h.streamId in reassembly {
        if reassembly[h.streamId].total != h.total {
          Drop(h.streamId);
          return Some(FragmentTotalMismatch);
        }
        return None;
      }
      if |reassembly| >= MAX_REASSEMBLY_STREAMS {
        return Some(TooManyStreams);
      }
      var buf := new ReassemblyBuf(h.total, LogicalFlags(flags), now);
      Register(h.streamId, buf);
      return None;
    }

    /** `_absorb_fragment`; `now` is what the clock reads if a set is opened. */
    method AbsorbFragment(flags: Flags, payload: Bytes, now: real) returns (r: Outcome)
      requires Valid()
      modifies this`reassembly, reassembly.Values
      ensures Valid()
      ensures Absorbed(OpenSets(), r) == Absorb(old(OpenSets()), flags, payload, now)
      ensures fresh(reassembly.Values - old(reassembly.Values))
    {
      var header := ParseFragHeader(payload);
      if header.None? {
        return Err(FragmentHeaderTooShort);
      }
      var h := header.value;
      r := AbsorbParsed(h, flags, payload[FRAG_HEADER_SIZE..], now);
    }

    method AbsorbParsed(h: FragHeader, flags: Flags, chunk: Bytes, now: real) returns (r: Outcome)
      requires Valid()
      modifies this`reassembly, reassembly.Values
      ensures Valid()
      ensures Absorbed(OpenSets(), r) == AbsorbChunk(old(OpenSets()), h, flags, chunk, now)
      ensures fresh(reassembly.Values - old(reassembly.Values))
    {
      hide WriteInto;
      if h.total == 0 || h.sequence >= h.total {
        return Err(InvalidFragmentHeader(h.sequence, h.total));
      }
      var error := FindOrOpen(h, flags, now);
      if error.Some? {
        return Err(error.value);
      }
      assert reassembly[h.streamId] in reassembly.Values;
      r := BufferIn(h.streamId, h.sequence, chunk);
      StoreOverwrites(old(OpenSets()), h.streamId, NewBuf(h.total, flags, now));
    }

    /** `_ws_recv_frame` */
    method WsRecvFrame() returns (r: Result<Frame, WireError>)
      modifies this`inbox
      ensures (r, inbox) == NextFrame(prims, sessionKey, old(inbox))
    {
      while inbox != []
        invariant NextFrame(prims, sessionKey, inbox) == NextFrame(prims, sessionKey, old(inbox))
        decreases |inbox|
      {
        var message := inbox[0];
        inbox := inbox[1..];
        if message.Binary? {
          r := ReadFrameFromBytes(prims, message.data, sessionKey);
          return;
        }
      }
      return Err(ConnectionClosed);
    }

    /** The body of the receive loop. */
    method ReceiveTurn(at: Reading) returns (r: Outcome)
      requires Valid()
      modifies this`reassembly, this`inbox, reassembly.Values, reader
      ensures Valid()
      ensures fresh(reassembly.Values - old(reassembly.Values))
      ensures if isWs then
                && reader.Remaining() == old(reader.Remaining())
                && Turned(r, OpenSets(), inbox) == WsTurn(prims, sessionKey, old(OpenSets()), old(inbox), at)
              else
                && inbox == old(inbox)
                && Turned(r, OpenSets(), reader.Remaining())
                   == RecvTurn(prims, sessionKey, old(OpenSets()), old(reader.Remaining()), at)
    {
      hide Parse, NextFrame, Digest, Prune, AsyncOutcome;
      PruneReassembly(at.prune);
      ghost var pruned := OpenSets();
      var frame := ReadNext();
      assert OpenSets() == pruned;
      r := TakeFrame(frame, at.open);
    }

    /** One frame off the transport. */
    method ReadNext() returns (frame: Result<Frame, WireError>)
      requires Valid()
      modifies this`inbox, reader
      ensures Valid()
      ensures if isWs then
                && reader.Remaining() == old(reader.Remaining())
                && (frame, inbox) == NextFrame(prims, sessionKey, old(inbox))
              else
                && inbox == old(inbox)
                && var parsed := Parse(prims, sessionKey, old(reader.Remaining()));
                   frame == AsyncOutcome(parsed.outcome)
                   && reader.Remaining() == old(reader.Remaining())[parsed.consumed..]
    {
      hide Parse, NextFrame, AsyncOutcome;
      if isWs {
        frame := WsRecvFrame();
      } else {
        frame := AsyncReadFrame(prims, reader, sessionKey);
      }
    }

    /** A frame that was read is returned, or absorbed; an error is raised. */
    method TakeFrame(frame: Result<Frame, WireError>, now: real) returns (r: Outcome)
      requires Valid()
      modifies this`reassembly, reassembly.Values
      ensures Valid()
      ensures Absorbed(OpenSets(), r) == Digest(old(OpenSets()), frame, now)
      ensures fresh(reassembly.Values - old(reassembly.Values))
    {
      hide Absorb;
      if frame.Err? {
        return Err(frame.error);
      }
      var Frame(flags, payload) := frame.value;
      if !flags.fragmented {
        return Ok(Some(frame.value));
      }
      r := AbsorbFragment(flags, payload, now);
    }

    /** `recv_frame` over either transport. `clock(i)` is what turn i of the loop reads. */
    method RecvFrame(clock: nat -> Reading, turn: nat) returns (r: Result<Frame, WireError>, next: nat)
      requires Valid()
      modifies this`reassembly, this`inbox, reassembly.Values, reader
      ensures Valid()
      ensures fresh(reassembly.Values - old(reassembly.Values))
      ensures isWs ==> reader.Remaining() == old(reader.Remaining())
                       && Received(r, OpenSets(), inbox, next)
                          == WsRecv(prims, sessionKey, old(OpenSets()), old(inbox), clock, turn)
      ensures !isWs ==> inbox == old(inbox)
                        && Received(r, OpenSets(), reader.Remaining(), next)
                           == Recv(prims, sessionKey, old(OpenSets()), old(reader.Remaining()), clock, turn)
    {
      hide RecvTurn, WsTurn;
      var i := turn;
      while true
        invariant Valid() && sessionKey == old(sessionKey)
        invariant fresh(reassembly.Values - old(reassembly.Values))
        invariant isWs ==> reader.Remaining() == old(reader.Remaining())
                           && WsRecv(prims, sessionKey, OpenSets(), inbox, clock, i)
                              == WsRecv(prims, sessionKey, old(OpenSets()), old(inbox), clock, turn)
        invariant !isWs ==> inbox == old(inbox)
                            && Recv(prims, sessionKey, OpenSets(), reader.Remaining(), clock, i)
                               == Recv(prims, sessionKey, old(OpenSets()), old(reader.Remaining()), clock, turn)
        decreases if isWs then |inbox| else |reader.Remaining()|
      {
        var complete := ReceiveTurn(clock(i));
        if complete.Err? {
          return Err(complete.error), i + 1;
        }
        if complete.value.Some? {
          return Ok(complete.value.value), i + 1;
        }
        i := i + 1;
      }
    }
  }
}
