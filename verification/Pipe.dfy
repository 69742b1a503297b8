/** End to end: what one client sends over a byte stream is what the other receives. */
module Pipe {
  import opened Wrappers
  import opened Octets
  import opened Framing
  import opened FramingLaws
  import opened Reassembly
  import opened Splitter
  import opened Delivery
  import opened Client

  /** A call on the sending client. */
  datatype Send =
    | Raw(target: Bytes, flags: Flags, payload: Bytes)
    | Fragmented(target: Bytes, payload: Bytes, chunkSize: int)

  predicate Accepted(key: Key, send: Send) {
    match send
    case Raw(_, flags, payload) => |payload| <= MAX_PAYLOAD && Fits16(WithMac(flags, key))
    case Fragmented(_, payload, chunkSize) => FragmentedError(false, payload, chunkSize).None?
  }

  /** The frames the call writes when the next stream id is `id`. */
  ghost function Writes(p: Primitives, key: Key, id: U32, send: Send): seq<Bytes> {
    if !Accepted(key, send) then []
    else
      match send
      case Raw(target, flags, payload) => [PackFrame(p, target, payload, flags, key, true).value]
      case Fragmented(target, payload, chunkSize) =>
        CutIsValid(payload, chunkSize, id);
        var t := Cut(payload, chunkSize, id);
        FragmentFrames(p, key, target, t, |t.chunks|)
  }

  function IdAfter(key: Key, id: U32, send: Send): U32 {
    if send.Fragmented? && Accepted(key, send) then NextStreamId(id) else id
  }

  /** The frame the call means. */
  function Logical(key: Key, send: Send): Frame {
    match send
    case Raw(_, flags, payload) => Frame(WithMac(flags, key), payload)
    case Fragmented(_, payload, _) => Frame(NO_FLAGS, payload)
  }

  /** The flags the transport itself sets are not the caller's to set. */
  predicate Legal(key: Key, send: Send) {
    send.Raw? ==> !send.flags.compressed && !send.flags.fragmented && (send.flags.mac ==> key.Some?)
  }

  ghost function Wire(p: Primitives, key: Key, id: U32, sends: seq<Send>): Bytes
    decreases |sends|
  {
    if sends == [] then []
    else Join(Writes(p, key, id, sends[0])) + Wire(p, key, IdAfter(key, id, sends[0]), sends[1..])
  }

  function Deliveries(key: Key, sends: seq<Send>): seq<Frame>
    decreases |sends|
  {
    if sends == [] then []
    else (if Accepted(key, sends[0]) then [Logical(key, sends[0])] else []) + Deliveries(key, sends[1..])
  }

  /** `n` calls of `recv_frame`, one after the other. */
  datatype Inbox<S> = Inbox(frames: seq<Result<Frame, WireError>>, sets: Sets, rest: S)

  function RecvMany(p: Primitives, key: Key, sets: Sets, s: Bytes, clock: nat -> Reading, turn: nat, n: nat): Inbox<Bytes>
    decreases n
  {
    if n == 0 then Inbox([], sets, s)
    else
      var r := Recv(p, key, sets, s, clock, turn);
      var others := RecvMany(p, key, r.sets, r.rest, clock, r.turn, n - 1);
      Inbox([r.outcome] + others.frames, others.sets, others.rest)
  }

  /** None of the prunes while a call's `n` frames are received, the first in turn `turn`, finds the set its first
      fragment opened 30 seconds old. A call of one frame has no such prune. */
  ghost predicate InTime(clock: nat -> Reading, turn: nat, n: nat) {
    forall j: nat :: turn < j < turn + n ==> clock(j).prune - clock(turn).open < REASSEMBLY_TIMEOUT
  }

  /** How many frames, and so turns of the receive loop, a call takes. */
  function Turns(key: Key, send: Send): nat {
    if !Accepted(key, send) then 0
    else if send.Raw? then 1
    else FragmentCount(|send.payload|, send.chunkSize)
  }

  /** Every call is received in time, one after the other from `turn` on. */
  ghost predicate Timely(key: Key, sends: seq<Send>, clock: nat -> Reading, turn: nat)
    decreases |sends|
  {
    sends != [] ==>
      InTime(clock, turn, Turns(key, sends[0])) && Timely(key, sends[1..], clock, turn + Turns(key, sends[0]))
  }

  // ---------------------------------------------------------------------------
  // One fragmented transfer
  // ---------------------------------------------------------------------------

  ghost function TailBytes(p: Primitives, key: Key, target: Bytes, t: Transfer, k: nat): Bytes
    requires Framable(t) && k <= |t.chunks|
    decreases |t.chunks| - k
  {
    if k == |t.chunks| then [] else FragmentFrame(p, key, target, t, k) + TailBytes(p, key, target, t, k + 1)
  }

  lemma {:induction false} FramesAreTail(p: Primitives, key: Key, target: Bytes, t: Transfer, m: nat)
    requires Framable(t) && m <= |t.chunks|
    ensures Join(FragmentFrames(p, key, target, t, m)) + TailBytes(p, key, target, t, m)
         == TailBytes(p, key, target, t, 0)
  {
    hide FragmentFrame;
    if m > 0 {
      FramesAreTail(p, key, target, t, m - 1);
      var frame := FragmentFrame(p, key, target, t, m - 1);
      assert Join([frame]) == frame;
      JoinAppend(FragmentFrames(p, key, target, t, m - 1), [frame]);
    }
  }

  lemma PieceInto(t: Transfer, flags: Flags, k: nat, open: Option<Buf>, now: real)
    requires t.Valid() && k < |t.chunks|
    requires if k == 0 then open == None else open.Some? && open.value == BufOf(t, flags, Range(k), open.value.firstSeen)
    ensures AbsorbInto(open, t.Header(k), flags, t.chunks[k], now)
         == if k + 1 < |t.chunks|
            then (Some(BufOf(t, flags, Range(k + 1), if k == 0 then now else open.value.firstSeen)), Ok(None))
            else (None, Ok(Some(Frame(LogicalFlags(flags), Join(t.chunks)))))
  {
    hide WriteInto;
    ArrivalInto(t, flags, Range(k), if k == 0 then now else open.value.firstSeen, k);
    assert Range(k) + {k} == Range(k + 1);
    if k == 0 {
      SizeOfNothing(|t.chunks|);
      assert BufOf(t, flags, Range(0), now) == NewBuf(|t.chunks|, flags, now);
    }
  }

  lemma PieceAbsorbed(sets: Sets, t: Transfer, flags: Flags, k: nat, now: real)
    requires t.Valid() && k < |t.chunks|
    requires if k == 0 then t.streamId !in sets && |sets| < MAX_REASSEMBLY_STREAMS
             else t.streamId in sets
                  && sets[t.streamId] == BufOf(t, flags, Range(k), sets[t.streamId].firstSeen)
    ensures Absorb(sets, flags, t.Fragment(k), now)
         == if k + 1 < |t.chunks|
            then Absorbed(sets[t.streamId := BufOf(t, flags, Range(k + 1),
                                                   if k == 0 then now else sets[t.streamId].firstSeen)], Ok(None))
            else Absorbed(sets - {t.streamId}, Ok(Some(Frame(LogicalFlags(flags), Join(t.chunks)))))
  {
    FragmentParses(t, k);
    var open := Lookup(sets, t.streamId);
    PieceInto(t, flags, k, open, now);
    hide AbsorbInto, BufOf, ParseFragHeader;
    var next := AbsorbInto(open, t.Header(k), flags, t.chunks[k], now);
    assert AbsorbChunk(sets, t.Header(k), flags, t.chunks[k], now)
        == Absorbed(Store(sets, t.streamId, next.0), next.1);
  }

  /** The receiver's set after the first `k` fragments. */
  function FirstHeld(t: Transfer, flags: Flags, k: nat, first: real): Sets {
    One(t.streamId, if k == 0 then None else Some(BufOf(t, flags, Range(k), first)))
  }

  lemma NextFragmentAbsorbed(t: Transfer, flags: Flags, k: nat, first: real, now: real)
    requires t.Valid() && k < |t.chunks|
    ensures Absorb(FirstHeld(t, flags, k, first), flags, t.Fragment(k), now)
         == if k + 1 < |t.chunks|
            then Absorbed(FirstHeld(t, flags, k + 1, if k == 0 then now else first), Ok(None))
            else Absorbed(map[], Ok(Some(Frame(LogicalFlags(flags), Join(t.chunks)))))
  {
    var sets := FirstHeld(t, flags, k, first);
    HeldIs(t, flags, k, first);
    hide Absorb, BufOf, Range, FirstHeld, Join, LogicalFlags, One;
    PieceAbsorbed(sets, t, flags, k, now);
    OneStored(sets, t.streamId, BufOf(t, flags, Range(k + 1), if k == 0 then now else first));
    LaterHeld(t, flags, k + 1, if k == 0 then now else first);
  }

  lemma HeldIs(t: Transfer, flags: Flags, k: nat, first: real)
    ensures var sets := FirstHeld(t, flags, k, first);
            && sets.Keys <= {t.streamId} && |sets| <= 1
            && if k == 0 then t.streamId !in sets
               else t.streamId in sets && sets[t.streamId] == BufOf(t, flags, Range(k), first)
                    && sets[t.streamId].firstSeen == first
  {
    hide Range, SizeUpTo, ChunksHeld;
    var sets := FirstHeld(t, flags, k, first);
    assert k > 0 ==> sets.Keys == {t.streamId};
    assert |sets.Keys| == |sets|;
  }

  lemma LaterHeld(t: Transfer, flags: Flags, k: nat, first: real)
    requires k > 0
    ensures FirstHeld(t, flags, k, first) == map[t.streamId := BufOf(t, flags, Range(k), first)]
  {
    hide Range, BufOf;
  }

  lemma OneStored(sets: Sets, sid: U32, b: Buf)
    requires sets.Keys <= {sid}
    ensures sets[sid := b] == map[sid := b] && sets - {sid} == map[]
  {
  }

  lemma FragmentFrameParses(p: Primitives, key: Key, target: Bytes, t: Transfer, k: nat, rest: Bytes)
    requires p.Lossless() && Framable(t) && k < |t.chunks|
    ensures var frame := FragmentFrame(p, key, target, t, k);
            Parse(p, key, frame + rest) == Parsed(Ok(Frame(WithMac(FRAGMENTED, key), t.Fragment(k))), |frame|)
  {
    hide Parse;
    SelfDelimiting(p, target, t.Fragment(k), FRAGMENTED, key, true, key, rest);
  }

  lemma FragmentTurn(p: Primitives, key: Key, target: Bytes, t: Transfer, k: nat, first: real, rest: Bytes, at: Reading)
    requires p.Lossless() && Framable(t) && k < |t.chunks|
    requires k > 0 ==> at.prune - first < REASSEMBLY_TIMEOUT
    ensures var flags := WithMac(FRAGMENTED, key);
            RecvTurn(p, key, FirstHeld(t, flags, k, first), TailBytes(p, key, target, t, k) + rest, at)
            == if k + 1 < |t.chunks|
               then Turned(Ok(None), FirstHeld(t, flags, k + 1, if k == 0 then at.open else first),
                           TailBytes(p, key, target, t, k + 1) + rest)
               else Turned(Ok(Some(Frame(NO_FLAGS, Join(t.chunks)))), map[], rest)
  {
    hide FragmentFrame, Parse, Absorb;
    var flags := WithMac(FRAGMENTED, key);
    var frame, tail := FragmentFrame(p, key, target, t, k), TailBytes(p, key, target, t, k + 1);
    assert TailBytes(p, key, target, t, k) + rest == frame + (tail + rest);
    assert (frame + (tail + rest))[|frame|..] == tail + rest;
    FragmentFrameParses(p, key, target, t, k, tail + rest);
    assert Prune(FirstHeld(t, flags, k, first), at.prune) == FirstHeld(t, flags, k, first);
    NextFragmentAbsorbed(t, flags, k, first, at.open);
  }

  lemma {:induction false} FragmentsReceived(p: Primitives, key: Key, target: Bytes, t: Transfer, k: nat, first: real,
                                             rest: Bytes, clock: nat -> Reading, turn: nat)
    requires p.Lossless() && Framable(t) && k < |t.chunks|
    requires if k == 0 then InTime(clock, turn, |t.chunks|)
             else forall j: nat :: turn <= j < turn + |t.chunks| - k ==> clock(j).prune - first < REASSEMBLY_TIMEOUT
    ensures Recv(p, key, FirstHeld(t, WithMac(FRAGMENTED, key), k, first), TailBytes(p, key, target, t, k) + rest,
                 clock, turn)
         == Received(Ok(Frame(NO_FLAGS, Join(t.chunks))), map[], rest, turn + |t.chunks| - k)
    decreases |t.chunks| - k
  {
    hide RecvTurn, TailBytes, FirstHeld;
    FragmentTurn(p, key, target, t, k, first, rest, clock(turn));
    if k + 1 < |t.chunks| {
      FragmentsReceived(p, key, target, t, k + 1, if k == 0 then clock(turn).open else first, rest, clock, turn + 1);
    }
  }

  // ---------------------------------------------------------------------------
  // The pipe
  // ---------------------------------------------------------------------------

  /** One accepted call is one receive: the frame it meant, no set left open, nothing read beyond. */
  lemma SendReceived(p: Primitives, key: Key, id: U32, send: Send, rest: Bytes, clock: nat -> Reading, turn: nat)
    requires p.Lossless() && Legal(key, send) && Accepted(key, send)
    requires InTime(clock, turn, Turns(key, send))
    ensures Recv(p, key, map[], Join(Writes(p, key, id, send)) + rest, clock, turn)
         == Received(Ok(Logical(key, send)), map[], rest, turn + |Writes(p, key, id, send)|)
  {
    hide Recv, PackFrame, Fits16, FragmentFrame, FragmentedError;
    match send
    case Raw(target, flags, payload) =>
      FitsWithMac(flags, key);
      RawReceived(p, key, target, flags, payload, rest, clock, turn);
    case Fragmented(target, payload, chunkSize) =>
      FragmentedReceived(p, key, id, target, payload, chunkSize, rest, clock, turn);
  }

  lemma FragmentedReceived(p: Primitives, key: Key, id: U32, target: Bytes, payload: Bytes, chunkSize: int,
                           rest: Bytes, clock: nat -> Reading, turn: nat)
    requires p.Lossless() && FragmentedError(false, payload, chunkSize).None?
    requires InTime(clock, turn, FragmentCount(|payload|, chunkSize))
    ensures var t := Cut(payload, chunkSize, id);
            && Framable(t)
            && var frames := FragmentFrames(p, key, target, t, |t.chunks|);
            && Recv(p, key, map[], Join(frames) + rest, clock, turn)
               == Received(Ok(Frame(NO_FLAGS, payload)), map[], rest, turn + |frames|)
  {
    hide Recv, FragmentFrame;
    CutIsValid(payload, chunkSize, id);
    var t := Cut(payload, chunkSize, id);
    FramesAreTail(p, key, target, t, |t.chunks|);
    FramesCount(p, key, target, t, |t.chunks|);
    assert Join(FragmentFrames(p, key, target, t, |t.chunks|)) == TailBytes(p, key, target, t, 0);
    FragmentsReceived(p, key, target, t, 0, 0.0, rest, clock, turn);
  }

  lemma {:induction false} FramesCount(p: Primitives, key: Key, target: Bytes, t: Transfer, m: nat)
    requires Framable(t) && m <= |t.chunks|
    ensures |FragmentFrames(p, key, target, t, m)| == m
  {
    if m > 0 {
      FramesCount(p, key, target, t, m - 1);
    }
  }

  lemma RawReceived(p: Primitives, key: Key, target: Bytes, flags: Flags, payload: Bytes, rest: Bytes,
                    clock: nat -> Reading, turn: nat)
    requires p.Lossless() && |payload| <= MAX_PAYLOAD && LegalFlags(flags, key) && !flags.fragmented
    ensures var packed := PackFrame(p, target, payload, flags, key, true);
            packed.Ok? && Recv(p, key, map[], Join([packed.value]) + rest, clock, turn)
                          == Received(Ok(Frame(WithMac(flags, key), payload)), map[], rest, turn + 1)
  {
    hide PackFrame, Parse;
    SelfDelimiting(p, target, payload, flags, key, true, key, rest);
    var frame := PackFrame(p, target, payload, flags, key, true).value;
    assert Join([frame]) == frame;
    assert (frame + rest)[|frame|..] == rest;
  }

  function AllOk(frames: seq<Frame>): (s: seq<Result<Frame, WireError>>)
    ensures |s| == |frames|
  {
    if frames == [] then [] else [Ok(frames[0])] + AllOk(frames[1..])
  }

  /** The end-to-end pipe: for any calls in any mix, accepted or refused, under one shared optional key, as many
      receives as there were accepted calls return exactly the logical frames sent, in order, and leave neither bytes
      nor open sets behind. */
  lemma {:induction false} EndToEnd(p: Primitives, key: Key, id: U32, sends: seq<Send>, clock: nat -> Reading, turn: nat)
    requires p.Lossless() && forall send :: send in sends ==> Legal(key, send)
    requires Timely(key, sends, clock, turn)
    decreases |sends|
    ensures RecvMany(p, key, map[], Wire(p, key, id, sends), clock, turn, |Deliveries(key, sends)|)
         == Inbox(AllOk(Deliveries(key, sends)), map[], [])
  {
    hide Recv, Writes, Logical, Accepted, InTime, Turns;
    if sends != [] {
      var send, others := sends[0], sends[1..];
      var id' := IdAfter(key, id, send);
      var rest := Wire(p, key, id', others);
      if Accepted(key, send) {
        WritesCount(p, key, id, send);
        SendReceived(p, key, id, send, rest, clock, turn);
        var turn' := turn + |Writes(p, key, id, send)|;
        EndToEnd(p, key, id', others, clock, turn');
        var all := [Logical(key, send)] + Deliveries(key, others);
        assert all[1..] == Deliveries(key, others);
      } else {
        RefusedWritesNothing(p, key, id, send);
        assert [] + rest == rest;
        EndToEnd(p, key, id', others, clock, turn);
        assert Deliveries(key, sends) == Deliveries(key, others);
      }
    }
  }

  lemma RefusedWritesNothing(p: Primitives, key: Key, id: U32, send: Send)
    requires !Accepted(key, send)
    ensures Writes(p, key, id, send) == [] && Join(Writes(p, key, id, send)) == [] && Turns(key, send) == 0
  {
  }

  lemma WritesCount(p: Primitives, key: Key, id: U32, send: Send)
    ensures |Writes(p, key, id, send)| == Turns(key, send)
  {
    hide FragmentFrame, FragmentCount;
    if send.Fragmented? && Accepted(key, send) {
      CutIsValid(send.payload, send.chunkSize, id);
      var t := Cut(send.payload, send.chunkSize, id);
      FramesCount(p, key, send.target, t, |t.chunks|);
    }
  }

  /** Receiving keeps the reassembly bounds, whatever bytes arrive, and delivers nothing above the limit. */
  lemma {:induction false} RecvKeepsInv(p: Primitives, key: Key, sets: Sets, s: Bytes, clock: nat -> Reading, turn: nat)
    requires Inv(sets)
    ensures Inv(Recv(p, key, sets, s, clock, turn).sets)
    ensures var r := Recv(p, key, sets, s, clock, turn).outcome;
            r != Err(MissingFragment) && (r.Ok? ==> |r.value.payload| <= MAX_PAYLOAD && !r.value.flags.fragmented)
    decreases |s|
  {
    hide RecvTurn;
    TurnKeepsInv(p, key, sets, s, clock(turn));
    var t := RecvTurn(p, key, sets, s, clock(turn));
    if t.outcome == Ok(None) {
      RecvKeepsInv(p, key, t.sets, t.rest, clock, turn + 1);
    }
  }

  /** A turn's outcome that may be passed on. */
  predicate Passable(outcome: Outcome) {
    && outcome != Err(MissingFragment)
    && (outcome.Ok? && outcome.value.Some? ==>
          |outcome.value.value.payload| <= MAX_PAYLOAD && !outcome.value.value.flags.fragmented)
  }

  lemma TurnKeepsInv(p: Primitives, key: Key, sets: Sets, s: Bytes, at: Reading)
    requires Inv(sets)
    ensures var t := RecvTurn(p, key, sets, s, at); Inv(t.sets) && Passable(t.outcome)
  {
    DigestKeepsInv(p, key, sets, s, AsyncOutcome(Parse(p, key, s).outcome), at);
  }

  /** Whatever frame is read off whatever bytes, the turn keeps the bounds. */
  lemma DigestKeepsInv(p: Primitives, key: Key, sets: Sets, s: Bytes, frame: Result<Frame, WireError>, at: Reading)
    requires Inv(sets)
    requires frame == Parse(p, key, s).outcome || frame == AsyncOutcome(Parse(p, key, s).outcome)
             || frame == Err(ConnectionClosed)
    ensures var a := Digest(Prune(sets, at.prune), frame, at.open); Inv(a.sets) && Passable(a.outcome)
  {
    hide Absorb, Parse, Inv, Prune, Carries, Serialize;
    PruneKeepsInv(sets, at.prune);
    var r := Parse(p, key, s);
    ReaderErrors(p, key, s);
    if frame.Ok? {
      var f := frame.value;
      ParserExact(p, key, s, f, r.consumed);
      AbsorbKeepsInv(Prune(sets, at.prune), f.flags, f.payload, at.open);
    }
  }

  lemma ReaderErrors(p: Primitives, key: Key, s: Bytes)
    ensures Parse(p, key, s).outcome != Err(MissingFragment)
  {
  }

  /** What a receive does with the frame ahead of it: a refused one ends it with its error, a whole one with that frame, and
      either way only stale sets are gone; a fragment goes to its set. */
  lemma FirstFrameDecides(p: Primitives, key: Key, sets: Sets, s: Bytes, clock: nat -> Reading, turn: nat)
    ensures var r, young := Parse(p, key, s), Prune(sets, clock(turn).prune);
            var rest := s[r.consumed..];
            match r.outcome {
              case Err(e) =>
                Recv(p, key, sets, s, clock, turn)
                == Received(Err(if e.Truncated? then IncompleteRead else e), young, rest, turn + 1)
              case Ok(f) =>
                if !f.flags.fragmented then Recv(p, key, sets, s, clock, turn) == Received(Ok(f), young, rest, turn + 1)
                else
                  var a := Absorb(young, f.flags, f.payload, clock(turn).open);
                  Recv(p, key, sets, s, clock, turn)
                  == match a.outcome {
                       case Err(e) => Received(Err(e), a.sets, rest, turn + 1)
                       case Ok(Some(whole)) => Received(Ok(whole), a.sets, rest, turn + 1)
                       case Ok(None) => Recv(p, key, a.sets, rest, clock, turn + 1)
                     }
            }
  {
    hide Parse, Absorb, Prune;
  }

  /** Which calls are accepted. */
  lemma AcceptedExactly(key: Key, send: Send)
    ensures Accepted(key, send) <==>
              match send {
                case Raw(_, flags, payload) =>
                  |payload| <= 1_048_576 && flags.Word() + (if key.Some? && !flags.mac then 0x0001 else 0) < 0x1_0000
                case Fragmented(_, payload, chunkSize) =>
                  |payload| <= 1_048_576 && 0 < chunkSize && chunkSize + 10 <= 1_048_576 && |payload| <= 65_535 * chunkSize
              }
  {
    if send.Fragmented? {
      NoErrorExactly(false, send.payload, send.chunkSize);
    }
  }

  // ---------------------------------------------------------------------------
  // Which calls arrive as meant
  // ---------------------------------------------------------------------------

  lemma {:induction false} RecvTakesATurn(p: Primitives, key: Key, sets: Sets, s: Bytes, clock: nat -> Reading, turn: nat)
    ensures Recv(p, key, sets, s, clock, turn).turn > turn
    decreases |s|
  {
    hide RecvTurn;
    var t := RecvTurn(p, key, sets, s, clock(turn));
    if t.outcome == Ok(None) {
      RecvTakesATurn(p, key, t.sets, t.rest, clock, turn + 1);
    }
  }

  lemma OpenedFlags(flags: Flags, payload: Bytes, now: real)
    ensures var o := Absorb(map[], flags, payload, now).outcome;
            o.Ok? && o.value.Some? ==> o.value.value.flags == LogicalFlags(flags)
  {
  }

  /** A frame with MAC_PRESENT or COMPRESSED that one turn delivers was read, not reassembled. */
  lemma DeliveredAsRead(p: Primitives, key: Key, s: Bytes, at: Reading, f: Frame, rest: Bytes)
    requires RecvTurn(p, key, map[], s, at) == Turned(Ok(Some(f)), map[], rest)
    requires f.flags.mac || f.flags.compressed
    ensures |rest| <= |s| && Parse(p, key, s) == Parsed(Ok(f), |s| - |rest|)
  {
    hide Parse, Absorb, Carries, Serialize;
    var r := Parse(p, key, s);
    if r.outcome.Ok? && r.outcome.value.flags.fragmented {
      var g := r.outcome.value;
      ParserExact(p, key, s, g, r.consumed);
      assert Prune(map[], at.prune) == map[];
      OpenedFlags(g.flags, g.payload, at.open);
    }
  }

  /** What is delivered after one turn is what that turn returned. */
  lemma FirstTurn(p: Primitives, key: Key, s: Bytes, clock: nat -> Reading, turn: nat, f: Frame, rest: Bytes)
    requires Recv(p, key, map[], s, clock, turn) == Received(Ok(f), map[], rest, turn + 1)
    ensures RecvTurn(p, key, map[], s, clock(turn)) == Turned(Ok(Some(f)), map[], rest)
  {
    hide RecvTurn;
    var t := RecvTurn(p, key, map[], s, clock(turn));
    if t.outcome == Ok(None) {
      RecvTakesATurn(p, key, t.sets, t.rest, clock, turn + 1);
    }
  }

  lemma RawMisread(p: Primitives, key: Key, target: Bytes, flags: Flags, payload: Bytes, frame: Bytes, rest: Bytes,
                   clock: nat -> Reading, turn: nat)
    requires |payload| <= MAX_PAYLOAD && Fits16(WithMac(flags, key)) && !Legal(key, Raw(target, flags, payload))
    requires PackFrame(p, target, payload, flags, key, true) == Ok(frame)
    ensures Recv(p, key, map[], frame + rest, clock, turn)
         != Received(Ok(Frame(WithMac(flags, key), payload)), map[], rest, turn + 1)
  {
    hide Recv, RecvTurn, PackFrame, Parse, Fits16;
    var f := Frame(WithMac(flags, key), payload);
    FitsWithMac(flags, key);
    if Recv(p, key, map[], frame + rest, clock, turn) == Received(Ok(f), map[], rest, turn + 1) {
      RecvKeepsInv(p, key, map[], frame + rest, clock, turn);
      IllegalFlagsMisread(p, target, payload, flags, key, true, rest);
      FirstTurn(p, key, frame + rest, clock, turn, f, rest);
      DeliveredAsRead(p, key, frame + rest, clock(turn), f, rest);
    }
  }

  lemma AcceptedPacks(p: Primitives, key: Key, target: Bytes, flags: Flags, payload: Bytes)
    requires Accepted(key, Raw(target, flags, payload))
    ensures PackFrame(p, target, payload, flags, key, true).Ok?
  {
  }

  /** Raw sends are in time on every clock. */
  lemma {:induction false} RawsAreTimely(key: Key, sends: seq<Send>, clock: nat -> Reading, turn: nat)
    requires forall send :: send in sends ==> send.Raw?
    ensures Timely(key, sends, clock, turn)
    decreases |sends|
  {
    if sends != [] {
      RawsAreTimely(key, sends[1..], clock, turn + Turns(key, sends[0]));
    }
  }

  // A fragmented call whose set is dropped on the way.

  /** A set that has lost its first fragment: `seen` is what it holds. */
  function LateHeld(t: Transfer, flags: Flags, seen: set<nat>, first: real): Sets {
    One(t.streamId, if seen == {} then None else Some(BufOf(t, flags, seen, first)))
  }

  ghost predicate Headless(t: Transfer, seen: set<nat>) {
    0 !in seen && forall q :: q in seen ==> q < |t.chunks|
  }

  lemma HeadlessInto(t: Transfer, flags: Flags, k: nat, seen: set<nat>, first: real, now: real)
    requires t.Valid() && 0 < k < |t.chunks| && Headless(t, seen)
    ensures AbsorbInto(if seen == {} then None else Some(BufOf(t, flags, seen, first)), t.Header(k), flags, t.chunks[k], now)
         == (Some(BufOf(t, flags, seen + {k}, if seen == {} then now else first)), Ok(None))
  {
    hide WriteInto;
    assert |seen + {k}| < |t.chunks| by {
      Pigeonhole(seen + {k}, |t.chunks|);
      assert (0 as nat) !in seen + {k};
    }
    ArrivalInto(t, flags, seen, if seen == {} then now else first, k);
    if seen == {} {
      SizeOfNothing(|t.chunks|);
      assert BufOf(t, flags, seen, now) == NewBuf(|t.chunks|, flags, now);
    }
  }

  lemma HeadlessAbsorbed(t: Transfer, flags: Flags, k: nat, seen: set<nat>, first: real, now: real)
    requires t.Valid() && 0 < k < |t.chunks| && Headless(t, seen)
    ensures Headless(t, seen + {k})
    ensures Absorb(LateHeld(t, flags, seen, first), flags, t.Fragment(k), now)
         == Absorbed(LateHeld(t, flags, seen + {k}, if seen == {} then now else first), Ok(None))
  {
    hide AbsorbInto, BufOf, ParseFragHeader, AbsorbChunk;
    FragmentParses(t, k);
    HeadlessInto(t, flags, k, seen, first, now);
    OneChunk(if seen == {} then None else Some(BufOf(t, flags, seen, first)), t.Header(k), flags, t.chunks[k], now);
  }

  lemma PrunedLate(t: Transfer, flags: Flags, seen: set<nat>, first: real, now: real)
    ensures Prune(LateHeld(t, flags, seen, first), now)
         == LateHeld(t, flags, if now - first < REASSEMBLY_TIMEOUT then seen else {}, first)
  {
    hide SizeUpTo, ChunksHeld;
  }

  lemma FragmentTakenUp(p: Primitives, key: Key, target: Bytes, t: Transfer, k: nat, sets: Sets, rest: Bytes, at: Reading)
    requires p.Lossless() && Framable(t) && k < |t.chunks|
    ensures var a := Absorb(Prune(sets, at.prune), WithMac(FRAGMENTED, key), t.Fragment(k), at.open);
            RecvTurn(p, key, sets, TailBytes(p, key, target, t, k) + rest, at)
            == Turned(a.outcome, a.sets, TailBytes(p, key, target, t, k + 1) + rest)
  {
    hide FragmentFrame, Parse, Absorb, Prune;
    var frame, tail := FragmentFrame(p, key, target, t, k), TailBytes(p, key, target, t, k + 1);
    assert TailBytes(p, key, target, t, k) + rest == frame + (tail + rest);
    assert (frame + (tail + rest))[|frame|..] == tail + rest;
    FragmentFrameParses(p, key, target, t, k, tail + rest);
  }

  lemma {:induction false} HeadlessNever(p: Primitives, key: Key, target: Bytes, t: Transfer, k: nat, seen: set<nat>,
                                         first: real, rest: Bytes, clock: nat -> Reading, turn: nat)
    requires p.Lossless() && Framable(t) && 0 < k <= |t.chunks| && Headless(t, seen)
    ensures Recv(p, key, LateHeld(t, WithMac(FRAGMENTED, key), seen, first), TailBytes(p, key, target, t, k) + rest,
                 clock, turn).turn > turn + |t.chunks| - k
    decreases |t.chunks| - k
  {
    hide RecvTurn, TailBytes, LateHeld, Absorb, Prune;
    var flags := WithMac(FRAGMENTED, key);
    var sets, s := LateHeld(t, flags, seen, first), TailBytes(p, key, target, t, k) + rest;
    if k == |t.chunks| {
      RecvTakesATurn(p, key, sets, s, clock, turn);
    } else {
      var at := clock(turn);
      var left := if at.prune - first < REASSEMBLY_TIMEOUT then seen else {};
      PrunedLate(t, flags, seen, first, at.prune);
      HeadlessAbsorbed(t, flags, k, left, first, at.open);
      FragmentTakenUp(p, key, target, t, k, sets, rest, at);
      HeadlessNever(p, key, target, t, k + 1, left + {k}, if left == {} then at.open else first, rest, clock, turn + 1);
    }
  }

  /** Once a prune drops the set, the call is not received within its frames. */
  lemma {:induction false} TooLate(p: Primitives, key: Key, target: Bytes, t: Transfer, k: nat, first: real, rest: Bytes,
                                   clock: nat -> Reading, turn: nat)
    requires p.Lossless() && Framable(t) && 0 < k < |t.chunks|
    requires exists j: nat :: turn <= j < turn + |t.chunks| - k && clock(j).prune - first >= REASSEMBLY_TIMEOUT
    ensures Recv(p, key, FirstHeld(t, WithMac(FRAGMENTED, key), k, first), TailBytes(p, key, target, t, k) + rest,
                 clock, turn).turn > turn + |t.chunks| - k
    decreases |t.chunks| - k
  {
    hide RecvTurn, TailBytes, FirstHeld, LateHeld, Absorb;
    var flags := WithMac(FRAGMENTED, key);
    var at := clock(turn);
    if at.prune - first < REASSEMBLY_TIMEOUT {
      var j: nat :| turn <= j < turn + |t.chunks| - k && clock(j).prune - first >= REASSEMBLY_TIMEOUT;
      FragmentTurn(p, key, target, t, k, first, rest, at);
      TooLate(p, key, target, t, k + 1, first, rest, clock, turn + 1);
    } else {
      DroppedWhole(t, flags, k, first, at.prune);
      HeadlessAbsorbed(t, flags, k, {}, first, at.open);
      FragmentTakenUp(p, key, target, t, k, FirstHeld(t, flags, k, first), rest, at);
      HeadlessNever(p, key, target, t, k + 1, {} + {k}, at.open, rest, clock, turn + 1);
    }
  }

  lemma DroppedWhole(t: Transfer, flags: Flags, k: nat, first: real, now: real)
    requires now - first >= REASSEMBLY_TIMEOUT
    ensures Prune(FirstHeld(t, flags, k, first), now) == LateHeld(t, flags, {}, first)
  {
    hide SizeUpTo, ChunksHeld, Range;
  }

  lemma LateCallMissed(p: Primitives, key: Key, id: U32, target: Bytes, payload: Bytes, chunkSize: int, rest: Bytes,
                       clock: nat -> Reading, turn: nat)
    requires p.Lossless() && FragmentedError(false, payload, chunkSize).None?
    requires !InTime(clock, turn, FragmentCount(|payload|, chunkSize))
    ensures var n := FragmentCount(|payload|, chunkSize);
            Recv(p, key, map[], Join(Writes(p, key, id, Fragmented(target, payload, chunkSize))) + rest, clock, turn).turn
            > turn + n
  {
    hide Recv, FragmentFrame, FragmentCount, RecvTurn;
    CutIsValid(payload, chunkSize, id);
    var t := Cut(payload, chunkSize, id);
    FramesAreTail(p, key, target, t, |t.chunks|);
    FramesCount(p, key, target, t, |t.chunks|);
    assert Join(FragmentFrames(p, key, target, t, |t.chunks|)) == TailBytes(p, key, target, t, 0);
    FirstThenLate(p, key, target, t, rest, clock, turn);
  }

  lemma FirstThenLate(p: Primitives, key: Key, target: Bytes, t: Transfer, rest: Bytes, clock: nat -> Reading, turn: nat)
    requires p.Lossless() && Framable(t) && !InTime(clock, turn, |t.chunks|)
    ensures Recv(p, key, map[], TailBytes(p, key, target, t, 0) + rest, clock, turn).turn > turn + |t.chunks|
  {
    hide RecvTurn, TailBytes, FirstHeld;
    var flags := WithMac(FRAGMENTED, key);
    assert FirstHeld(t, flags, 0, 0.0) == map[] by {
      NothingHeld(t, flags);
    }
    FragmentTurn(p, key, target, t, 0, 0.0, rest, clock(turn));
    TooLate(p, key, target, t, 1, clock(turn).open, rest, clock, turn + 1);
  }

  lemma NothingHeld(t: Transfer, flags: Flags)
    ensures FirstHeld(t, flags, 0, 0.0) == map[]
  {
  }

  /** An accepted call arrives as the frame it meant, in as many turns as it has frames and with nothing left over, if and
      only if its flags, if it is a raw one, leave FRAGMENTED, COMPRESSED and unkeyed MAC_PRESENT to the transport, and,
      if it is a fragmented one, no prune drops its set on the way. */
  lemma SendReceivedExactly(p: Primitives, key: Key, id: U32, send: Send, rest: Bytes, clock: nat -> Reading, turn: nat)
    requires p.Lossless() && Accepted(key, send)
    ensures Recv(p, key, map[], Join(Writes(p, key, id, send)) + rest, clock, turn)
         == Received(Ok(Logical(key, send)), map[], rest, turn + |Writes(p, key, id, send)|)
       <==> Legal(key, send) && InTime(clock, turn, Turns(key, send))
  {
    WritesCount(p, key, id, send);
    hide Recv, PackFrame, Fits16, FragmentFrame, FragmentedError, InTime;
    if Legal(key, send) && InTime(clock, turn, Turns(key, send)) {
      SendReceived(p, key, id, send, rest, clock, turn);
    } else if send.Fragmented? {
      hide Writes;
      LateCallMissed(p, key, id, send.target, send.payload, send.chunkSize, rest, clock, turn);
    } else {
      OneFrameInTime(clock, turn);
      AcceptedPacks(p, key, send.target, send.flags, send.payload);
      var frame := PackFrame(p, send.target, send.payload, send.flags, key, true).value;
      assert Join([frame]) == frame;
      RawMisread(p, key, send.target, send.flags, send.payload, frame, rest, clock, turn);
    }
  }

  lemma OneFrameInTime(clock: nat -> Reading, turn: nat)
    ensures InTime(clock, turn, 1)
  {
  }
}
