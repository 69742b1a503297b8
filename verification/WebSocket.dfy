/** Receiving over a WebSocket: the receive loop does on messages what it does on a byte stream. */
module WebSocket {
  import opened Wrappers
  import opened Octets
  import opened Framing
  import opened FramingLaws
  import opened Reassembly
  import opened Client
  import opened Pipe

  /** `n` calls of `recv_frame`, one after the other. */
  function WsRecvMany(p: Primitives, key: Key, sets: Sets, inbox: seq<Message>, clock: nat -> Reading, turn: nat, n: nat)
    : Inbox<seq<Message>>
    decreases n
  {
    if n == 0 then Inbox([], sets, inbox)
    else
      var r := WsRecv(p, key, sets, inbox, clock, turn);
      var others := WsRecvMany(p, key, r.sets, r.rest, clock, r.turn, n - 1);
      Inbox([r.outcome] + others.frames, others.sets, others.rest)
  }

  /** Receiving keeps the reassembly bounds, whatever messages arrive, and delivers nothing above the limit. */
  lemma {:induction false} WsRecvKeepsInv(p: Primitives, key: Key, sets: Sets, inbox: seq<Message>,
                                          clock: nat -> Reading, turn: nat)
    requires Inv(sets)
    ensures Inv(WsRecv(p, key, sets, inbox, clock, turn).sets)
    ensures var r := WsRecv(p, key, sets, inbox, clock, turn).outcome;
            r != Err(MissingFragment) && (r.Ok? ==> |r.value.payload| <= MAX_PAYLOAD && !r.value.flags.fragmented)
    decreases |inbox|
  {
    hide WsTurn;
    WsTurnKeepsInv(p, key, sets, inbox, clock(turn));
    var t := WsTurn(p, key, sets, inbox, clock(turn));
    if t.outcome == Ok(None) {
      WsRecvKeepsInv(p, key, t.sets, t.rest, clock, turn + 1);
    }
  }

  lemma {:induction false} FrameIsRead(p: Primitives, key: Key, inbox: seq<Message>) returns (s: Bytes)
    ensures var frame := NextFrame(p, key, inbox).0;
            frame == Parse(p, key, s).outcome || frame == Err(ConnectionClosed)
  {
    hide Parse;
    s := [];
    if inbox != [] {
      if inbox[0].Text? {
        s := FrameIsRead(p, key, inbox[1..]);
      } else {
        s := inbox[0].data;
      }
    }
  }

  lemma WsTurnKeepsInv(p: Primitives, key: Key, sets: Sets, inbox: seq<Message>, at: Reading)
    requires Inv(sets)
    ensures var t := WsTurn(p, key, sets, inbox, at); Inv(t.sets) && Passable(t.outcome)
  {
    hide Inv, Parse, Digest, NextFrame;
    var s := FrameIsRead(p, key, inbox);
    DigestKeepsInv(p, key, sets, s, NextFrame(p, key, inbox).0, at);
  }

  /** What a receive does with the first binary message: a frame refused ends it with that frame's error, a whole one with
      the frame, and either way only stale sets are gone; a fragment goes to its set. */
  lemma FirstMessageDecides(p: Primitives, key: Key, sets: Sets, data: Bytes, others: seq<Message>, clock: nat -> Reading,
                            turn: nat)
    ensures var young, ws := Prune(sets, clock(turn).prune), WsRecv(p, key, sets, [Binary(data)] + others, clock, turn);
            match Parse(p, key, data).outcome {
              case Err(e) => ws == Received(Err(e), young, others, turn + 1)
              case Ok(f) =>
                if !f.flags.fragmented then ws == Received(Ok(f), young, others, turn + 1)
                else
                  var a := Absorb(young, f.flags, f.payload, clock(turn).open);
                  ws == match a.outcome {
                          case Err(e) => Received(Err(e), a.sets, others, turn + 1)
                          case Ok(Some(whole)) => Received(Ok(whole), a.sets, others, turn + 1)
                          case Ok(None) => WsRecv(p, key, a.sets, others, clock, turn + 1)
                        }
            }
  {
    hide Parse, Absorb, Prune;
    assert ([Binary(data)] + others)[1..] == others;
  }

  // ---------------------------------------------------------------------------
  // Messages and streams
  // ---------------------------------------------------------------------------

  /** One message: text, or a wire frame that carries `f`, with anything behind it. */
  datatype Parcel = Note | Parcel(wire: WireFrame, f: Frame, trailing: Bytes)

  ghost predicate Sound(p: Primitives, key: Key, ms: seq<Parcel>) {
    forall m :: m in ms && m.Parcel? ==> Carries(p, key, m.wire, m.f)
  }

  ghost function AsMessages(p: Primitives, key: Key, ms: seq<Parcel>): seq<Message>
    requires Sound(p, key, ms)
  {
    if ms == [] then []
    else [if ms[0].Note? then Text else Binary(Serialize(p, ms[0].wire) + ms[0].trailing)] + AsMessages(p, key, ms[1..])
  }

  /** The same frames written to a byte stream, and nothing else. */
  ghost function AsStream(p: Primitives, key: Key, ms: seq<Parcel>): Bytes
    requires Sound(p, key, ms)
  {
    if ms == [] then []
    else (if ms[0].Note? then [] else Serialize(p, ms[0].wire)) + AsStream(p, key, ms[1..])
  }

  /** The two transports report the end of their input differently. */
  predicate SameResult(stream: Result<Frame, WireError>, ws: Result<Frame, WireError>) {
    stream == ws || (stream == Err(IncompleteRead) && ws == Err(ConnectionClosed))
  }

  lemma ParcelTurns(p: Primitives, key: Key, m: Parcel, sets: Sets, s: Bytes, inbox: seq<Message>, at: Reading)
    requires m.Parcel? && Carries(p, key, m.wire, m.f)
    ensures var a := Digest(Prune(sets, at.prune), Ok(m.f), at.open);
            && RecvTurn(p, key, sets, Serialize(p, m.wire) + s, at) == Turned(a.outcome, a.sets, s)
            && WsTurn(p, key, sets, [Binary(Serialize(p, m.wire) + m.trailing)] + inbox, at)
               == Turned(a.outcome, a.sets, inbox)
  {
    assert |m.wire.body| <= MAX_PAYLOAD;
    hide Parse, Serialize, Carries, Digest, Prune;
    var frame := Serialize(p, m.wire);
    ParseSerialized(p, key, m.wire, m.f, s);
    ParseSerialized(p, key, m.wire, m.f, m.trailing);
    assert (frame + s)[|frame|..] == s;
    assert ([Binary(frame + m.trailing)] + inbox)[1..] == inbox;
  }

  lemma NoteSkipped(p: Primitives, key: Key, sets: Sets, inbox: seq<Message>, clock: nat -> Reading, turn: nat)
    ensures WsRecv(p, key, sets, [Text] + inbox, clock, turn) == WsRecv(p, key, sets, inbox, clock, turn)
  {
    hide Parse, Digest;
    assert ([Text] + inbox)[1..] == inbox;
    assert WsTurn(p, key, sets, [Text] + inbox, clock(turn)) == WsTurn(p, key, sets, inbox, clock(turn));
  }

  lemma NothingLeft(p: Primitives, key: Key, sets: Sets, clock: nat -> Reading, turn: nat)
    ensures var pruned := Prune(sets, clock(turn).prune);
            && Recv(p, key, sets, [], clock, turn) == Received(Err(IncompleteRead), pruned, [], turn + 1)
            && WsRecv(p, key, sets, [], clock, turn) == Received(Err(ConnectionClosed), pruned, [], turn + 1)
  {
    hide Prune;
  }

  /** One receive does the same on the messages and on the stream: result, sets, number of turns, and the frames left. */
  lemma {:induction false} SameReceive(p: Primitives, key: Key, sets: Sets, ms: seq<Parcel>, clock: nat -> Reading, turn: nat)
    returns (left: seq<Parcel>)
    requires Sound(p, key, ms)
    ensures Sound(p, key, left)
    ensures var stream := Recv(p, key, sets, AsStream(p, key, ms), clock, turn);
            var ws := WsRecv(p, key, sets, AsMessages(p, key, ms), clock, turn);
            && SameResult(stream.outcome, ws.outcome) && stream.sets == ws.sets && stream.turn == ws.turn
            && stream.rest == AsStream(p, key, left) && ws.rest == AsMessages(p, key, left)
    decreases |ms|
  {
    hide Carries, Serialize, Digest, Prune, Parse, RecvTurn, WsTurn;
    if ms == [] {
      NothingLeft(p, key, sets, clock, turn);
      left := [];
    } else {
      var m, others := ms[0], ms[1..];
      var s, inbox := AsStream(p, key, others), AsMessages(p, key, others);
      if m.Note? {
        assert [] + s == s;
        NoteSkipped(p, key, sets, inbox, clock, turn);
        left := SameReceive(p, key, sets, others, clock, turn);
      } else {
        ParcelTurns(p, key, m, sets, s, inbox, clock(turn));
        var a := Digest(Prune(sets, clock(turn).prune), Ok(m.f), clock(turn).open);
        left := others;
        if a.outcome == Ok(None) {
          left := SameReceive(p, key, a.sets, others, clock, turn + 1);
        }
      }
    }
  }

  /** Receiving over a WebSocket is receiving over a byte stream: with the same open sets and clock, any number of receives
      on messages that carry legal frames, compressed, tagged, fragmented or raw, among text and with anything behind the
      frames, return what they return on the stream of those frames, and leave the same sets. */
  lemma {:induction false} WebSocketLikeStream(p: Primitives, key: Key, sets: Sets, ms: seq<Parcel>, clock: nat -> Reading,
                                               turn: nat, n: nat)
    requires Sound(p, key, ms)
    ensures var stream := RecvMany(p, key, sets, AsStream(p, key, ms), clock, turn, n);
            var ws := WsRecvMany(p, key, sets, AsMessages(p, key, ms), clock, turn, n);
            && stream.sets == ws.sets && |stream.frames| == |ws.frames| == n
            && forall i :: 0 <= i < n ==> SameResult(stream.frames[i], ws.frames[i])
    decreases n
  {
    hide Recv, WsRecv, AsStream, AsMessages, Sound, SameResult;
    if n > 0 {
      var left := SameReceive(p, key, sets, ms, clock, turn);
      var stream := Recv(p, key, sets, AsStream(p, key, ms), clock, turn);
      WebSocketLikeStream(p, key, stream.sets, left, clock, stream.turn, n - 1);
    }
  }

  // ---------------------------------------------------------------------------
  // Raw frames
  // ---------------------------------------------------------------------------

  /** What a peer puts on a WebSocket: text, or one packed frame with anything behind it. */
  datatype Posted = Chatter | Framed(target: Bytes, flags: Flags, payload: Bytes, compress: bool, trailing: Bytes)

  ghost predicate Receivable(p: Primitives, key: Key, m: Posted) {
    m.Framed? ==> |m.payload| <= MAX_PAYLOAD && LegalFlags(m.flags, key) && !m.flags.fragmented
                  && (m.compress ==> p.Lossless())
  }

  ghost function MessageOf(p: Primitives, key: Key, m: Posted): Message
    requires Receivable(p, key, m)
  {
    match m
    case Chatter => Text
    case Framed(target, flags, payload, compress, trailing) =>
      FitsWithMac(flags, key);
      Binary(PackFrame(p, target, payload, flags, key, compress).value + trailing)
  }

  ghost function Messages(p: Primitives, key: Key, ms: seq<Posted>): seq<Message>
    requires forall m :: m in ms ==> Receivable(p, key, m)
  {
    if ms == [] then [] else [MessageOf(p, key, ms[0])] + Messages(p, key, ms[1..])
  }

  function Frames(key: Key, ms: seq<Posted>): seq<Frame> {
    if ms == [] then []
    else (if ms[0].Framed? then [Frame(WithMac(ms[0].flags, key), ms[0].payload)] else []) + Frames(key, ms[1..])
  }

  lemma PostedReceived(p: Primitives, key: Key, m: Posted, others: seq<Message>, clock: nat -> Reading, turn: nat)
    requires Receivable(p, key, m)
    ensures var r := WsRecv(p, key, map[], [MessageOf(p, key, m)] + others, clock, turn);
            if m.Chatter? then r == WsRecv(p, key, map[], others, clock, turn)
            else r == Received(Ok(Frame(WithMac(m.flags, key), m.payload)), map[], others, turn + 1)
  {
    hide PackFrame, Parse, LegalFlags;
    var inbox := [MessageOf(p, key, m)] + others;
    assert inbox[1..] == others;
    if m.Framed? {
      SelfDelimiting(p, m.target, m.payload, m.flags, key, m.compress, key, m.trailing);
    } else {
      assert WsTurn(p, key, map[], inbox, clock(turn)) == WsTurn(p, key, map[], others, clock(turn));
    }
  }

  /** The receives return the raw frames posted, in order; text messages, and bytes behind a frame in its message, make no
      difference. */
  lemma {:induction false} WebSocketPipe(p: Primitives, key: Key, ms: seq<Posted>, clock: nat -> Reading, turn: nat)
    requires forall m :: m in ms ==> Receivable(p, key, m)
    ensures WsRecvMany(p, key, map[], Messages(p, key, ms), clock, turn, |Frames(key, ms)|).frames
         == AllOk(Frames(key, ms))
  {
    if ms != [] {
      hide WsRecv, WsRecvMany, MessageOf, Receivable, LegalFlags;
      var m, others := ms[0], ms[1..];
      var inbox, due := Messages(p, key, others), Frames(key, others);
      PostedReceived(p, key, m, inbox, clock, turn);
      if m.Framed? {
        WebSocketPipe(p, key, others, clock, turn + 1);
        WsRecvManyOne(p, key, [MessageOf(p, key, m)] + inbox, clock, turn, |due| + 1);
        assert Frames(key, ms)[1..] == due;
      } else {
        WebSocketPipe(p, key, others, clock, turn);
        WsRecvManySame(p, key, [MessageOf(p, key, m)] + inbox, inbox, clock, turn, |due|);
        assert Frames(key, ms) == due;
      }
    } else {
      assert WsRecvMany(p, key, map[], [], clock, turn, 0).frames == [];
    }
  }

  lemma WsRecvManyOne(p: Primitives, key: Key, inbox: seq<Message>, clock: nat -> Reading, turn: nat, n: nat)
    requires n > 0
    ensures var r := WsRecv(p, key, map[], inbox, clock, turn);
            WsRecvMany(p, key, map[], inbox, clock, turn, n).frames
            == [r.outcome] + WsRecvMany(p, key, r.sets, r.rest, clock, r.turn, n - 1).frames
  {
  }

  lemma WsRecvManySame(p: Primitives, key: Key, inbox: seq<Message>, inbox': seq<Message>, clock: nat -> Reading,
                       turn: nat, n: nat)
    requires WsRecv(p, key, map[], inbox, clock, turn) == WsRecv(p, key, map[], inbox', clock, turn)
    ensures n > 0 ==>
              WsRecvMany(p, key, map[], inbox, clock, turn, n) == WsRecvMany(p, key, map[], inbox', clock, turn, n)
    ensures WsRecvMany(p, key, map[], inbox, clock, turn, n).frames
         == WsRecvMany(p, key, map[], inbox', clock, turn, n).frames
  {
    hide WsRecv;
  }
}
