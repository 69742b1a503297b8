/** Two client objects at the ends of one byte stream: the calls of one, then as many receives by the other. */
module Exchange {
  import opened Wrappers
  import opened Octets
  import opened Framing
  import opened Readers
  import opened Client
  import opened Pipe
  import opened WebSocket

  /** The frames a call writes to a WebSocket, uncompressed; fragmented calls are refused there. */
  function WsWrites(p: Primitives, key: Key, send: Send): seq<Bytes> {
    if send.Raw? && Accepted(key, send) then [PackFrame(p, send.target, send.payload, send.flags, key, false).value] else []
  }

  function WsPosts(p: Primitives, key: Key, sends: seq<Send>): seq<Bytes> {
    if sends == [] then [] else WsWrites(p, key, sends[0]) + WsPosts(p, key, sends[1..])
  }

  method Call(c: VynkorClient, send: Send) returns (error: Option<WireError>)
    requires c.nextStreamId != 0
    modifies c`written, c`nextStreamId
    ensures c.nextStreamId != 0
    ensures c.nextStreamId
         == if c.isWs then old(c.nextStreamId) else IdAfter(c.sessionKey, old(c.nextStreamId), send)
    ensures c.written == old(c.written) + if c.isWs then WsWrites(c.prims, c.sessionKey, send)
                                          else Writes(c.prims, c.sessionKey, old(c.nextStreamId), send)
    ensures error.None? <==> Accepted(c.sessionKey, send) && (c.isWs ==> send.Raw?)
  {
    hide FragmentFrame, Fits16;
    match send
    case Raw(target, flags, payload) => error := c.SendRawWithFlags(target, flags, payload);
    case Fragmented(target, payload, chunkSize) => error := c.SendFragmented(target, payload, chunkSize);
  }

  /** A caller that makes `sends` one after the other, refused or not. */
  method CallAll(c: VynkorClient, sends: seq<Send>)
    requires c.nextStreamId != 0
    modifies c`written, c`nextStreamId
    ensures c.isWs ==> c.written == old(c.written) + WsPosts(c.prims, c.sessionKey, sends)
    ensures !c.isWs ==>
              Join(c.written) == Join(old(c.written)) + Wire(c.prims, c.sessionKey, old(c.nextStreamId), sends)
    decreases |sends|
  {
    hide Writes, WsWrites;
    if sends != [] {
      var _ := Call(c, sends[0]);
      ghost var writes := Writes(c.prims, c.sessionKey, old(c.nextStreamId), sends[0]);
      JoinAppend(old(c.written), writes);
      CallAll(c, sends[1..]);
    }
  }

  /** A caller that receives `n` times, whatever comes. */
  method ReceiveAll(c: VynkorClient, clock: nat -> Reading, turn: nat, n: nat)
    returns (frames: seq<Result<Frame, WireError>>)
    requires c.Valid()
    modifies c`reassembly, c`inbox, c.reassembly.Values, c.reader
    ensures c.Valid() && fresh(c.reassembly.Values - old(c.reassembly.Values))
    ensures c.isWs ==>
              Inbox(frames, c.OpenSets(), c.inbox)
              == WsRecvMany(c.prims, c.sessionKey, old(c.OpenSets()), old(c.inbox), clock, turn, n)
    ensures !c.isWs ==>
              Inbox(frames, c.OpenSets(), c.reader.Remaining())
              == RecvMany(c.prims, c.sessionKey, old(c.OpenSets()), old(c.reader.Remaining()), clock, turn, n)
    decreases n
  {
    hide Recv, WsRecv;
    if n == 0 {
      return [];
    }
    var first, next := c.RecvFrame(clock, turn);
    var others := ReceiveAll(c, clock, next, n - 1);
    return [first] + others;
  }

  /** The end-to-end pipe between the objects themselves: what the calls on one client mean is what the receives on the
      other return. */
  method Converse(p: Primitives, key: Key, sends: seq<Send>, clock: nat -> Reading)
    returns (frames: seq<Result<Frame, WireError>>)
    requires p.Lossless() && forall send :: send in sends ==> Legal(key, send)
    requires Timely(key, sends, clock, 0)
    ensures frames == AllOk(Deliveries(key, sends))
  {
    EndToEnd(p, key, 1, sends, clock, 0);
    hide Wire, RecvMany, Deliveries, AllOk, Legal, Timely, Primitives.Lossless, Recv;
    var nothing := new ByteStream([]);
    var sender := new VynkorClient(p, false, nothing, [], key);
    CallAll(sender, sends);
    var stream := new ByteStream(Join(sender.written));
    var receiver := new VynkorClient(p, false, stream, [], key);
    assert Join([]) == [] && stream.Remaining() == Wire(p, key, 1, sends);
    assert receiver.OpenSets() == map[];
    frames := ReceiveAll(receiver, clock, 0, |Deliveries(key, sends)|);
  }
}
