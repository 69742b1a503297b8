/** Many calls on one client at the same time: `send_fragmented` awaits after every fragment, and other calls write in
    between. The receiver still gets every payload, each at its last fragment. */
module Interleaving {
  import opened Wrappers
  import opened Octets
  import opened Framing
  import opened FramingLaws
  import opened Reassembly
  import opened Splitter
  import opened Delivery
  import opened Client
  import opened Pipe

  /** A `send_fragmented` call that awaits with fragments `next` and up still to be written. */
  datatype Partial = Partial(target: Bytes, transfer: Transfer, next: nat)

  /** The sending client: its next stream id, and the calls under way by stream id. */
  datatype Sender = Sender(nextId: U32, active: map<U32, Partial>)

  /** What runs between two awaits of the sending tasks. */
  datatype Act =
    | Whole(target: Bytes, flags: Flags, payload: Bytes)        // a raw send
    | Start(target: Bytes, payload: Bytes, chunkSize: int)      // a fragmented send, up to its first fragment
    | Continue(streamId: U32)                                   // one more fragment of a call under way

  predicate Refused(key: Key, act: Act) {
    match act
    case Whole(target, flags, payload) => !Accepted(key, Raw(target, flags, payload))
    case Start(target, payload, chunkSize) => !Accepted(key, Fragmented(target, payload, chunkSize))
    case Continue(_) => false
  }

  /** Under way, with some fragments written and some not. */
  ghost predicate UnderWay(c: Partial, id: U32) {
    Framable(c.transfer) && c.transfer.streamId == id && 0 < c.next < |c.transfer.chunks|
  }

  /** The call is under way, or the act starts one while fewer than 64 are. Raw sends leave the transport's flags to the
      transport. */
  ghost predicate HasRoom(key: Key, s: Sender, act: Act) {
    match act
    case Whole(target, flags, payload) => Legal(key, Raw(target, flags, payload))
    case Start(_, _, _) => Refused(key, act) || |s.active| < MAX_REASSEMBLY_STREAMS
    case Continue(id) => id in s.active && UnderWay(s.active[id], id)
  }

  /** And a call that starts does so on an id that none under way has. */
  ghost predicate Can(key: Key, s: Sender, act: Act) {
    HasRoom(key, s, act) && (act.Start? && !Refused(key, act) ==> s.nextId !in s.active)
  }

  /** The call the act carries on, before it writes. */
  ghost function Current(key: Key, s: Sender, act: Act): (c: Partial)
    requires Can(key, s, act) && !Refused(key, act) && !act.Whole?
    ensures Framable(c.transfer) && c.next < |c.transfer.chunks|
    ensures c.next == 0 <==> act.Start?
    ensures c.transfer.streamId == if act.Start? then s.nextId else act.streamId
  {
    match act
    case Start(target, payload, chunkSize) =>
      CutIsValid(payload, chunkSize, s.nextId);
      Partial(target, Cut(payload, chunkSize, s.nextId), 0)
    case Continue(id) => s.active[id]
  }

  predicate Last(c: Partial) {
    c.next + 1 == |c.transfer.chunks|
  }

  ghost function After(key: Key, s: Sender, act: Act): Sender
    requires Can(key, s, act)
  {
    if Refused(key, act) || act.Whole? then s
    else
      var c := Current(key, s, act);
      var id := c.transfer.streamId;
      Sender(if act.Start? then NextStreamId(s.nextId) else s.nextId,
             if Last(c) then s.active - {id} else s.active[id := c.(next := c.next + 1)])
  }

  /** The bytes the act writes. */
  ghost function Wrote(p: Primitives, key: Key, s: Sender, act: Act): Bytes
    requires Can(key, s, act)
  {
    if Refused(key, act) then []
    else if act.Whole? then PackFrame(p, act.target, act.payload, act.flags, key, true).value
    else
      var c := Current(key, s, act);
      FragmentFrame(p, key, c.target, c.transfer, c.next)
  }

  /** The frame the receiver is to return once it has the act's bytes: the one sent, or the payload whose last fragment
      this was. */
  ghost function Due(key: Key, s: Sender, act: Act): Option<Frame>
    requires Can(key, s, act)
  {
    if Refused(key, act) then None
    else if act.Whole? then Some(Frame(WithMac(act.flags, key), act.payload))
    else
      var c := Current(key, s, act);
      if Last(c) then Some(Frame(NO_FLAGS, Join(c.transfer.chunks))) else None
  }

  /** Every act of the sequence is possible in its turn. */
  ghost predicate Possible(key: Key, s: Sender, acts: seq<Act>)
    decreases |acts|
  {
    acts == [] || (Can(key, s, acts[0]) && Possible(key, After(key, s, acts[0]), acts[1..]))
  }

  ghost function Finally(key: Key, s: Sender, acts: seq<Act>): Sender
    requires Possible(key, s, acts)
    decreases |acts|
  {
    if acts == [] then s else Finally(key, After(key, s, acts[0]), acts[1..])
  }

  ghost function AllWrote(p: Primitives, key: Key, s: Sender, acts: seq<Act>): Bytes
    requires Possible(key, s, acts)
    decreases |acts|
  {
    if acts == [] then [] else Wrote(p, key, s, acts[0]) + AllWrote(p, key, After(key, s, acts[0]), acts[1..])
  }

  ghost function AllDue(key: Key, s: Sender, acts: seq<Act>): seq<Frame>
    requires Possible(key, s, acts)
    decreases |acts|
  {
    if acts == [] then []
    else
      (if Due(key, s, acts[0]).Some? then [Due(key, s, acts[0]).value] else [])
      + AllDue(key, After(key, s, acts[0]), acts[1..])
  }

  // ---------------------------------------------------------------------------
  // One fragment among others
  // ---------------------------------------------------------------------------

  /** The receiver holds, for each call under way, exactly the fragments it has written. */
  ghost predicate Holds(sets: Sets, active: map<U32, Partial>, flags: Flags) {
    && sets.Keys == active.Keys
    && forall id :: id in active ==> HoldsCall(sets[id], active[id], id, flags)
  }

  ghost predicate HoldsCall(b: Buf, c: Partial, id: U32, flags: Flags) {
    UnderWay(c, id) && b == BufOf(c.transfer, flags, Range(c.next), b.firstSeen)
  }

  /** When each of the receiver's sets was opened. */
  ghost predicate OpenedAt(sets: Sets, opens: map<U32, real>) {
    sets.Keys == opens.Keys && forall id :: id in sets ==> sets[id].firstSeen == opens[id]
  }

  /** A prune that finds none of the open sets 30 seconds old. */
  predicate FindsYoung(opens: map<U32, real>, now: real) {
    forall id :: id in opens ==> now - opens[id] < REASSEMBLY_TIMEOUT
  }

  /** The opening times after the turn that takes in an act: its first fragment opens a set, its last closes it. */
  ghost function OpensAfter(key: Key, s: Sender, act: Act, opens: map<U32, real>, now: real): map<U32, real>
    requires Can(key, s, act)
  {
    if Refused(key, act) || act.Whole? then opens
    else OpensWith(Current(key, s, act), opens, now)
  }

  function OpensWith(c: Partial, opens: map<U32, real>, now: real): map<U32, real> {
    var id := c.transfer.streamId;
    if Last(c) then opens - {id} else if c.next == 0 then opens[id := now] else opens
  }

  /** No prune fires: in every turn, all sets then open are young. */
  ghost predicate Punctual(key: Key, s: Sender, acts: seq<Act>, opens: map<U32, real>, clock: nat -> Reading, turn: nat)
    requires Possible(key, s, acts)
    decreases |acts|
  {
    if acts == [] then true
    else if Refused(key, acts[0]) then Punctual(key, After(key, s, acts[0]), acts[1..], opens, clock, turn)
    else
      && FindsYoung(opens, clock(turn).prune)
      && Punctual(key, After(key, s, acts[0]), acts[1..], OpensAfter(key, s, acts[0], opens, clock(turn).open), clock,
                turn + 1)
  }

  lemma NothingPruned(sets: Sets, opens: map<U32, real>, now: real)
    requires OpenedAt(sets, opens) && FindsYoung(opens, now)
    ensures Prune(sets, now) == sets
  {
  }

  lemma SameCount(sets: Sets, active: map<U32, Partial>)
    requires sets.Keys == active.Keys
    ensures |sets| == |active|
  {
    assert |sets.Keys| == |active.Keys|;
  }

  /** One turn of the receive loop on the bytes of one act. */
  ghost predicate TurnDoes(t: Turn<Bytes>, due: Option<Frame>, active: map<U32, Partial>, flags: Flags, rest: Bytes,
                           opens: map<U32, real>)
  {
    t.outcome == Ok(due) && t.rest == rest && Holds(t.sets, active, flags) && OpenedAt(t.sets, opens)
  }

  lemma FragmentRead(p: Primitives, key: Key, target: Bytes, t: Transfer, k: nat, sets: Sets, rest: Bytes, at: Reading)
    requires p.Lossless() && Framable(t) && k < |t.chunks| && Prune(sets, at.prune) == sets
    ensures var a := Absorb(sets, WithMac(FRAGMENTED, key), t.Fragment(k), at.open);
            RecvTurn(p, key, sets, FragmentFrame(p, key, target, t, k) + rest, at) == Turned(a.outcome, a.sets, rest)
  {
    hide Parse, Absorb, FragmentFrame;
    var frame := FragmentFrame(p, key, target, t, k);
    FragmentFrameParses(p, key, target, t, k, rest);
    assert (frame + rest)[|frame|..] == rest;
  }

  /** The set of the call at hand moves on, the others stay. */
  lemma HoldsOn(sets: Sets, s: Sender, c: Partial, flags: Flags, opens: map<U32, real>, now: real)
    requires Holds(sets, s.active, flags) && OpenedAt(sets, opens)
    requires Framable(c.transfer) && c.next + 1 < |c.transfer.chunks|
    requires c.next > 0 ==> c.transfer.streamId in sets
    ensures var id := c.transfer.streamId;
            var sets' := sets[id := BufOf(c.transfer, flags, Range(c.next + 1), FirstSeen(sets, c, now))];
            Holds(sets', s.active[id := c.(next := c.next + 1)], flags) && OpenedAt(sets', OpensWith(c, opens, now))
  {
    hide Range, SizeUpTo, ChunksHeld, Framable;
    var id := c.transfer.streamId;
    var sets' := sets[id := BufOf(c.transfer, flags, Range(c.next + 1), FirstSeen(sets, c, now))];
    var active := s.active[id := c.(next := c.next + 1)];
    forall k | k in active
      ensures HoldsCall(sets'[k], active[k], k, flags)
    {
      assert k != id ==> HoldsCall(sets[k], s.active[k], k, flags);
    }
  }

  lemma HoldsLess(sets: Sets, s: Sender, id: U32, flags: Flags, opens: map<U32, real>)
    requires Holds(sets, s.active, flags) && OpenedAt(sets, opens)
    ensures Holds(sets - {id}, s.active - {id}, flags) && OpenedAt(sets - {id}, opens - {id})
  {
    hide HoldsCall;
  }

  /** When the set of the call at hand was opened, or is being opened. */
  ghost function FirstSeen(sets: Sets, c: Partial, now: real): real {
    if c.next > 0 && c.transfer.streamId in sets then sets[c.transfer.streamId].firstSeen else now
  }

  lemma PieceResult(sets: Sets, s: Sender, c: Partial, flags: Flags, now: real)
    requires Holds(sets, s.active, flags) && Framable(c.transfer) && c.next < |c.transfer.chunks|
    requires if c.next == 0 then c.transfer.streamId !in s.active && |s.active| < MAX_REASSEMBLY_STREAMS
             else c.transfer.streamId in s.active && s.active[c.transfer.streamId] == c
    ensures var id := c.transfer.streamId;
            Absorb(sets, flags, c.transfer.Fragment(c.next), now)
            == if Last(c) then Absorbed(sets - {id}, Ok(Some(Frame(LogicalFlags(flags), Join(c.transfer.chunks)))))
               else Absorbed(sets[id := BufOf(c.transfer, flags, Range(c.next + 1), FirstSeen(sets, c, now))], Ok(None))
  {
    hide Absorb, BufOf, Range, Join;
    SameCount(sets, s.active);
    assert c.next > 0 ==> HoldsCall(sets[c.transfer.streamId], c, c.transfer.streamId, flags);
    PieceAbsorbed(sets, c.transfer, flags, c.next, now);
  }

  lemma PieceTurn(p: Primitives, key: Key, s: Sender, c: Partial, sets: Sets, rest: Bytes, opens: map<U32, real>,
                  at: Reading)
    requires p.Lossless() && FindsYoung(opens, at.prune) && Framable(c.transfer) && c.next < |c.transfer.chunks|
    requires if c.next == 0 then c.transfer.streamId !in s.active && |s.active| < MAX_REASSEMBLY_STREAMS
             else c.transfer.streamId in s.active && s.active[c.transfer.streamId] == c
    requires Holds(sets, s.active, WithMac(FRAGMENTED, key)) && OpenedAt(sets, opens)
    ensures var id := c.transfer.streamId;
            TurnDoes(RecvTurn(p, key, sets, FragmentFrame(p, key, c.target, c.transfer, c.next) + rest, at),
                     if Last(c) then Some(Frame(NO_FLAGS, Join(c.transfer.chunks))) else None,
                     if Last(c) then s.active - {id} else s.active[id := c.(next := c.next + 1)],
                     WithMac(FRAGMENTED, key), rest, OpensWith(c, opens, at.open))
  {
    var flags := WithMac(FRAGMENTED, key);
    assert sets.Keys == s.active.Keys;
    hide RecvTurn, Absorb, FragmentFrame, BufOf, Framable, Range, Join, Primitives.Lossless, Holds, OpenedAt, FindsYoung,
         FirstSeen;
    NothingPruned(sets, opens, at.prune);
    FragmentRead(p, key, c.target, c.transfer, c.next, sets, rest, at);
    PieceResult(sets, s, c, flags, at.open);
    if Last(c) {
      HoldsLess(sets, s, c.transfer.streamId, flags, opens);
    } else {
      HoldsOn(sets, s, c, flags, opens, at.open);
    }
  }

  lemma WholeTurn(p: Primitives, key: Key, target: Bytes, flags: Flags, payload: Bytes, sets: Sets,
                  active: map<U32, Partial>, rest: Bytes, opens: map<U32, real>, at: Reading)
    requires p.Lossless() && Legal(key, Raw(target, flags, payload)) && Accepted(key, Raw(target, flags, payload))
    requires Holds(sets, active, WithMac(FRAGMENTED, key)) && OpenedAt(sets, opens) && FindsYoung(opens, at.prune)
    ensures var packed := PackFrame(p, target, payload, flags, key, true);
            && packed.Ok?
            && TurnDoes(RecvTurn(p, key, sets, packed.value + rest, at), Some(Frame(WithMac(flags, key), payload)),
                        active, WithMac(FRAGMENTED, key), rest, opens)
  {
    hide PackFrame, Parse, Fits16, Holds;
    FitsWithMac(flags, key);
    NothingPruned(sets, opens, at.prune);
    SelfDelimiting(p, target, payload, flags, key, true, key, rest);
    var frame := PackFrame(p, target, payload, flags, key, true).value;
    assert (frame + rest)[|frame|..] == rest;
  }

  /** An act that writes is one turn of the receive loop. */
  lemma ActTurn(p: Primitives, key: Key, s: Sender, act: Act, sets: Sets, rest: Bytes, opens: map<U32, real>, at: Reading)
    requires p.Lossless() && FindsYoung(opens, at.prune) && Can(key, s, act) && !Refused(key, act)
    requires Holds(sets, s.active, WithMac(FRAGMENTED, key)) && OpenedAt(sets, opens)
    ensures TurnDoes(RecvTurn(p, key, sets, Wrote(p, key, s, act) + rest, at), Due(key, s, act),
                     After(key, s, act).active, WithMac(FRAGMENTED, key), rest, OpensAfter(key, s, act, opens, at.open))
  {
    hide RecvTurn, FragmentFrame, PackFrame, TurnDoes, Holds, OpenedAt, FindsYoung, OpensWith, Primitives.Lossless,
         FragmentedError, Fits16;
    if act.Whole? {
      WholeTurn(p, key, act.target, act.flags, act.payload, sets, s.active, rest, opens, at);
    } else {
      PieceTurn(p, key, s, Current(key, s, act), sets, rest, opens, at);
    }
  }

  // ---------------------------------------------------------------------------
  // The theorem
  // ---------------------------------------------------------------------------

  /** A turn that returns nothing is part of the receive that follows; one that returns a frame is a receive. */
  lemma RecvManyTurn(p: Primitives, key: Key, sets: Sets, s: Bytes, clock: nat -> Reading, turn: nat, n: nat)
    requires n > 0
    ensures var t := RecvTurn(p, key, sets, s, clock(turn));
            && (t.outcome == Ok(None) ==>
                  RecvMany(p, key, sets, s, clock, turn, n) == RecvMany(p, key, t.sets, t.rest, clock, turn + 1, n))
            && (t.outcome.Ok? && t.outcome.value.Some? ==>
                  var others := RecvMany(p, key, t.sets, t.rest, clock, turn + 1, n - 1);
                  RecvMany(p, key, sets, s, clock, turn, n)
                  == Inbox([Ok(t.outcome.value.value)] + others.frames, others.sets, others.rest))
  {
    hide RecvTurn;
  }

  /** As long as nothing is due, no call that is under way ends. */
  lemma {:induction false} NoneEnds(key: Key, s: Sender, acts: seq<Act>)
    requires Possible(key, s, acts) && AllDue(key, s, acts) == []
    ensures s.active.Keys <= Finally(key, s, acts).active.Keys
    decreases |acts|
  {
    if acts != [] {
      NoneEnds(key, After(key, s, acts[0]), acts[1..]);
    }
  }

  /** Sends in any interleaving: whichever way the awaits of any number of raw and fragmented sends fall, with up to 64
      fragmented ones under way at a time, as many receives as there were accepted sends return exactly the frames
      meant, each payload in its turn by its last fragment, and leave neither bytes nor open sets behind, as long as no
      prune finds a set 30 seconds old. */
  lemma {:induction false} InterleavedSends(p: Primitives, key: Key, s: Sender, acts: seq<Act>, sets: Sets,
                                            opens: map<U32, real>, clock: nat -> Reading, turn: nat)
    requires p.Lossless()
    requires Possible(key, s, acts) && Finally(key, s, acts).active == map[]
    requires Holds(sets, s.active, WithMac(FRAGMENTED, key)) && OpenedAt(sets, opens)
    requires Punctual(key, s, acts, opens, clock, turn)
    decreases |acts|
    ensures RecvMany(p, key, sets, AllWrote(p, key, s, acts), clock, turn, |AllDue(key, s, acts)|)
         == Inbox(AllOk(AllDue(key, s, acts)), map[], [])
  {
    if acts == [] {
      assert sets == map[];
    } else {
      var act, others := acts[0], acts[1..];
      var s' := After(key, s, act);
      var rest, dues := AllWrote(p, key, s', others), AllDue(key, s', others);
      var opens' := OpensAfter(key, s, act, opens, clock(turn).open);
      Unrolled(p, key, s, acts);
      UnrolledPunctual(key, s, acts, opens, clock, turn);
      hide RecvTurn, RecvMany, Can, After, Due, Wrote, Holds, OpenedAt, FindsYoung, OpensAfter, Primitives.Lossless,
           Refused, AllWrote, AllDue, Possible, Finally, AllOk, Punctual;
      if Refused(key, act) {
        RefusedDoesNothing(p, key, s, act);
        assert [] + rest == rest && [] + dues == dues;
        InterleavedSends(p, key, s', others, sets, opens, clock, turn);
      } else {
        var s0 := Wrote(p, key, s, act) + rest;
        ActTurn(p, key, s, act, sets, rest, opens, clock(turn));
        var t := RecvTurn(p, key, sets, s0, clock(turn));
        InterleavedSends(p, key, s', others, t.sets, opens', clock, turn + 1);
        if Due(key, s, act) == None {
          SomethingIsDue(key, s, act, others);
        }
        TurnThenMany(p, key, sets, s0, clock, turn, Due(key, s, act), dues);
      }
    }
  }

  /** The receives from a turn on, given those after it. */
  lemma TurnThenMany(p: Primitives, key: Key, sets: Sets, s: Bytes, clock: nat -> Reading, turn: nat,
                     due: Option<Frame>, dues: seq<Frame>)
    requires RecvTurn(p, key, sets, s, clock(turn)).outcome == Ok(due) && (due == None ==> dues != [])
    requires var t := RecvTurn(p, key, sets, s, clock(turn));
             RecvMany(p, key, t.sets, t.rest, clock, turn + 1, |dues|) == Inbox(AllOk(dues), map[], [])
    ensures var all := (if due.Some? then [due.value] else []) + dues;
            RecvMany(p, key, sets, s, clock, turn, |all|) == Inbox(AllOk(all), map[], [])
  {
    hide RecvTurn, RecvMany, AllOk;
    if due.Some? {
      RecvManyTurn(p, key, sets, s, clock, turn, |dues| + 1);
      OkCons(due.value, dues);
    } else {
      assert [] + dues == dues;
      RecvManyTurn(p, key, sets, s, clock, turn, |dues|);
    }
  }

  lemma Unrolled(p: Primitives, key: Key, s: Sender, acts: seq<Act>)
    requires acts != [] && Possible(key, s, acts)
    ensures Can(key, s, acts[0]) && Possible(key, After(key, s, acts[0]), acts[1..])
    ensures var s' := After(key, s, acts[0]);
            && Finally(key, s, acts) == Finally(key, s', acts[1..])
            && AllWrote(p, key, s, acts) == Wrote(p, key, s, acts[0]) + AllWrote(p, key, s', acts[1..])
            && AllDue(key, s, acts)
               == (if Due(key, s, acts[0]).Some? then [Due(key, s, acts[0]).value] else []) + AllDue(key, s', acts[1..])
  {
    hide Can, After, Due, Wrote;
  }

  lemma OkCons(f: Frame, others: seq<Frame>)
    ensures AllOk([f] + others) == [Ok(f)] + AllOk(others)
  {
    assert ([f] + others)[1..] == others;
  }

  lemma UnrolledPunctual(key: Key, s: Sender, acts: seq<Act>, opens: map<U32, real>, clock: nat -> Reading, turn: nat)
    requires acts != [] && Possible(key, s, acts) && Punctual(key, s, acts, opens, clock, turn)
    ensures var s' := After(key, s, acts[0]);
            if Refused(key, acts[0]) then Punctual(key, s', acts[1..], opens, clock, turn)
            else
              && FindsYoung(opens, clock(turn).prune)
              && Punctual(key, s', acts[1..], OpensAfter(key, s, acts[0], opens, clock(turn).open), clock, turn + 1)
  {
    hide Can, After, OpensAfter, FindsYoung, Refused;
  }

  lemma RefusedDoesNothing(p: Primitives, key: Key, s: Sender, act: Act)
    requires Can(key, s, act) && Refused(key, act)
    ensures Wrote(p, key, s, act) == [] && Due(key, s, act) == None && After(key, s, act) == s
  {
  }

  lemma SomethingIsDue(key: Key, s: Sender, act: Act, others: seq<Act>)
    requires Can(key, s, act) && !Refused(key, act) && Due(key, s, act) == None
    requires Possible(key, After(key, s, act), others) && Finally(key, After(key, s, act), others).active == map[]
    ensures AllDue(key, After(key, s, act), others) != []
  {
    var s' := After(key, s, act);
    assert Current(key, s, act).transfer.streamId in s'.active;
    if AllDue(key, s', others) == [] {
      NoneEnds(key, s', others);
    }
  }

  // ---------------------------------------------------------------------------
  // Stream ids
  // ---------------------------------------------------------------------------

  /** Possible, ids left aside. */
  ghost predicate Roomy(key: Key, s: Sender, acts: seq<Act>)
    decreases |acts|
  {
    acts == []
    || (HasRoom(key, s, acts[0]) && (Can(key, s, acts[0]) ==> Roomy(key, After(key, s, acts[0]), acts[1..])))
  }

  /** The calls under way got their ids among the first `n` calls after the one that got `first`. */
  ghost predicate Numbered(s: Sender, first: U32, n: nat) {
    && s.nextId == StreamIdAfter(first, n)
    && forall id :: id in s.active ==> exists i: nat :: i < n && id == StreamIdAfter(first, i)
  }

  lemma FreshStreamId(s: Sender, first: U32, n: nat)
    requires first != 0 && Numbered(s, first, n) && n < 0xFFFF_FFFF
    ensures s.nextId !in s.active
  {
    if s.nextId in s.active {
      var i: nat :| i < n && s.nextId == StreamIdAfter(first, i);
      StreamIdsDistinct(first, i, n - i);
    }
  }

  lemma NumberedAfter(key: Key, s: Sender, act: Act, first: U32, n: nat)
    requires Can(key, s, act) && Numbered(s, first, n)
    ensures Numbered(After(key, s, act), first, if act.Start? && !Refused(key, act) then n + 1 else n)
  {
    hide Refused, Framable;
    var s' := After(key, s, act);
    forall id | id in s'.active
      ensures exists i: nat :: i < n + 1 && id == StreamIdAfter(first, i)
      ensures id in s.active ==> exists i: nat :: i < n && id == StreamIdAfter(first, i)
    {
      if id !in s.active {
        assert id == StreamIdAfter(first, n);
      }
    }
  }

  /** How many fragmented calls the acts start. */
  function Starts(key: Key, acts: seq<Act>): nat {
    if acts == [] then 0
    else (if acts[0].Start? && !Refused(key, acts[0]) then 1 else 0) + Starts(key, acts[1..])
  }

  /** Within 2^32 - 1 fragmented calls no two under way share an id, so room is all that is needed. */
  lemma {:induction false} IdsNeverCollide(key: Key, s: Sender, acts: seq<Act>, first: U32, n: nat)
    requires first != 0 && Numbered(s, first, n) && n + Starts(key, acts) <= 0xFFFF_FFFF
    ensures Possible(key, s, acts) <==> Roomy(key, s, acts)
    decreases |acts|
  {
    if acts != [] && HasRoom(key, s, acts[0]) {
      if acts[0].Start? && !Refused(key, acts[0]) {
        FreshStreamId(s, first, n);
      }
      hide After, HasRoom, Numbered;
      NumberedAfter(key, s, acts[0], first, n);
      IdsNeverCollide(key, After(key, s, acts[0]), acts[1..], first,
                      if acts[0].Start? && !Refused(key, acts[0]) then n + 1 else n);
    }
  }

  /** A new client's first 2^32 - 1 fragmented calls, and any number of raw ones. */
  lemma InterleavedPipe(p: Primitives, key: Key, acts: seq<Act>, clock: nat -> Reading)
    requires p.Lossless() && Starts(key, acts) <= 0xFFFF_FFFF
    requires Roomy(key, Sender(1, map[]), acts)
    ensures Possible(key, Sender(1, map[]), acts)
    ensures var s := Sender(1, map[]);
            Finally(key, s, acts).active == map[] && Punctual(key, s, acts, map[], clock, 0) ==>
              RecvMany(p, key, map[], AllWrote(p, key, s, acts), clock, 0, |AllDue(key, s, acts)|)
              == Inbox(AllOk(AllDue(key, s, acts)), map[], [])
  {
    var s := Sender(1, map[]);
    IdsNeverCollide(key, s, acts, 1, 0);
    if Finally(key, s, acts).active == map[] && Punctual(key, s, acts, map[], clock, 0) {
      InterleavedSends(p, key, s, acts, map[], map[], clock, 0);
    }
  }

  // ---------------------------------------------------------------------------
  // One call alone
  // ---------------------------------------------------------------------------

  /** The rest of a call that nothing interrupts. */
  function Rest(id: U32, n: nat): seq<Act> {
    if n == 0 then [] else [Continue(id)] + Rest(id, n - 1)
  }

  lemma {:induction false} RestWrites(p: Primitives, key: Key, s: Sender, id: U32, n: nat)
    requires id in s.active && UnderWay(s.active[id], id) && n == |s.active[id].transfer.chunks| - s.active[id].next
    ensures Possible(key, s, Rest(id, n))
    ensures var c := s.active[id];
            && AllWrote(p, key, s, Rest(id, n)) == TailBytes(p, key, c.target, c.transfer, c.next)
            && Finally(key, s, Rest(id, n)) == Sender(s.nextId, s.active - {id})
    decreases n
  {
    hide FragmentFrame, Framable;
    var c := s.active[id];
    assert Rest(id, n)[0] == Continue(id) && Rest(id, n)[1..] == Rest(id, n - 1);
    var s' := After(key, s, Continue(id));
    if n > 1 {
      RestWrites(p, key, s', id, n - 1);
      assert s'.active - {id} == s.active - {id};
    } else {
      assert Rest(id, 0) == [];
    }
  }

  lemma StartAlone(p: Primitives, key: Key, id: U32, target: Bytes, payload: Bytes, chunkSize: int)
    requires FragmentedError(false, payload, chunkSize).None?
    ensures var s, start, t := Sender(id, map[]), Start(target, payload, chunkSize), Cut(payload, chunkSize, id);
            && Framable(t) && t.streamId == id && |t.chunks| == FragmentCount(|payload|, chunkSize)
            && Can(key, s, start)
            && Wrote(p, key, s, start) == FragmentFrame(p, key, target, t, 0)
            && After(key, s, start)
               == Sender(NextStreamId(id), if |t.chunks| == 1 then map[] else map[id := Partial(target, t, 1)])
  {
    hide FragmentFrame, FragmentCount;
    CutIsValid(payload, chunkSize, id);
  }

  /** A fragmented send whose awaits nothing uses writes what the call on the client object writes. */
  lemma AloneWrites(p: Primitives, key: Key, id: U32, target: Bytes, payload: Bytes, chunkSize: int)
    requires FragmentedError(false, payload, chunkSize).None?
    ensures var acts := [Start(target, payload, chunkSize)] + Rest(id, FragmentCount(|payload|, chunkSize) - 1);
            && Possible(key, Sender(id, map[]), acts)
            && AllWrote(p, key, Sender(id, map[]), acts)
               == Join(Writes(p, key, id, Fragmented(target, payload, chunkSize)))
            && Finally(key, Sender(id, map[]), acts) == Sender(NextStreamId(id), map[])
  {
    StartAlone(p, key, id, target, payload, chunkSize);
    FragmentedWrites(p, key, id, target, payload, chunkSize);
    hide *;
    var t := Cut(payload, chunkSize, id);
    AloneFrom(p, key, Sender(id, map[]), Start(target, payload, chunkSize), Partial(target, t, 1), id);
  }

  lemma FragmentedWrites(p: Primitives, key: Key, id: U32, target: Bytes, payload: Bytes, chunkSize: int)
    requires FragmentedError(false, payload, chunkSize).None?
    ensures var t := Cut(payload, chunkSize, id);
            && Framable(t) && |t.chunks| > 0
            && Join(Writes(p, key, id, Fragmented(target, payload, chunkSize))) == TailBytes(p, key, target, t, 0)
  {
    hide FragmentFrame, FragmentCount;
    CutIsValid(payload, chunkSize, id);
    var t := Cut(payload, chunkSize, id);
    FramesAreTail(p, key, target, t, |t.chunks|);
  }

  lemma TailEnds(p: Primitives, key: Key, target: Bytes, t: Transfer)
    requires Framable(t)
    ensures TailBytes(p, key, target, t, |t.chunks|) == []
    ensures TailBytes(p, key, target, t, 0) == FragmentFrame(p, key, target, t, 0) + TailBytes(p, key, target, t, 1)
  {
  }

  lemma AloneFrom(p: Primitives, key: Key, s: Sender, start: Act, c: Partial, id: U32)
    requires Framable(c.transfer) && |c.transfer.chunks| > 0
    requires c.transfer.streamId == id && c.next == 1 && Can(key, s, start)
    requires Wrote(p, key, s, start) == FragmentFrame(p, key, c.target, c.transfer, 0)
    requires After(key, s, start)
          == Sender(NextStreamId(id), if |c.transfer.chunks| == 1 then map[] else map[id := c])
    ensures var acts := [start] + Rest(id, |c.transfer.chunks| - 1);
            && Possible(key, s, acts)
            && AllWrote(p, key, s, acts) == TailBytes(p, key, c.target, c.transfer, 0)
            && Finally(key, s, acts) == Sender(NextStreamId(id), map[])
  {
    hide FragmentFrame, Framable, After, Can, Wrote, TailBytes;
    var n := |c.transfer.chunks| - 1;
    var acts := [start] + Rest(id, n);
    var s' := After(key, s, start);
    TailEnds(p, key, c.target, c.transfer);
    assert acts[0] == start && acts[1..] == Rest(id, n);
    if n > 0 {
      RestWrites(p, key, s', id, n);
      assert s'.active - {id} == map[];
    } else {
      assert Rest(id, 0) == [];
    }
  }
}
