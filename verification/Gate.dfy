/** The confirmation gate of vynkor/confirmation_gate.py. */
module Gate {
  import opened Wrappers
  import opened Octets
  import opened PendingIds

  // ---------------------------------------------------------------------------
  // Requests, replies and library values
  // ---------------------------------------------------------------------------

  datatype Request = Request(actionId: string, action: string, params: Bytes, caller: string)

  datatype PendingAction = PendingAction(action: string, params: Bytes, caller: string, createdAt: real)

  type PendingMap = map<string, PendingAction>

  /** What `json.loads` makes of a byte string, as far as the gate looks; None is its exception. */
  datatype Json = JObject(fields: map<string, Json>) | JString(text: string) | JOther

  type JsonLoads = Bytes -> Option<Json>

  /** How one executor call ended: bytes, an (ok, value) pair, None, a string, another object, or an exception. */
  datatype ExecutorResult =
    | ReturnedBytes(data: Bytes)
    | ReturnedPair(ok: bool, value: PairValue)
    | ReturnedNone
    | ReturnedText(text: string)
    | ReturnedOther(converted: Result<Bytes, string>)    // `bytes(result)`, or the exception it raises
    | Raised(message: string)

  datatype PairValue = BytesValue(data: Bytes) | OtherValue(text: string, encoded: Bytes)

  datatype GateError =
    | PermissionDenied(caller: string)
    | InvalidParams
    | PendingIdMissing
    | NoPending(pendingId: string)
    | ExecutorFailed(message: string)
    | ExecutorRefused(value: PairValue)

  datatype Reply =
    | Stored(pendingId: string, action: string, ttlSecs: int)
    | Done(data: Bytes)
    | Failed(error: GateError)
    | UnknownAction

  datatype Response = Response(actionId: string, reply: Reply)

  // ---------------------------------------------------------------------------
  // Set-up
  // ---------------------------------------------------------------------------

  datatype SetupError = EmptyOp | BadOpCharacter | ReservedOpPrefix | EmptyDescription | NoConfirmCallers

  predicate OpCharacter(c: char) {
    'a' <= c <= 'z' || 'A' <= c <= 'Z' || '0' <= c <= '9' || c == '-' || c == '_'
  }

  const REQUEST := "request_"
  const CONFIRM := "confirm_"

  function ValidateOp(op: string): Option<SetupError> {
    if op == "" then Some(EmptyOp)
    else if exists c :: c in op && !OpCharacter(c) then Some(BadOpCharacter)
    else if REQUEST <= op || CONFIRM <= op then Some(ReservedOpPrefix)
    else None
  }

  /** The ValueError the constructor raises, if any. */
  function SetupErrorOf(op: string, description: string, confirmCallers: seq<string>): Option<SetupError> {
    if ValidateOp(op).Some? then ValidateOp(op)
    else if description == "" then Some(EmptyDescription)
    else if confirmCallers == [] then Some(NoConfirmCallers)
    else None
  }

  /** Which set-ups are in order, and what each of the others is told. */
  lemma SetupExactly(op: string, description: string, confirmCallers: seq<string>)
    ensures var error := SetupErrorOf(op, description, confirmCallers);
            if op == "" then error == Some(EmptyOp)
            else if exists c :: c in op && !('a' <= c <= 'z') && !('A' <= c <= 'Z') && !('0' <= c <= '9') && c !in "-_"
            then error == Some(BadOpCharacter)
            else if "request_" <= op || "confirm_" <= op then error == Some(ReservedOpPrefix)
            else if description == "" then error == Some(EmptyDescription)
            else if confirmCallers == [] then error == Some(NoConfirmCallers)
            else error == None
  {
  }

  datatype Config = Config(op: string, confirmCallers: seq<string>, ttl: real)

  // ---------------------------------------------------------------------------
  // Decisions that look at no state
  // ---------------------------------------------------------------------------

  /** `allowed` is a caller id, or a prefix with a trailing `.*` that admits every id under the dot. */
  predicate Admits(allowed: string, caller: string) {
    if |allowed| >= 2 && allowed[|allowed| - 2..] == ".*" then allowed[..|allowed| - 2] + "." <= caller
    else caller == allowed
  }

  /** `prefix.*` covers every id with something, possibly nothing, after the dot, and not the bare prefix. */
  lemma GlobCovers(prefix: string, caller: string)
    ensures Admits(prefix + ".*", caller) <==> exists cap: string :: caller == prefix + "." + cap
    ensures !Admits(prefix + ".*", prefix)
  {
    var allowed := prefix + ".*";
    assert allowed[|allowed| - 2..] == ".*" && allowed[..|allowed| - 2] == prefix;
    if prefix + "." <= caller {
      assert caller == prefix + "." + caller[|prefix| + 1..];
    }
  }

  lemma DotAfter(prefix: string, caller: string)
    ensures prefix + "." <= caller <==> prefix <= caller && |caller| > |prefix| && caller[|prefix|] == '.'
  {
    if prefix <= caller && |caller| > |prefix| && caller[|prefix|] == '.' {
      assert caller[..|prefix| + 1] == prefix + ".";
    }
    if prefix + "." <= caller {
      assert caller[..|prefix| + 1] == prefix + ".";
      assert caller[..|prefix|] == prefix;
    }
  }

  /** Whether a caller is on the allowlist: listed itself, or under the dot of a listed glob. */
  ghost predicate MayConfirmSpec(cfg: Config, caller: string) {
    caller in cfg.confirmCallers
    || exists prefix: string, cap: string :: prefix + ".*" in cfg.confirmCallers && caller == prefix + "." + cap
  }

  /** The entry-by-entry test comes to that. */
  lemma ListedExactly(cfg: Config, caller: string)
    ensures MayConfirmSpec(cfg, caller)
       <==> exists i :: 0 <= i < |cfg.confirmCallers| && Admits(cfg.confirmCallers[i], caller)
  {
    if i :| 0 <= i < |cfg.confirmCallers| && Admits(cfg.confirmCallers[i], caller) {
      var allowed := cfg.confirmCallers[i];
      if |allowed| >= 2 && allowed[|allowed| - 2..] == ".*" {
        var prefix := allowed[..|allowed| - 2];
        assert allowed == prefix + ".*" && caller == prefix + "." + caller[|prefix| + 1..];
      }
    }
    if MayConfirmSpec(cfg, caller) {
      SomeEntryAdmits(cfg, caller);
    }
  }

  lemma SomeEntryAdmits(cfg: Config, caller: string)
    requires MayConfirmSpec(cfg, caller)
    ensures exists i :: 0 <= i < |cfg.confirmCallers| && Admits(cfg.confirmCallers[i], caller)
  {
    if caller in cfg.confirmCallers {
      var i :| 0 <= i < |cfg.confirmCallers| && cfg.confirmCallers[i] == caller;
      if |caller| >= 2 && caller[|caller| - 2..] == ".*" {
        var prefix := caller[..|caller| - 2];
        assert caller == prefix + "." + "*";
      }
      assert Admits(cfg.confirmCallers[i], caller);
    } else {
      var prefix: string, cap: string :| prefix + ".*" in cfg.confirmCallers && caller == prefix + "." + cap;
      GlobCovers(prefix, caller);
      var i :| 0 <= i < |cfg.confirmCallers| && cfg.confirmCallers[i] == prefix + ".*";
      assert Admits(cfg.confirmCallers[i], caller);
    }
  }

  function ParsePendingId(loads: JsonLoads, params: Bytes): Result<string, GateError> {
    if params != [] && loads(params).None? then Err(InvalidParams)
    else
      var value := if params == [] then JObject(map[]) else loads(params).value;
      if value.JObject? && "pending_id" in value.fields && value.fields["pending_id"].JString?
         && value.fields["pending_id"].text != ""
      then Ok(value.fields["pending_id"].text)
      else Err(PendingIdMissing)
  }

  /** The parameters are a JSON object that names this id under "pending_id". */
  predicate NamesId(loads: JsonLoads, params: Bytes, id: string) {
    && params != [] && id != ""
    && loads(params).Some? && loads(params).value.JObject?
    && var fields := loads(params).value.fields; "pending_id" in fields && fields["pending_id"] == JString(id)
  }

  /** Exactly such parameters are taken to name an id; others are told whether they are no JSON or lack the id. */
  lemma NamedExactly(loads: JsonLoads, params: Bytes)
    ensures forall id :: ParsePendingId(loads, params) == Ok(id) <==> NamesId(loads, params, id)
    ensures ParsePendingId(loads, params) == Err(InvalidParams) <==> params != [] && loads(params).None?
    ensures ParsePendingId(loads, params) == Err(PendingIdMissing)
       <==> (params == [] || loads(params).Some?) && forall id :: !NamesId(loads, params, id)
  {
    if params != [] && loads(params).Some? && loads(params).value.JObject? {
      var fields := loads(params).value.fields;
      if "pending_id" in fields && fields["pending_id"].JString? && fields["pending_id"].text != "" {
        assert NamesId(loads, params, fields["pending_id"].text);
      }
    }
  }

  /** What `route` does with a request before it takes the lock. */
  datatype Intent = Refuse(reply: Reply) | Store | Take(pendingId: string)

  ghost function Classify(cfg: Config, loads: JsonLoads, req: Request): Intent {
    if REQUEST <= req.action then
      if req.action[|REQUEST|..] == cfg.op then Store else Refuse(UnknownAction)
    else if CONFIRM <= req.action then
      if req.action[|CONFIRM|..] != cfg.op then Refuse(UnknownAction)
      else if !MayConfirmSpec(cfg, req.caller) then Refuse(Failed(PermissionDenied(req.caller)))
      else
        match ParsePendingId(loads, req.params)
        case Err(e) => Refuse(Failed(e))
        case Ok(id) => Take(id)
    else Refuse(UnknownAction)
  }

  /** The gate answers to exactly two action names. Storing belongs to the one; taking to the other, for exactly the
      allowlisted callers that name an id; a confirm that is refused is told the first thing wrong with it. */
  lemma ClaimedNames(cfg: Config, loads: JsonLoads, req: Request)
    ensures Classify(cfg, loads, req) == Store <==> req.action == "request_" + cfg.op
    ensures forall id :: Classify(cfg, loads, req) == Take(id) <==>
              && req.action == "confirm_" + cfg.op && MayConfirmSpec(cfg, req.caller)
              && NamesId(loads, req.params, id)
    ensures Classify(cfg, loads, req) == Refuse(UnknownAction)
       <==> req.action != "request_" + cfg.op && req.action != "confirm_" + cfg.op
    ensures req.action == "confirm_" + cfg.op ==>
              if !MayConfirmSpec(cfg, req.caller) then
                Classify(cfg, loads, req) == Refuse(Failed(PermissionDenied(req.caller)))
              else if req.params != [] && loads(req.params).None? then
                Classify(cfg, loads, req) == Refuse(Failed(InvalidParams))
              else
                (forall id :: !NamesId(loads, req.params, id)) ==>
                  Classify(cfg, loads, req) == Refuse(Failed(PendingIdMissing))
  {
    NamedExactly(loads, req.params);
    hide ParsePendingId, NamesId, MayConfirmSpec;
    assert req.action == REQUEST + cfg.op ==> req.action[|REQUEST|..] == cfg.op;
    assert req.action == CONFIRM + cfg.op ==> req.action[|CONFIRM|..] == cfg.op && req.action[0] == 'c';
    assert REQUEST <= req.action ==> req.action == REQUEST + req.action[|REQUEST|..];
    assert CONFIRM <= req.action ==> req.action == CONFIRM + req.action[|CONFIRM|..];
  }

  /** What `bytes(text)` raises for a string. */
  const TEXT_TO_BYTES := "string argument without an encoding"

  function ExecutorReply(r: ExecutorResult): Reply {
    match r
    case ReturnedBytes(data) => Done(data)
    case ReturnedPair(true, BytesValue(data)) => Done(data)
    case ReturnedPair(true, OtherValue(_, encoded)) => Done(encoded)
    case ReturnedPair(false, value) => Failed(ExecutorRefused(value))
    case ReturnedNone => Done([])
    case ReturnedText(_) => Failed(ExecutorFailed(TEXT_TO_BYTES))
    case ReturnedOther(Ok(data)) => Done(data)
    case ReturnedOther(Err(message)) => Failed(ExecutorFailed(message))
    case Raised(message) => Failed(ExecutorFailed(message))
  }

  /** The error text an executor gives for its own failure. */
  function OwnError(r: ExecutorResult): Option<string> {
    match r
    case ReturnedPair(false, OtherValue(text, _)) => Some(text)
    case ReturnedText(text) => Some(text)
    case Raised(message) => Some(message)
    case _ => None
  }

  /** The text of the ACTION_ERROR that goes out, if one does. */
  function ErrorText(reply: Reply): Option<string> {
    match reply
    case Failed(ExecutorFailed(message)) => Some(message)
    case Failed(ExecutorRefused(OtherValue(text, _))) => Some(text)
    case _ => None
  }

  /** `int(ttl)`: towards zero. */
  function TtlSecs(ttl: real): int {
    if ttl >= 0.0 then ttl.Floor else -((-ttl).Floor)
  }

  // ---------------------------------------------------------------------------
  // The locked sections
  // ---------------------------------------------------------------------------

  /** `_sweep_expired_locked` */
  function Sweep(pending: PendingMap, ttl: real, now: real): PendingMap {
    map id | id in pending && now - pending[id].createdAt < ttl :: pending[id]
  }

  /** The clock readings of one locked section. */
  datatype Readings = Readings(sweep: real, wallMs: int, created: real)

  function EntryOf(req: Request, created: real): PendingAction {
    PendingAction(req.action, req.params, req.caller, created)
  }

  /** `_store_request` with sequence number `n` */
  function StoreInto(pending: PendingMap, cfg: Config, req: Request, n: nat, at: Readings): PendingMap {
    Sweep(pending, cfg.ttl, at.sweep)[PendingId(at.wallMs, n) := EntryOf(req, at.created)]
  }

  /** `_take_pending` */
  function TakeFrom(pending: PendingMap, cfg: Config, id: string, now: real): (PendingMap, Option<PendingAction>) {
    var live := Sweep(pending, cfg.ttl, now);
    if id in live then (live - {id}, Some(live[id])) else (live, None)
  }

  /** A take that goes by the age of the entry and sweeps nothing. */
  function TakeYoung(entries: PendingMap, ttl: real, id: string, now: real): (PendingMap, Option<PendingAction>) {
    if id in entries && now < entries[id].createdAt + ttl then (entries - {id}, Some(entries[id])) else (entries, None)
  }

  /** One whole `route` call, were it alone: the entries left, the next sequence number, the reply, and the parameters
      the executor was called with, if it was. `result` is how the executor ends if it is called. */
  datatype Routed = Routed(pending: PendingMap, next: nat, reply: Reply, executed: Option<Bytes>)

  ghost function RouteSpec(cfg: Config, loads: JsonLoads, pending: PendingMap, next: nat, req: Request, at: Readings,
                           result: ExecutorResult): Routed
  {
    match Classify(cfg, loads, req)
    case Refuse(reply) => Routed(pending, next, reply, None)
    case Store =>
      Routed(StoreInto(pending, cfg, req, next, at), next + 1,
             Stored(PendingId(at.wallMs, next), req.action, TtlSecs(cfg.ttl)), None)
    case Take(id) =>
      var (left, taken) := TakeFrom(pending, cfg, id, at.sweep);
      if taken.None? then Routed(left, next, Failed(NoPending(id)), None)
      else Routed(left, next, ExecutorReply(result), Some(taken.value.params))
  }

  /** What a call that executes nothing leaves and replies: a refused one touches nothing, and a confirm whose id is not
      there to take says so. */
  lemma RefusedOrMissing(cfg: Config, loads: JsonLoads, pending: PendingMap, next: nat, req: Request, at: Readings,
                         result: ExecutorResult)
    ensures var r := RouteSpec(cfg, loads, pending, next, req, at, result);
            match Classify(cfg, loads, req) {
              case Refuse(reply) => r == Routed(pending, next, reply, None)
              case Take(id) =>
                && r.next == next
                && (r.executed == None <==> !(id in pending && at.sweep < pending[id].createdAt + cfg.ttl))
                && (r.executed == None ==> r.reply == Failed(NoPending(id)))
                && (r.executed.Some? ==> r.executed == Some(pending[id].params) && id !in r.pending)
              case Store => r.executed == None
            }
  {
    hide Classify, PendingId;
  }

  /** A `route` call whose executor fails always replies with an error; the reply carries the executor's own text if and
      only if the executor raised it or returned it in a pair, not as a bare string (unless that is the very text of the
      TypeError). */
  lemma OwnErrorReaches(cfg: Config, loads: JsonLoads, pending: PendingMap, next: nat, req: Request, at: Readings,
                        result: ExecutorResult)
    ensures var r := RouteSpec(cfg, loads, pending, next, req, at, result);
            r.executed.Some? && OwnError(result).Some? ==>
              && ErrorText(r.reply).Some?
              && (ErrorText(r.reply) == OwnError(result) <==> (result.ReturnedText? ==> result.text == TEXT_TO_BYTES))
              && (result.ReturnedText? ==> ErrorText(r.reply) == Some(TEXT_TO_BYTES))
  {
    hide Classify, PendingId;
  }

  /** Every entry carries an id that was printed from a sequence number already used. */
  ghost predicate IssuedBefore(pending: PendingMap, next: nat) {
    forall id :: id in pending ==> exists ms, n: nat :: n < next && id == PendingId(ms, n)
  }

  lemma FreshId(pending: PendingMap, next: nat, ms: int)
    requires IssuedBefore(pending, next)
    ensures PendingId(ms, next) !in pending
  {
    if PendingId(ms, next) in pending {
      var ms', n: nat :| n < next && PendingId(ms, next) == PendingId(ms', n);
      PendingIdInjective(ms, next, ms', n);
    }
  }

  /** An executor that succeeds has its data sent: bytes as they are, alone or in a true pair, a true pair's other value
      encoded, None as nothing. Success is replied exactly then, or when another object converts to bytes. */
  lemma OwnDataReaches(cfg: Config, loads: JsonLoads, pending: PendingMap, next: nat, req: Request, at: Readings,
                       result: ExecutorResult)
    ensures var r := RouteSpec(cfg, loads, pending, next, req, at, result);
            r.executed.Some? ==>
              && (forall data :: result == ReturnedBytes(data) ==> r.reply == Done(data))
              && (forall data :: result == ReturnedPair(true, BytesValue(data)) ==> r.reply == Done(data))
              && (forall data :: result == ReturnedOther(Ok(data)) ==> r.reply == Done(data))
              && (forall text, data :: result == ReturnedPair(true, OtherValue(text, data)) ==> r.reply == Done(data))
              && (result == ReturnedNone ==> r.reply == Done([]))
              && (r.reply.Done? <==> OwnError(result).None? && !(result.ReturnedPair? && !result.ok)
                                     && !(result.ReturnedOther? && result.converted.Err?))
  {
    hide Classify, PendingId;
  }

  /** A request from any caller is stored under a fresh id, which is what it is told; nothing younger than the time to live
      is disturbed, and nothing is executed. */
  lemma RequestIsStored(cfg: Config, loads: JsonLoads, pending: PendingMap, next: nat, req: Request, at: Readings,
                        result: ExecutorResult)
    requires IssuedBefore(pending, next) && req.action == "request_" + cfg.op
    ensures var r := RouteSpec(cfg, loads, pending, next, req, at, result);
            && r.reply.Stored? && r.executed == None && r.next == next + 1
            && var id := r.reply.pendingId;
            && id !in pending && id in r.pending && r.reply.action == req.action
            && (cfg.ttl >= 0.0 ==> r.reply.ttlSecs as real <= cfg.ttl < r.reply.ttlSecs as real + 1.0)
            && (cfg.ttl < 0.0 ==> r.reply.ttlSecs as real - 1.0 < cfg.ttl <= r.reply.ttlSecs as real)
            && r.pending[id].action == req.action && r.pending[id].params == req.params
            && r.pending[id].caller == req.caller && r.pending[id].createdAt == at.created
            && (forall k :: k in r.pending && k != id ==> k in pending && r.pending[k] == pending[k])
            && (forall k :: k in pending ==> (k in r.pending <==> at.sweep < pending[k].createdAt + cfg.ttl))
  {
    ClaimedNames(cfg, loads, req);
    FreshId(pending, next, at.wallMs);
    hide Classify, PendingId, IssuedBefore;
  }

  // ---------------------------------------------------------------------------
  // The gate object
  // ---------------------------------------------------------------------------

  /** The module's `itertools.count()`, shared by every gate. */
  class Counter {
    var next: nat

    constructor ()
      ensures next == 0
    {
      next := 0;
    }

    method Next() returns (n: nat)
      modifies this
      ensures n == old(next) && next == old(next) + 1
    {
      n := next;
      next := next + 1;
    }
  }

  class ConfirmationGate {
    const op: string
    const confirmCallers: seq<string>
    const counter: Counter
    var ttl: real
    var pending: PendingMap

    function Cfg(): Config
      reads this
    {
      Config(op, confirmCallers, ttl)
    }

    /** No id can be issued twice. */
    ghost predicate Valid()
      reads this, counter
    {
      IssuedBefore(pending, counter.next)
    }

    constructor (op: string, description: string, confirmCallers: seq<string>, counter: Counter)
      requires SetupErrorOf(op, description, confirmCallers).None?
      ensures Valid() && pending == map[] && Cfg() == Config(op, confirmCallers, 300.0) && this.counter == counter
    {
      this.op, this.confirmCallers, this.counter := op, confirmCallers, counter;
      ttl := 300.0;
      pending := map[];
    }

    method WithPendingTtl(ttl: real)
      requires Valid()
      modifies this`ttl
      ensures Valid() && this.ttl == ttl
    {
      this.ttl := ttl;
    }

    /** `may_confirm` */
    method MayConfirm(caller: string) returns (b: bool)
      ensures b <==> MayConfirmSpec(Cfg(), caller)
    {
      ListedExactly(Cfg(), caller);
      hide MayConfirmSpec;
      for i := 0 to |confirmCallers|
        invariant forall k :: 0 <= k < i ==> !Admits(confirmCallers[k], caller)
      {
        var allowed := confirmCallers[i];
        if |allowed| >= 2 && allowed[|allowed| - 2..] == ".*" {
          var prefix := allowed[..|allowed| - 2];
          DotAfter(prefix, caller);
          if prefix <= caller && |caller| > |prefix| && caller[|prefix|] == '.' {
            return true;
          }
        } else if caller == allowed {
          return true;
        }
      }
      return false;
    }

    /** `_sweep_expired_locked` */
    method SweepExpired(now: real)
      modifies this`pending
      ensures pending == Sweep(old(pending), ttl, now)
    {
      var stale := set id | id in pending && now - pending[id].createdAt >= ttl;
      var remaining := stale;
      while remaining != {}
        invariant remaining <= stale && remaining <= pending.Keys
        invariant pending == old(pending) - (stale - remaining)
      {
        var id :| id in remaining;
        pending := pending - {id};
        remaining := remaining - {id};
      }
    }

    /** `_store_request`: the id it hands out was in use by no live entry. */
    method StoreRequest(req: Request, at: Readings) returns (id: string)
      requires Valid()
      modifies this`pending, counter
      ensures Valid()
      ensures id == PendingId(at.wallMs, old(counter.next)) && id !in old(pending)
      ensures pending == StoreInto(old(pending), Cfg(), req, old(counter.next), at)
      ensures counter.next == old(counter.next) + 1
    {
      FreshId(pending, counter.next, at.wallMs);
      SweepExpired(at.sweep);
      var n := counter.Next();
      id := PendingId(at.wallMs, n);
      pending := pending[id := EntryOf(req, at.created)];
    }

    /** `_take_pending`; None is its ValueError. */
    method TakePending(id: string, now: real) returns (taken: Option<PendingAction>)
      requires Valid()
      modifies this`pending
      ensures Valid()
      ensures (pending, taken) == TakeFrom(old(pending), Cfg(), id, now)
    {
      SweepExpired(now);
      if id !in pending {
        return None;
      }
      taken := Some(pending[id]);
      pending := pending - {id};
    }

    /** `route`, run without another task in between. */
    method Route(loads: JsonLoads, req: Request, at: Readings, executor: Bytes -> ExecutorResult)
      returns (response: Response, ghost executed: Option<Bytes>)
      requires Valid()
      modifies this`pending, counter
      ensures Valid()
      ensures response.actionId == req.actionId
      ensures var result := if executed.Some? then executor(executed.value) else ReturnedNone;
              Routed(pending, counter.next, response.reply, executed)
              == RouteSpec(old(Cfg()), loads, old(pending), old(counter.next), req, at, result)
    {
      executed := None;
      if REQUEST <= req.action {
        if req.action[|REQUEST|..] != op {
          return Response(req.actionId, UnknownAction), None;
        }
        var id := StoreRequest(req, at);
        return Response(req.actionId, Stored(id, req.action, TtlSecs(ttl))), None;
      }
      if CONFIRM <= req.action {
        if req.action[|CONFIRM|..] != op {
          return Response(req.actionId, UnknownAction), None;
        }
        var may := MayConfirm(req.caller);
        if !may {
          return Response(req.actionId, Failed(PermissionDenied(req.caller))), None;
        }
        var id := ParsePendingId(loads, req.params);
        if id.Err? {
          return Response(req.actionId, Failed(id.error)), None;
        }
        var taken := TakePending(id.value, at.sweep);
        if taken.None? {
          return Response(req.actionId, Failed(NoPending(id.value))), None;
        }
        var result := executor(taken.value.params);
        return Response(req.actionId, ExecutorReply(result)), Some(taken.value.params);
      }
      return Response(req.actionId, UnknownAction), None;
    }
  }

  /** `ConfirmationGate(...)`: a gate, or the ValueError of a set-up that is not in order. */
  method NewGate(op: string, description: string, confirmCallers: seq<string>, counter: Counter)
    returns (r: Result<ConfirmationGate, SetupError>)
    ensures match SetupErrorOf(op, description, confirmCallers) {
              case Some(e) => r == Err(e)
              case None =>
                && r.Ok? && fresh(r.value) && r.value.Valid() && r.value.counter == counter
                && r.value.pending == map[] && r.value.Cfg() == Config(op, confirmCallers, 300.0)
            }
  {
    var error := SetupErrorOf(op, description, confirmCallers);
    if error.Some? {
      return Err(error.value);
    }
    var gate := new ConfirmationGate(op, description, confirmCallers, counter);
    return Ok(gate);
  }
}
