/** The immediate swapper: it repeats the pass of every swap in its map until the swap finishes. */
module Immediate {
  import opened Common
  import opened Swaps
  import opened Ledger
  import opened CostLedger
  import opened Contracts
  import opened Passes
  import opened TickLoops
  import Costs
  import Tasks
  import TaskSystem

  datatype SwapRequest = SwapRequest(blob: SwapBlob, sendCost: Cost, receiveCost: Cost)

  datatype Message =
    | ReceiptUpdate(id: SwapID, status: Status, sendCost: CostBlob, receiveCost: CostBlob)
    | ErrorMessage
    | DeleteSwap(id: SwapID)

  datatype Incoming = NewRequest(req: SwapRequest) | Tick

  function ToDown(m: Incoming): Tasks.Down {
    match m
    case NewRequest(req) => Tasks.Request(req.blob)
    case Tick => Tasks.TickDown
  }

  function ToUp(m: Message): Tasks.Up {
    match m
    case ReceiptUpdate(id, status, _, _) => Tasks.Receipt(id, Tasks.Became(status))
    case ErrorMessage => Tasks.Failure
    case DeleteSwap(id) => Tasks.Delete(id)
  }

  function ToUps(ms: seq<Message>): seq<Tasks.Up> {
    seq(|ms|, i requires 0 <= i < |ms| => ToUp(ms[i]))
  }

  function Blobs(m: map<SwapID, SwapRequest>): map<SwapID, SwapBlob> {
    map id | id in m :: m[id].blob
  }

  /** An error from Refund is taken to mean that nothing was refunded. */
  predicate CleanRefund(env: Env) {
    env.refund.failed <==> !env.refund.effect
  }

  function PassesOf(envs: SwapBlob -> Env): SwapBlob -> Tasks.Pass {
    (blob: SwapBlob) => PassOf(blob, envs(blob))
  }

  /** The requests whose pass did not end the swap. */
  function Unfinished(requests: map<SwapID, SwapBlob>, envs: SwapBlob -> Env): map<SwapID, SwapBlob> {
    map id | id in requests && !PassOf(requests[id], envs(requests[id])).Finish? :: requests[id]
  }

  lemma TickKeepsUnfinished(c: Tasks.Child, walk: seq<SwapID>, envs: SwapBlob -> Env)
    requires Keyed(c.live) && Walks(walk, c.live)
    ensures Tasks.HandleAll(c, walk, Tasks.ImmediateEffects(PassesOf(envs))).live == Unfinished(c.live, envs)
    ensures Keyed(Unfinished(c.live, envs))
  {
    var effect := Tasks.ImmediateEffects(PassesOf(envs));
    EveryRequestOnce(c, walk, effect);
    forall id | id in c.live
      ensures effect(c.live[id]).fate.Released? <==> PassOf(c.live[id], envs(c.live[id])).Finish?
    {
      ReleasedIffFinished(c.live[id], PassOf(c.live[id], envs(c.live[id])));
    }
  }

  lemma ReleasedIffFinished(blob: SwapBlob, pass: Tasks.Pass)
    ensures Tasks.ImmediateEffect(blob, pass).fate.Released? <==> pass.Finish?
  {
  }

  /** The messages of a reported pass, seen by the task system. */
  lemma MessagesOfPass(blob: SwapBlob, r: Passes.Result, auditFailed: bool, send: CostBlob, receive: CostBlob)
    requires r.done <==> Ending(r.status)
    ensures var ms := [ReceiptUpdate(blob.id, r.status, send, receive)]
                      + (if ReportsError(r.status, auditFailed) then [ErrorMessage] else [])
                      + (if r.done then [DeleteSwap(blob.id)] else []);
            && ToUps(ms) == Tasks.ImmediateEffect(blob, PassFrom(r, auditFailed)).ups
            && Tasks.ImmediateEffect(blob, PassFrom(r, auditFailed)).fate
                 == if r.done then Tasks.Released else Tasks.Held
  {
  }

  lemma BlobsOf(m: map<SwapID, SwapRequest>, id: SwapID, req: SwapRequest)
    ensures Blobs(m[id := req]) == Blobs(m)[id := req.blob]
    ensures Blobs(m - {id}) == Blobs(m) - {id}
  {
  }

  class Swapper {
    const sha3: string -> Bytes
    var swapMap: map<SwapID, SwapRequest>

    ghost function State(ms: seq<Message>): Tasks.Child
      reads this
    {
      Tasks.Child([], Blobs(swapMap), ToUps(ms))
    }

    constructor (sha3: string -> Bytes)
      ensures this.sha3 == sha3 && swapMap == map[]
    {
      this.sha3, swapMap := sha3, map[];
    }

    /** The receipt carries both recorded costs; a request that stays keeps them for the next pass. */
    method HandleResult(req: SwapRequest, status: Status, native: HtlcContract, foreign: HtlcContract,
                        error: bool, remove: bool)
      returns (messages: seq<Message>)
      modifies this
      ensures swapMap == if remove then old(swapMap) - {req.blob.id}
                         else old(swapMap)[req.blob.id := req.(sendCost := native.cost, receiveCost := foreign.cost)]
      ensures messages ==
              [ReceiptUpdate(req.blob.id, status, Costs.ToBlob(native.cost), Costs.ToBlob(foreign.cost))]
              + (if error then [ErrorMessage] else [])
              + (if remove then [DeleteSwap(req.blob.id)] else [])
    {
      var send := Costs.CostToCostBlob(native.cost);
      var receive := Costs.CostToCostBlob(foreign.cost);
      messages := [ReceiptUpdate(req.blob.id, status, send, receive)];
      if error {
        messages := messages + [ErrorMessage];
      }
      if remove {
        swapMap := swapMap - {req.blob.id};
        return messages + [DeleteSwap(req.blob.id)];
      }
      swapMap := swapMap[req.blob.id := req.(sendCost := native.cost, receiveCost := foreign.cost)];
    }

    /** The contracts are the two sides the world built for this pass. */
    ghost predicate Facing(native: HtlcContract, foreign: HtlcContract, env: Env)
      reads native, foreign
    {
      && native != foreign && native.Valid() && foreign.Valid()
      && native.terms == env.native.terms && foreign.terms == env.foreign.terms
      && native.spender == env.native.spender && foreign.spender == env.foreign.spender
      && native.value == env.native.agreed + native.terms.brokerFee
      && foreign.value == env.foreign.agreed + foreign.terms.brokerFee
      && native.htlc == env.native.record && foreign.htlc == env.foreign.record
    }

    /** The pass left the records, the messages and the map as `r` says. */
    twostate predicate Reported(blob: SwapBlob, native: HtlcContract, foreign: HtlcContract, env: Env,
                                r: Passes.Result, messages: seq<Message>)
      reads this, native, foreign
    {
      && native.Valid() && foreign.Valid()
      && native.htlc == r.native && foreign.htlc == r.foreign
      && messages ==
         [ReceiptUpdate(blob.id, r.status, Costs.ToBlob(native.cost), Costs.ToBlob(foreign.cost))]
         + (if ReportsError(r.status, AuditFails(env.foreign.record, env.foreign, env.audit)) then [ErrorMessage]
           else [])
         + (if r.done then [DeleteSwap(blob.id)] else [])
      && swapMap == if r.done then old(swapMap) - {blob.id}
                    else old(swapMap)[blob.id := SwapRequest(blob, native.cost, foreign.cost)]
    }

    /** The calls of `initiate`, in order, each only after the one before succeeded. */
    method InitiateCalls(secret: Bytes, native: HtlcContract, foreign: HtlcContract, env: Env)
      returns (status: Status, error: bool, remove: bool)
      requires Facing(native, foreign, env) && CleanRefund(env) && secret == foreign.terms.preimage
      requires native.terms.timeLock == foreign.terms.timeLock
      modifies native, foreign
      ensures native.Valid() && foreign.Valid()
      ensures Passes.Result(native.htlc, foreign.htlc, status, remove) == IniOutcome(env)
      ensures error == ReportsError(status, AuditFails(env.foreign.record, env.foreign, env.audit))
    {
      status, error, remove := Inactive, true, false;
      var ok := Fund(native, env.approve, env.initiate);
      if ok {
        var audit := foreign.Audit(env.now, env.audit);
        if audit == AuditWaits {
          status, error := AuditPending, false;
        } else if audit == AuditExpired {
          status, error, remove := TakeBack(native, env.now, env.refund);
        } else if audit == AuditError {
          status := AuditPending;
        } else {
          ok := Claim(foreign, secret, env.redeem);
          status, error, remove := if ok then Redeemed else Audited, !ok, ok;
        }
      }
    }

    /** The calls of `respond`. */
    method RespondCalls(native: HtlcContract, foreign: HtlcContract, env: Env)
      returns (status: Status, error: bool, remove: bool)
      requires Facing(native, foreign, env) && CleanRefund(env)
      requires native.terms.timeLock == foreign.terms.timeLock
      modifies native, foreign
      ensures native.Valid() && foreign.Valid()
      ensures Passes.Result(native.htlc, foreign.htlc, status, remove) == ResOutcome(env)
      ensures error == ReportsError(status, AuditFails(env.foreign.record, env.foreign, env.audit))
    {
      var audit := foreign.Audit(env.now, env.audit);
      if audit == AuditWaits {
        return AuditPending, false, false;
      } else if audit == AuditExpired {
        return Expiration, true, true;
      } else if audit == AuditError {
        return AuditPending, true, false;
      }
      var ok := Fund(native, env.approve, env.initiate);
      if !ok {
        return Audited, true, false;
      }
      status, error, remove := RevealCalls(native, foreign, env);
    }

    /** The rest of them, once the responder's own contract is open. */
    method RevealCalls(native: HtlcContract, foreign: HtlcContract, env: Env)
      returns (status: Status, error: bool, remove: bool)
      requires native != foreign && native.Valid() && foreign.Valid() && CleanRefund(env)
      requires native.terms == env.native.terms && foreign.terms == env.foreign.terms
      requires foreign.htlc == env.foreign.record
      requires !AuditFails(env.foreign.record, env.foreign, env.audit)
      modifies native, foreign
      ensures native.Valid() && foreign.Valid()
      ensures Passes.Result(native.htlc, foreign.htlc, status, remove) == ResReveal(old(native.htlc), env)
      ensures error == ReportsError(status, false)
    {
      var secret := native.AuditSecret(env.now, env.redeemable, env.secret);
      match secret {
        case Ok(key) =>
          var ok := Claim(foreign, key, env.redeem);
          return if ok then Redeemed else AuditedSecret, !ok, ok;
        case Err(e) =>
          if e == AuditWaits {
            return AuditPending, false, false;
          } else if e != AuditExpired {
            return Initiated, true, false;
          }
          status, error, remove := TakeBack(native, env.now, env.refund);
      }
    }

    method Initiate(req: SwapRequest, native: HtlcContract, foreign: HtlcContract, env: Env)
      returns (messages: seq<Message>)
      requires req.blob.shouldInitiateFirst && Proper(sha3, req.blob, env)
      requires Facing(native, foreign, env)
      modifies this, native, foreign
      ensures Reported(req.blob, native, foreign, env, ResultOf(req.blob, env), messages)
    {
      var status, error, remove := InitiateCalls(Secret(sha3, req.blob.password, req.blob.id), native, foreign, env);
      IniOutcomeIsPass(sha3, req.blob, env);
      messages := HandleResult(req, status, native, foreign, error, remove);
    }

    method Respond(req: SwapRequest, native: HtlcContract, foreign: HtlcContract, env: Env)
      returns (messages: seq<Message>)
      requires !req.blob.shouldInitiateFirst && Proper(sha3, req.blob, env)
      requires Facing(native, foreign, env)
      modifies this, native, foreign
      ensures Reported(req.blob, native, foreign, env, ResultOf(req.blob, env), messages)
    {
      var status, error, remove := RespondCalls(native, foreign, env);
      ResOutcomeIsPass(sha3, req.blob, env);
      messages := HandleResult(req, status, native, foreign, error, remove);
    }

    /** One pass over freshly built contracts; `send` and `receive` are the costs it ends with. */
    method RunPass(req: SwapRequest, env: Env) returns (messages: seq<Message>, ghost send: Cost, ghost receive: Cost)
      requires Proper(sha3, req.blob, env)
      modifies this
      ensures var r := ResultOf(req.blob, env);
              && messages ==
                 [ReceiptUpdate(req.blob.id, r.status, Costs.ToBlob(send), Costs.ToBlob(receive))]
                 + (if ReportsError(r.status, AuditFails(env.foreign.record, env.foreign, env.audit))
                   then [ErrorMessage] else [])
                 + (if r.done then [DeleteSwap(req.blob.id)] else [])
              && swapMap == if r.done then old(swapMap) - {req.blob.id}
                            else old(swapMap)[req.blob.id := SwapRequest(req.blob, send, receive)]
      ensures Continues(req.sendCost, send, env.native.terms) && Continues(req.receiveCost, receive, env.foreign.terms)
    {
      var n, f := env.native, env.foreign;
      var native := new HtlcContract(n.terms, n.spender, n.agreed, n.record, req.sendCost);
      var foreign := new HtlcContract(f.terms, f.spender, f.agreed, f.record, req.receiveCost);
      if req.blob.shouldInitiateFirst {
        messages := Initiate(req, native, foreign, env);
      } else {
        messages := Respond(req, native, foreign, env);
      }
      send, receive := native.cost, foreign.cost;
      BalancedContinues(req.sendCost, native.start, native.State(), n.terms);
      BalancedContinues(req.receiveCost, foreign.start, foreign.State(), f.terms);
    }

    /**
     A request whose contracts cannot be built is answered with an error and nothing else. One that
     stays after its pass stays with the costs it had, and what the pass has added to them.
     */
    method HandleSwap(req: SwapRequest, env: Env, ghost pass: Tasks.Pass) returns (messages: seq<Message>)
      requires Proper(sha3, req.blob, env) && pass == PassOf(req.blob, env)
      modifies this
      ensures Blobs(swapMap) == Tasks.Handle(old(State([])), req.blob, Tasks.ImmediateEffect(req.blob, pass)).live
      ensures ToUps(messages) == Tasks.ImmediateEffect(req.blob, pass).ups
      ensures env.built && req.blob.id in swapMap ==>
                var left := swapMap[req.blob.id];
                && left.blob == req.blob
                && Continues(req.sendCost, left.sendCost, env.native.terms)
                && Continues(req.receiveCost, left.receiveCost, env.foreign.terms)
      ensures !env.built ==> swapMap == old(swapMap)
    {
      if !env.built {
        assert [Tasks.Failure] == ToUps([ErrorMessage]);
        return [ErrorMessage];
      }
      ghost var send, receive;
      messages, send, receive := RunPass(req, env);
      PassEndsRight(sha3, req.blob, env);
      MessagesOfPass(req.blob, ResultOf(req.blob, env), AuditFails(env.foreign.record, env.foreign, env.audit),
                     Costs.ToBlob(send), Costs.ToBlob(receive));
      BlobsOf(old(swapMap), req.blob.id, SwapRequest(req.blob, send, receive));
    }

    /** Walks the map in an arbitrary order while entries are rewritten and deleted. */
    method HandleTick(envs: SwapBlob -> Env) returns (messages: seq<Message>, ghost walk: seq<SwapID>)
      requires Keyed(Blobs(swapMap))
      requires forall id | id in Blobs(swapMap) :: Proper(sha3, Blobs(swapMap)[id], envs(Blobs(swapMap)[id]))
      modifies this
      ensures Walks(walk, old(Blobs(swapMap))) && Keyed(Blobs(swapMap))
      ensures State(messages) == Tasks.HandleAll(old(State([])), walk, Tasks.ImmediateEffects(PassesOf(envs)))
      ensures Blobs(swapMap) == Unfinished(old(Blobs(swapMap)), envs)
    {
      ghost var start := State([]);
      messages, walk := Walk(envs, start);
      TickKeepsUnfinished(start, walk, envs);
    }

    /** One message from the parent: a turn of the immediate child in the task system. */
    method Reduce(msg: Incoming, envs: SwapBlob -> Env) returns (messages: seq<Message>, ghost walk: seq<SwapID>)
      requires Keyed(Blobs(swapMap))
      requires forall id | id in Blobs(swapMap) :: Proper(sha3, Blobs(swapMap)[id], envs(Blobs(swapMap)[id]))
      requires msg.NewRequest? ==> Proper(sha3, msg.req.blob, envs(msg.req.blob))
      modifies this
      ensures msg.Tick? ==> Walks(walk, old(Blobs(swapMap)))
      ensures State(messages) == TaskSystem.RunChild(Tasks.Child([ToDown(msg)], old(Blobs(swapMap)), []),
                                                     Tasks.ImmediateEffects(PassesOf(envs)), walk)
    {
      assert [ToDown(msg)][1..] == [];
      match msg
      case NewRequest(req) =>
        messages := HandleSwap(req, envs(req.blob), PassesOf(envs)(req.blob));
        walk := [];
      case Tick => messages, walk := HandleTick(envs);
    }

    method Walk(envs: SwapBlob -> Env, ghost start: Tasks.Child)
        returns (messages: seq<Message>, ghost walk: seq<SwapID>)
      requires start == State([]) && Keyed(start.live)
      requires forall id | id in start.live :: Proper(sha3, start.live[id], envs(start.live[id]))
      modifies this
      ensures Walks(walk, start.live)
      ensures State(messages) == Tasks.HandleAll(start, walk, Tasks.ImmediateEffects(PassesOf(envs)))
    {
      ghost var effect := Tasks.ImmediateEffects(PassesOf(envs));
      ghost var at := start;
      var todo := swapMap.Keys;
      messages, walk := [], [];
      while todo != {}
        invariant Walking(start, todo, walk)
        invariant at == State(messages) && at == Tasks.HandleAll(start, walk, effect)
        decreases |todo|
      {
        var id :| id in todo;
        WalkStep(start, todo, walk, id, effect);
        assert id in Blobs(swapMap);
        var blob := swapMap[id].blob;
        assert effect(blob) == Tasks.ImmediateEffect(blob, PassesOf(envs)(blob));
        messages := HandleOne(id, envs(blob), messages, PassesOf(envs)(blob));
        at := Tasks.Handle(at, blob, effect(blob));
        todo, walk := todo - {id}, walk + [id];
      }
      WalkEnd(start, walk);
    }

    /** One turn of the walk. */
    method HandleOne(id: SwapID, env: Env, before: seq<Message>, ghost pass: Tasks.Pass)
      returns (messages: seq<Message>)
      requires id in swapMap && Proper(sha3, swapMap[id].blob, env) && pass == PassOf(swapMap[id].blob, env)
      modifies this
      ensures State(messages) ==
              Tasks.Handle(old(State(before)), old(swapMap[id].blob),
                Tasks.ImmediateEffect(old(swapMap[id].blob), pass))
    {
      var more := HandleSwap(swapMap[id], env, pass);
      messages := before + more;
      assert ToUps(messages) == ToUps(before) + ToUps(more);
    }

    method TakeBack(native: HtlcContract, now: int, tx: Tx) returns (status: Status, error: bool, remove: bool)
      requires native.Valid()
      modifies native
      ensures native.Valid() && native.htlc == RecordAfter(old(native.htlc), native.terms, Refunds(now, tx))
      ensures remove == Succeeds(old(native.htlc), native.terms, Refunds(now, tx))
      ensures status == (if remove then Refunded else RefundFailed) && error == !remove
    {
      var ok := native.Refund(now, tx);
      RecordOfAfter(old(native.State()), native.terms, Refunds(now, tx));
      return if ok then Refunded else RefundFailed, !ok, ok;
    }

    method Fund(native: HtlcContract, approve: Tx, tx: Tx) returns (ok: bool)
      requires native.Valid()
      modifies native
      ensures native.Valid() && native.htlc == RecordAfter(old(native.htlc), native.terms, Initiates(approve, tx))
      ensures ok == Succeeds(old(native.htlc), native.terms, Initiates(approve, tx))
    {
      ok := native.Initiate(approve, tx);
      RecordOfAfter(old(native.State()), native.terms, Initiates(approve, tx));
    }

    method Claim(foreign: HtlcContract, key: Bytes, tx: Tx) returns (ok: bool)
      requires foreign.Valid()
      modifies foreign
      ensures foreign.Valid() && foreign.htlc == RecordAfter(old(foreign.htlc), foreign.terms, Redeems(key, tx))
      ensures ok == Succeeds(old(foreign.htlc), foreign.terms, Redeems(key, tx))
    {
      ok := foreign.Redeem(key, tx);
      RecordOfAfter(old(foreign.State()), foreign.terms, Redeems(key, tx));
    }
  }
}
