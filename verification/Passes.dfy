/**
 One uninterrupted pass of a daemon over its two contracts, as a run of the protocol: the
 answers of the outside world are fixed in advance, and each call is one protocol step.
 */
module Passes {
  import opened Common
  import opened Swaps
  import opened Ledger
  import opened Protocol
  import opened CostLedger
  import opened Contracts
  import Tasks

  /** One contract the builder hands out: its terms, whom it pays, the agreed amount, its record. */
  datatype Side = Side(terms: Terms, spender: string, agreed: int, record: Htlc)

  /** What the world answers during one pass. */
  datatype Env = Env(
    native: Side, foreign: Side, built: bool, now: int,
    approve: Tx, initiate: Tx, audit: Queries, redeemable: bool, secret: bool, redeem: Tx, refund: Tx)

  function Secret(sha3: string -> Bytes, password: string, id: SwapID): Bytes {
    sha3(password + id)
  }

  /**
   Both contracts have the swap's time lock; an initiator's hash was made from its own secret;
   a Refund that returns an error had no effect.
   */
  predicate Proper(sha3: string -> Bytes, blob: SwapBlob, env: Env) {
    && env.native.terms.timeLock == env.foreign.terms.timeLock
    && (blob.shouldInitiateFirst ==> env.foreign.terms.preimage == Secret(sha3, blob.password, blob.id))
    && (env.refund.failed ==> !env.refund.effect)
    && (!env.refund.failed ==> env.refund.effect) && (!env.initiate.failed ==> env.initiate.effect)
    && (!env.redeem.failed ==> env.redeem.effect)
  }

  predicate Unread(call: Call) {
    match call
    case Initiates(_, tx) => !tx.checked
    case Refunds(_, tx) => !tx.checked
    case Redeems(_, tx) => !tx.checked
    case Others(_) => false
  }

  function FaultOf(h: Htlc, t: Terms, call: Call): Fault {
    if Succeeds(h, t, call) then if Unread(call) then Swallowed else NoFault
    else if RecordAfter(h, t, call) != h then FailAfter
    else FailBefore
  }

  /** An audit fails when a query does, or when the report names someone else or too little. */
  predicate AuditFails(h: Htlc, side: Side, q: Queries) {
    !q.initiatable ||
    (!h.Invalid? && !(q.report.Some? && q.report.value.to == side.spender && q.report.value.value >= side.agreed))
  }

  predicate SecretFails(h: Htlc, env: Env) {
    !env.redeemable || (!h.Open? && !env.secret)
  }

  function Broken(failed: bool): Fault {
    if failed then FailBefore else NoFault
  }

  function IniFault(w: World, env: Env): Fault {
    match w.ini
    case IInitiate => FaultOf(w.a, env.native.terms, Initiates(env.approve, env.initiate))
    case IAudit => Broken(AuditFails(w.b, env.foreign, env.audit))
    case IRefund => FaultOf(w.a, env.native.terms, Refunds(env.now, env.refund))
    case IRedeem => FaultOf(w.b, env.foreign.terms, Redeems(w.preimage, env.redeem))
    case IDone => NoFault
  }

  function ResFault(w: World, env: Env): Fault {
    match w.res
    case RAudit => Broken(AuditFails(w.a, env.foreign, env.audit))
    case RInitiate => FaultOf(w.b, env.native.terms, Initiates(env.approve, env.initiate))
    case RSecret => Broken(SecretFails(w.b, env))
    case RRefund => FaultOf(w.b, env.native.terms, Refunds(env.now, env.refund))
    case RRedeem(key) => FaultOf(w.a, env.foreign.terms, Redeems(key, env.redeem))
    case RDone => NoFault
  }

  function IniCall(w: World, env: Env): World {
    IniStep(w, IniFault(w, env))
  }

  function ResCall(w: World, env: Env): World {
    ResStep(w, ResFault(w, env))
  }

  /** A pass goes on from call to call until it finishes or falls back to its first call. */
  function IniPass(w: World, env: Env, calls: nat): World
    decreases calls
  {
    if calls == 0 then w
    else
      var w' := IniCall(w, env);
      if w'.ini.IInitiate? || w'.ini.IDone? then w' else IniPass(w', env, calls - 1)
  }

  function ResPass(w: World, env: Env, calls: nat): World
    decreases calls
  {
    if calls == 0 then w
    else
      var w' := ResCall(w, env);
      if w'.res.RAudit? || w'.res.RDone? then w' else ResPass(w', env, calls - 1)
  }

  /** The initiator's native contract is A; the responder's is B. */
  function WorldOf(blob: SwapBlob, env: Env): World {
    var a := if blob.shouldInitiateFirst then env.native.record else env.foreign.record;
    var b := if blob.shouldInitiateFirst then env.foreign.record else env.native.record;
    World(env.now, env.native.terms.timeLock, env.foreign.terms.preimage, a, b,
          IInitiate, RAudit, Inactive, Inactive, [])
  }

  function AfterPass(blob: SwapBlob, env: Env): World {
    if blob.shouldInitiateFirst then IniPass(WorldOf(blob, env), env, 3) else ResPass(WorldOf(blob, env), env, 4)
  }

  /** What a pass leaves behind: both records, the reported status, and whether it was the last. */
  datatype Result = Result(native: Htlc, foreign: Htlc, status: Status, done: bool)

  function ResultOf(blob: SwapBlob, env: Env): Result {
    var w := AfterPass(blob, env);
    if blob.shouldInitiateFirst then Result(w.a, w.b, w.iniStatus, w.ini.IDone?)
    else Result(w.b, w.a, w.resStatus, w.res.RDone?)
  }

  /** Waiting for the counterparty is not an error; every other retry is. */
  predicate ReportsError(status: Status, auditFailed: bool) {
    match status
    case AuditPending => auditFailed
    case Redeemed => false
    case Refunded => false
    case _ => true
  }

  predicate Ending(status: Status) {
    status.Redeemed? || status.Refunded? || status.Expiration?
  }

  function PassFrom(r: Result, auditFailed: bool): Tasks.Pass {
    if r.done then
      Tasks.Finish(match r.status
                   case Refunded => Tasks.SwapRefunded
                   case Expiration => Tasks.SwapExpired
                   case _ => Tasks.SwapRedeemed)
    else Tasks.Retry(r.status, ReportsError(r.status, auditFailed))
  }

  /** What the task system sees of a pass. */
  function PassOf(blob: SwapBlob, env: Env): Tasks.Pass {
    if !env.built then Tasks.Unbuilt
    else PassFrom(ResultOf(blob, env), AuditFails(env.foreign.record, env.foreign, env.audit))
  }

  lemma {:induction false} IniPassIsRun(w: World, env: Env, calls: nat) returns (acts: seq<Action>)
    ensures |acts| <= calls && Run(w, acts) == IniPass(w, env, calls)
    ensures forall i | 0 <= i < |acts| :: acts[i].Ini?
    decreases calls
  {
    if calls == 0 {
      acts := [];
    } else {
      var act := Ini(IniFault(w, env));
      var w' := Step(w, act);
      var rest := [];
      if !w'.ini.IInitiate? && !w'.ini.IDone? {
        rest := IniPassIsRun(w', env, calls - 1);
      }
      acts := [act] + rest;
      assert acts[1..] == rest;
    }
  }

  lemma {:induction false} ResPassIsRun(w: World, env: Env, calls: nat) returns (acts: seq<Action>)
    ensures |acts| <= calls && Run(w, acts) == ResPass(w, env, calls)
    ensures forall i | 0 <= i < |acts| :: acts[i].Res?
    decreases calls
  {
    if calls == 0 {
      acts := [];
    } else {
      var act := Res(ResFault(w, env));
      var w' := Step(w, act);
      var rest := [];
      if !w'.res.RAudit? && !w'.res.RDone? {
        rest := ResPassIsRun(w', env, calls - 1);
      }
      acts := [act] + rest;
      assert acts[1..] == rest;
    }
  }

  /** A pass is a run of the protocol in which only its own daemon moves, at most four times. */
  lemma PassIsRun(blob: SwapBlob, env: Env)
    ensures exists acts: seq<Action> ::
              && |acts| <= 4 && Run(WorldOf(blob, env), acts) == AfterPass(blob, env)
              && forall i | 0 <= i < |acts| ::
                   if blob.shouldInitiateFirst then acts[i].Ini? else acts[i].Res?
  {
    if blob.shouldInitiateFirst {
      var acts := IniPassIsRun(WorldOf(blob, env), env, 3);
    } else {
      var acts := ResPassIsRun(WorldOf(blob, env), env, 4);
    }
  }

  // ---------------------------------------------------------------- the same passes, path by path

  function Funding(env: Env): Call {
    Initiates(env.approve, env.initiate)
  }

  /** From the audit on, with the initiator's own contract as `a`. */
  function IniSettle(a: Htlc, env: Env): Result {
    var (n, f, b) := (env.native.terms, env.foreign.terms, env.foreign.record);
    if AuditFails(b, env.foreign, env.audit) then Result(a, b, AuditPending, false)
    else
      match Audit(b, env.now, n.timeLock)
      case Pending => Result(a, b, AuditPending, false)
      case TimedOut =>
        if !Succeeds(a, n, Refunds(env.now, env.refund)) then Result(a, b, RefundFailed, false)
        else Result(RecordAfter(a, n, Refunds(env.now, env.refund)), b, Refunded, true)
      case Passed =>
        var claim := Redeems(f.preimage, env.redeem);
        if !Succeeds(b, f, claim) then Result(a, RecordAfter(b, f, claim), Audited, false)
        else Result(a, RecordAfter(b, f, claim), Redeemed, true)
  }

  function IniOutcome(env: Env): Result {
    var (n, a) := (env.native.terms, env.native.record);
    var a1 := RecordAfter(a, n, Funding(env));
    if !Succeeds(a, n, Funding(env)) then Result(a1, env.foreign.record, Inactive, false) else IniSettle(a1, env)
  }

  /** From the call that asks for the secret on, with the responder's own contract as `b`. */
  function ResReveal(b: Htlc, env: Env): Result {
    var (n, f, a) := (env.native.terms, env.foreign.terms, env.foreign.record);
    if SecretFails(b, env) then Result(b, a, Initiated, false)
    else
      match AuditSecret(b, env.now, n.timeLock)
      case NoSecretYet => Result(b, a, AuditPending, false)
      case NotRedeemed => Result(b, a, Initiated, false)
      case SecretTimedOut =>
        if !Succeeds(b, n, Refunds(env.now, env.refund)) then Result(b, a, RefundFailed, false)
        else Result(RecordAfter(b, n, Refunds(env.now, env.refund)), a, Refunded, true)
      case Revealed(key) =>
        var claim := Redeems(key, env.redeem);
        if !Succeeds(a, f, claim) then Result(b, RecordAfter(a, f, claim), AuditedSecret, false)
        else Result(b, RecordAfter(a, f, claim), Redeemed, true)
  }

  function ResOutcome(env: Env): Result {
    var (n, b, a) := (env.native.terms, env.native.record, env.foreign.record);
    if AuditFails(a, env.foreign, env.audit) then Result(b, a, AuditPending, false)
    else
      match Audit(a, env.now, n.timeLock)
      case Pending => Result(b, a, AuditPending, false)
      case TimedOut => Result(b, a, Expiration, true)
      case Passed =>
        var b1 := RecordAfter(b, n, Funding(env));
        if !Succeeds(b, n, Funding(env)) then Result(b1, a, Audited, false) else ResReveal(b1, env)
  }

  function IniResultAt(w: World): Result {
    Result(w.a, w.b, w.iniStatus, w.ini.IDone?)
  }

  lemma IniRefundCall(w: World, env: Env)
    requires w.ini.IRefund? && w.now == env.now && w.timeLock == env.native.terms.timeLock
    requires env.refund.failed <==> !env.refund.effect
    ensures var call := Refunds(env.now, env.refund);
            IniResultAt(IniCall(w, env)) ==
            if !Succeeds(w.a, env.native.terms, call) then Result(w.a, w.b, RefundFailed, false)
            else Result(RecordAfter(w.a, env.native.terms, call), w.b, Refunded, true)
  {
  }

  lemma IniRedeemCall(w: World, env: Env)
    requires w.ini.IRedeem? && w.preimage == env.foreign.terms.preimage
    requires !env.redeem.failed ==> env.redeem.effect
    ensures var call := Redeems(w.preimage, env.redeem);
            IniResultAt(IniCall(w, env)) ==
            if !Succeeds(w.b, env.foreign.terms, call)
              then Result(w.a, RecordAfter(w.b, env.foreign.terms, call), Audited, false)
            else Result(w.a, RecordAfter(w.b, env.foreign.terms, call), Redeemed, true)
  {
  }

  lemma IniSettleIsPass(w: World, sha3: string -> Bytes, blob: SwapBlob, env: Env)
    requires blob.shouldInitiateFirst && Proper(sha3, blob, env)
    requires w == WorldOf(blob, env).(a := w.a, ini := IAudit, log := w.log)
    ensures IniResultAt(IniPass(w, env, 2)) == IniSettle(w.a, env)
  {
    var w1 := IniCall(w, env);
    assert IniPass(w1, env, 1) == IniCall(w1, env);
    if w1.ini.IRefund? {
      IniRefundCall(w1, env);
    } else if w1.ini.IRedeem? {
      IniRedeemCall(w1, env);
    }
  }

  /** Straight through or step by step, a pass comes to the same thing. */
  lemma IniOutcomeIsPass(sha3: string -> Bytes, blob: SwapBlob, env: Env)
    requires blob.shouldInitiateFirst && Proper(sha3, blob, env)
    ensures IniOutcome(env) == ResultOf(blob, env)
  {
    var w := WorldOf(blob, env);
    var w1 := IniCall(w, env);
    if w1.ini.IAudit? {
      IniSettleIsPass(w1, sha3, blob, env);
    }
  }

  function ResultAt(w: World): Result {
    Result(w.b, w.a, w.resStatus, w.res.RDone?)
  }

  lemma ResRevealIsPass(w: World, sha3: string -> Bytes, blob: SwapBlob, env: Env)
    requires !blob.shouldInitiateFirst && Proper(sha3, blob, env)
    requires w == WorldOf(blob, env).(b := w.b, res := RSecret, log := w.log)
    ensures ResultAt(ResPass(w, env, 2)) == ResReveal(w.b, env)
  {
    var w1 := ResCall(w, env);
    assert ResPass(w1, env, 1) == ResCall(w1, env);
  }

  lemma ResOutcomeIsPass(sha3: string -> Bytes, blob: SwapBlob, env: Env)
    requires !blob.shouldInitiateFirst && Proper(sha3, blob, env)
    ensures ResOutcome(env) == ResultOf(blob, env)
  {
    var w := WorldOf(blob, env);
    var w1 := ResCall(w, env);
    var w2 := ResCall(w1, env);
    assert ResPass(w1, env, 3) == if w2.res.RAudit? || w2.res.RDone? then w2 else ResPass(w2, env, 2);
    if w1.res.RInitiate? && w2.res.RSecret? {
      ResRevealIsPass(w2, sha3, blob, env);
    }
  }

  lemma OutcomesEndRight(env: Env)
    ensures IniOutcome(env).done <==> Ending(IniOutcome(env).status)
    ensures ResOutcome(env).done <==> Ending(ResOutcome(env).status)
  {
  }

  /** A pass ends a swap exactly when it reports Redeemed, Refunded or Expired. */
  lemma PassEndsRight(sha3: string -> Bytes, blob: SwapBlob, env: Env)
    requires Proper(sha3, blob, env)
    ensures ResultOf(blob, env).done <==> Ending(ResultOf(blob, env).status)
  {
    OutcomesEndRight(env);
    if blob.shouldInitiateFirst {
      IniOutcomeIsPass(sha3, blob, env);
    } else {
      ResOutcomeIsPass(sha3, blob, env);
    }
  }

  // ---------------------------------------------------------------- past the time lock

  predicate Clean(tx: Tx) {
    tx.checked && tx.submitted && tx.effect && !tx.failed
  }

  /** Nothing goes wrong in the pass: contracts are built, queries answer, transactions confirm. */
  predicate NoFailure(env: Env) {
    && env.built && Clean(env.approve) && Clean(env.initiate) && Clean(env.redeem) && Clean(env.refund)
    && !AuditFails(env.foreign.record, env.foreign, env.audit) && env.redeemable && env.secret
  }

  /**
   A pass in which nothing goes wrong reports an error in two cases only: the swap has expired
   before the responder put anything in, or the responder has its own coins back already.
   */
  lemma CleanPassErrors(sha3: string -> Bytes, blob: SwapBlob, env: Env)
    requires Proper(sha3, blob, env) && NoFailure(env)
    ensures Tasks.Failure in Tasks.ImmediateEffect(blob, PassOf(blob, env)).ups
            <==> && !blob.shouldInitiateFirst
                 && (if env.foreign.record.Invalid? then env.now > env.native.terms.timeLock
                     else env.native.record.Expired?)
  {
    if blob.shouldInitiateFirst {
      IniOutcomeIsPass(sha3, blob, env);
    } else {
      ResOutcomeIsPass(sha3, blob, env);
    }
    FailureSent(blob, PassOf(blob, env));
  }

  /** An error is among the messages of an expired swap and of a retry that reports one. */
  lemma FailureSent(blob: SwapBlob, pass: Tasks.Pass)
    requires !pass.Unbuilt?
    ensures Tasks.Failure in Tasks.ImmediateEffect(blob, pass).ups
            <==> pass == Tasks.Finish(Tasks.SwapExpired) || (pass.Retry? && pass.error)
  {
    var ups := Tasks.ImmediateEffect(blob, pass).ups;
    if pass == Tasks.Finish(Tasks.SwapExpired) || (pass.Retry? && pass.error) {
      assert ups[1] == Tasks.Failure;
    }
  }

  /**
   A pass after the time lock in which nothing goes wrong is the last one of an initiator's
   swap, whatever the two records say. It is the last one of a responder's swap exactly unless
   the responder, on a funded swap, has its own coins back already.
   */
  lemma LastPass(sha3: string -> Bytes, blob: SwapBlob, env: Env)
    requires Proper(sha3, blob, env) && NoFailure(env) && env.now > env.native.terms.timeLock
    ensures PassOf(blob, env).Finish? <==>
              blob.shouldInitiateFirst || env.foreign.record.Invalid? || !env.native.record.Expired?
    ensures Tasks.ImmediateEffect(blob, PassOf(blob, env)).fate.Released? <==> PassOf(blob, env).Finish?
  {
    if blob.shouldInitiateFirst {
      IniOutcomeIsPass(sha3, blob, env);
    } else {
      ResOutcomeIsPass(sha3, blob, env);
    }
  }
}
