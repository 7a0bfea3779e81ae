/**
 The protocol with Bitcoin binders. Their audits take a query that fails for a contract that is
 not funded, and after the time lock for one that has expired; the Ethereum binders report an
 error instead. What then remains of atomicity, and exactly what breaks it.
 */
module LenientAudit {
  import opened Ledger
  import opened Swaps
  import opened Protocol
  import opened Atomicity

  /** Which of the two contracts is on Bitcoin. */
  datatype Chains = Chains(aOnBitcoin: bool, bOnBitcoin: bool)

  /** The query behind an audit fails; a report that comes back but is wrong is still an error. */
  predicate QueryFails(fault: Fault) {
    fault.FailBefore? || fault.Swallowed?
  }

  function IniCall(w: World, fault: Fault, on: Chains): World {
    if w.ini.IAudit? && on.bOnBitcoin && QueryFails(fault) then
      if w.now > w.timeLock then w.(ini := IRefund) else IniGoto(w, IInitiate, AuditPending)
    else IniStep(w, fault)
  }

  /** On Bitcoin a secret that cannot be read, for whatever reason, is one that has not been published. */
  function ResCall(w: World, fault: Fault, on: Chains): World {
    if w.res.RAudit? && on.aOnBitcoin && QueryFails(fault) then
      if w.now > w.timeLock then ResGoto(w, RDone, Expiration) else ResGoto(w, RAudit, AuditPending)
    else if w.res.RSecret? && on.bOnBitcoin && (QueryFails(fault) || w.b.Invalid?) then
      if w.now > w.timeLock then w.(res := RRefund) else ResGoto(w, RAudit, AuditPending)
    else ResStep(w, fault)
  }

  function CallOn(w: World, act: Action, on: Chains): World {
    match act
    case Wait(_) => Step(w, act)
    case Ini(fault) => IniCall(w, fault, on)
    case Res(fault) => ResCall(w, fault, on)
  }

  function RunOn(w: World, acts: seq<Action>, on: Chains): World
    decreases |acts|
  {
    if acts == [] then w else RunOn(CallOn(w, acts[0], on), acts[1..], on)
  }

  /** The initiator's query fails after the time lock, when B has already been claimed. */
  predicate LateFailure(w: World, act: Action, on: Chains) {
    act.Ini? && w.ini.IAudit? && on.bOnBitcoin && QueryFails(act.fault) && w.now > w.timeLock && w.b.Closed?
  }

  function MoveOn(w: World, move: Move, on: Chains): World {
    if move.Call? then CallOn(w, move.act, on) else MoveStep(w, move)
  }

  function MovesOn(w: World, moves: seq<Move>, on: Chains): World
    decreases |moves|
  {
    if moves == [] then w else MovesOn(MoveOn(w, moves[0], on), moves[1..], on)
  }

  /** With both contracts on Ethereum this is the protocol as it was. */
  lemma {:induction false} EthereumOnly(w: World, moves: seq<Move>)
    ensures MovesOn(w, moves, Chains(false, false)) == MoveRun(w, moves)
    decreases |moves|
  {
    if moves != [] {
      EthereumOnly(MoveStep(w, moves[0]), moves[1..]);
    }
  }

  lemma {:induction false} CallsOn(w: World, acts: seq<Action>, on: Chains)
    ensures MovesOn(w, Calls(acts), on) == RunOn(w, acts, on)
    decreases |acts|
  {
    if acts != [] {
      assert Calls(acts)[1..] == Calls(acts[1..]);
      CallsOn(CallOn(w, acts[0], on), acts[1..], on);
    }
  }

  /** No such failure, and the initiator is never restarted on a swap it has already refunded. */
  predicate NoLateFailure(w: World, moves: seq<Move>, on: Chains)
    decreases |moves|
  {
    moves != [] ==>
      && (moves[0].Call? ==> !LateFailure(w, moves[0].act, on))
      && (moves[0].CrashIni? ==> !w.a.Expired?)
      && NoLateFailure(MoveOn(w, moves[0], on), moves[1..], on)
  }

  ghost predicate LenientInv(w: World) {
    && (w.a.Closed? ==> w.b.Closed?)
    && (w.b.Closed? ==> w.b.secret == w.preimage)
    && (!w.b.Invalid? || w.res.RInitiate? ==> !w.a.Invalid?)
    && (w.a.Expired? ==> w.ini.IDone? && !w.b.Closed?)
    && (w.ini.IRefund? || w.iniStatus.Refunded? ==> !w.b.Closed?)
    && (w.iniStatus.Refunded? ==> w.ini.IDone?)
    && (w.res.RRedeem? ==> w.b == Closed(w.res.key))
    && (w.ini.IRefund? || w.res.RRefund? ==> w.now > w.timeLock)
  }

  lemma IniLenient(w: World, fault: Fault, on: Chains)
    requires LenientInv(w) && !LateFailure(w, Ini(fault), on)
    ensures LenientInv(IniCall(w, fault, on))
  {
  }

  lemma ResLenient(w: World, fault: Fault, on: Chains)
    requires LenientInv(w)
    ensures LenientInv(ResCall(w, fault, on))
  {
  }

  lemma MoveLenient(w: World, move: Move, on: Chains)
    requires LenientInv(w)
    requires if move.Call? then !LateFailure(w, move.act, on) else move.CrashIni? ==> !w.a.Expired?
    ensures LenientInv(MoveOn(w, move, on))
  {
    match move
    case Call(Wait(_)) =>
    case Call(Ini(fault)) => IniLenient(w, fault, on);
    case Call(Res(fault)) => ResLenient(w, fault, on);
    case CrashIni =>
    case CrashRes =>
  }

  lemma {:induction false} MovesLenient(w: World, moves: seq<Move>, on: Chains)
    requires LenientInv(w) && NoLateFailure(w, moves, on)
    ensures LenientInv(MovesOn(w, moves, on))
    decreases |moves|
  {
    if moves != [] {
      MoveLenient(w, moves[0], on);
      MovesLenient(MoveOn(w, moves[0], on), moves[1..], on);
    }
  }

  /**
   Whatever the chains, and through any number of safe restarts: as long as no query of the initiator
   fails after the time lock on a claimed B, neither side is claimed with the other refunded, and a
   reported refund means B is not claimed.
   */
  lemma AtomicOnBitcoin(w: World, moves: seq<Move>, on: Chains)
    requires Initial(w) && NoLateFailure(w, moves, on)
    ensures !Violated(MovesOn(w, moves, on))
    ensures MovesOn(w, moves, on).iniStatus.Refunded? ==> !MovesOn(w, moves, on).b.Closed?
  {
    MovesLenient(w, moves, on);
  }

  /**
   After any such run, with the time lock over and B on Bitcoin, a failed query and the refund that
   follows it break atomicity exactly when B had been claimed and A was still open.
   */
  lemma LateFailureExact(w: World, moves: seq<Move>, on: Chains, fault: Fault)
    requires Initial(w) && NoLateFailure(w, moves, on) && on.bOnBitcoin && QueryFails(fault)
    requires MovesOn(w, moves, on).ini.IAudit? && MovesOn(w, moves, on).now > MovesOn(w, moves, on).timeLock
    ensures var v := MovesOn(w, moves, on);
            Violated(RunOn(v, [Ini(fault), Clean], on)) <==> v.b.Closed? && v.a.Open?
  {
    MovesLenient(w, moves, on);
    RunOnTwo(MovesOn(w, moves, on), Ini(fault), Clean, on);
  }

  lemma RunOnTwo(w: World, x: Action, y: Action, on: Chains)
    ensures RunOn(w, [x, y], on) == CallOn(CallOn(w, x, on), y, on)
  {
    assert [x, y][1..] == [y];
    assert [y][1..] == [];
    assert RunOn(CallOn(w, x, on), [y], on) == CallOn(CallOn(w, x, on), y, on);
  }

  lemma {:induction false} RunOnAppend(w: World, acts: seq<Action>, later: seq<Action>, on: Chains)
    ensures RunOn(w, acts + later, on) == RunOn(RunOn(w, acts, on), later, on)
    decreases |acts|
  {
    if acts == [] {
      assert acts + later == later;
    } else {
      assert (acts + later)[1..] == acts[1..] + later;
      RunOnAppend(CallOn(w, acts[0], on), acts[1..], later, on);
    }
  }

  const OnBitcoin := Chains(false, true)

  /** B has been claimed by a call that returned an error, and then the time lock passes. */
  const Claimed :=
    World(1, 0, [], Open, Closed([]), IInitiate, RSecret, Audited, Inactive, [OpenedA, OpenedB, ClaimedB])

  const ClaimActs := [Clean, Reply] + ([Reply, Clean] + [Ini(FailAfter), Wait(1)])

  lemma ClaimedIsReachable()
    ensures Initial(Start) && RunOn(Start, ClaimActs, OnBitcoin) == Claimed
  {
    RunOnTwo(Start, Clean, Reply, OnBitcoin);
    RunOnAppend(Start, [Clean, Reply], [Reply, Clean] + [Ini(FailAfter), Wait(1)], OnBitcoin);
    var w1 := RunOn(Start, [Clean, Reply], OnBitcoin);
    RunOnTwo(w1, Reply, Clean, OnBitcoin);
    RunOnAppend(w1, [Reply, Clean], [Ini(FailAfter), Wait(1)], OnBitcoin);
    RunOnTwo(RunOn(w1, [Reply, Clean], OnBitcoin), Ini(FailAfter), Wait(1), OnBitcoin);
  }

  /** The next pass of the initiator cannot read B, and takes A back. */
  lemma LateFailureHappens()
    ensures Initial(Start)
    ensures var v := RunOn(Start, ClaimActs + ([Clean, Ini(FailBefore)] + [Clean, Clean]), OnBitcoin);
            v.a.Expired? && v.b.Closed?
  {
    ClaimedIsReachable();
    RunOnAppend(Start, ClaimActs, [Clean, Ini(FailBefore)] + [Clean, Clean], OnBitcoin);
    RunOnTwo(Claimed, Clean, Ini(FailBefore), OnBitcoin);
    RunOnAppend(Claimed, [Clean, Ini(FailBefore)], [Clean, Clean], OnBitcoin);
    RunOnTwo(RunOn(Claimed, [Clean, Ini(FailBefore)], OnBitcoin), Clean, Clean, OnBitcoin);
  }

  ghost predicate ExpiredInv(w: World) {
    && (!w.b.Invalid? || w.res.RInitiate? ==> !w.a.Invalid?)
    && (w.resStatus.Expiration? ==> w.res.RDone? && w.b.Invalid?)
  }

  lemma {:induction false} ExpiredRun(w: World, moves: seq<Move>, on: Chains)
    requires ExpiredInv(w) && !on.aOnBitcoin
    ensures ExpiredInv(MovesOn(w, moves, on))
    decreases |moves|
  {
    if moves != [] {
      ExpiredStep(w, moves[0], on);
      ExpiredRun(MoveOn(w, moves[0], on), moves[1..], on);
    }
  }

  lemma ExpiredStep(w: World, move: Move, on: Chains)
    requires ExpiredInv(w) && !on.aOnBitcoin
    ensures ExpiredInv(MoveOn(w, move, on))
  {
  }

  /** The responder funds B, its call returns an error, and the audit of its next pass fails after the time lock. */
  lemma FundThenExpire(w: World, on: Chains)
    requires w.res.RInitiate? && w.b.Invalid? && on.aOnBitcoin && w.now >= w.timeLock
    ensures var v := RunOn(w, [Res(FailAfter), Wait(1)] + [Res(FailBefore), Wait(0)], on);
            v.resStatus.Expiration? && v.b.Open?
  {
    RunOnAppend(w, [Res(FailAfter), Wait(1)], [Res(FailBefore), Wait(0)], on);
    RunOnTwo(w, Res(FailAfter), Wait(1), on);
    RunOnTwo(RunOn(w, [Res(FailAfter), Wait(1)], on), Res(FailBefore), Wait(0), on);
  }

  /** Every Expired the responder reports, restarts or not, means that it has nothing locked. */
  ghost predicate ExpiredIsTrue(on: Chains) {
    forall w, moves | Initial(w) && MovesOn(w, moves, on).resStatus.Expiration? :: MovesOn(w, moves, on).b.Invalid?
  }

  lemma ExpiredIsFalse(on: Chains)
    requires on.aOnBitcoin
    ensures !ExpiredIsTrue(on)
  {
    var rest := [Res(FailAfter), Wait(1)] + [Res(FailBefore), Wait(0)];
    RunOnTwo(Start, Clean, Reply, on);
    FundThenExpire(RunOn(Start, [Clean, Reply], on), on);
    RunOnAppend(Start, [Clean, Reply], rest, on);
    CallsOn(Start, [Clean, Reply] + rest, on);
    assert Initial(Start) && MovesOn(Start, Calls([Clean, Reply] + rest), on).b.Open?;
  }

  /** That is so exactly when the initiator's contract is not on Bitcoin. */
  lemma ExpiredReportExact(on: Chains)
    ensures ExpiredIsTrue(on) <==> !on.aOnBitcoin
  {
    if on.aOnBitcoin {
      ExpiredIsFalse(on);
    } else {
      forall w, moves | Initial(w) && MovesOn(w, moves, on).resStatus.Expiration?
        ensures MovesOn(w, moves, on).b.Invalid?
      {
        ExpiredRun(w, moves, on);
      }
    }
  }

  /**
   On a funded swap, past the time lock, a responder whose query for the secret fails goes on to
   take its coins back, and is done, exactly when its own contract is on Bitcoin; on Ethereum it
   tries again.
   */
  lemma FailedSecretExact(w: World, on: Chains, fault: Fault)
    requires w.res.RSecret? && !w.a.Invalid? && w.now > w.timeLock && QueryFails(fault)
    ensures RunOn(w, [Res(fault), Reply], on).res.RDone? <==> on.bOnBitcoin
    ensures on.bOnBitcoin ==> RunOn(w, [Res(fault), Reply], on).b == if w.b.Open? then Expired else w.b
  {
    RunOnTwo(w, Res(fault), Reply, on);
  }
}
