/**
 The two-party protocol: one daemon runs `initiate` and the other `respond` against the
 ledgers A (locked by the initiator) and B (locked by the responder). One step is one
 contract call; the schedule interleaves the two daemons and the clock arbitrarily.
 */
module Protocol {
  import opened Common
  import opened Ledger
  import opened Swaps

  /** The next call of a daemon. A pass that does not finish starts again at its first call. */
  datatype IniPc = IInitiate | IAudit | IRefund | IRedeem | IDone
  datatype ResPc = RAudit | RInitiate | RSecret | RRefund | RRedeem(key: Bytes) | RDone

  /**
   How a call goes wrong: with an error and no effect, with an error after it took effect, or
   in silence, because its precondition could not be read and was taken to be false.
   */
  datatype Fault = NoFault | FailBefore | FailAfter | Swallowed

  datatype Event = OpenedA | OpenedB | ClaimedA | ClaimedB | RefundedA | RefundedB

  datatype World = World(
    now: int, timeLock: int, preimage: Bytes,
    a: Htlc, b: Htlc,
    ini: IniPc, res: ResPc,
    iniStatus: Status, resStatus: Status,
    log: seq<Event>)

  datatype Action = Wait(seconds: nat) | Ini(fault: Fault) | Res(fault: Fault)

  ghost predicate Initial(w: World) {
    && w.a.Invalid? && w.b.Invalid?
    && w.ini.IInitiate? && w.res.RAudit?
    && w.iniStatus.Inactive? && w.resStatus.Inactive?
    && w.log == []
  }

  /** The ledger event that takes an HTLC from one state to another, if it changed. */
  function Logged(h: Htlc, h': Htlc, onOpen: Event, onClaim: Event, onRefund: Event): seq<Event> {
    if h == h' then []
    else match h'
         case Open => [onOpen]
         case Closed(_) => [onClaim]
         case _ => [onRefund]
  }

  function WithA(w: World, a': Htlc): World {
    w.(a := a', log := w.log + Logged(w.a, a', OpenedA, ClaimedA, RefundedA))
  }

  function WithB(w: World, b': Htlc): World {
    w.(b := b', log := w.log + Logged(w.b, b', OpenedB, ClaimedB, RefundedB))
  }

  function IniGoto(w: World, pc: IniPc, status: Status): World {
    w.(ini := pc, iniStatus := status)
  }

  function ResGoto(w: World, pc: ResPc, status: Status): World {
    w.(res := pc, resStatus := status)
  }

  /** One call of `initiate`. A Refund that returns an error is taken to have had no effect. */
  function IniStep(w: World, fault: Fault): World {
    match w.ini
    case IInitiate =>
      if fault.FailBefore? then IniGoto(w, IInitiate, Inactive)
      else if fault.Swallowed? then w.(ini := IAudit)
      else
        var w' := WithA(w, AfterInitiate(w.a));
        if fault.FailAfter? then IniGoto(w', IInitiate, Inactive) else w'.(ini := IAudit)
    case IAudit =>
      if !fault.NoFault? then IniGoto(w, IInitiate, AuditPending)
      else (
        match Audit(w.b, w.now, w.timeLock)
        case Pending => IniGoto(w, IInitiate, AuditPending)
        case TimedOut => w.(ini := IRefund)
        case Passed => w.(ini := IRedeem)
      )
    case IRefund =>
      if fault.Swallowed? then IniGoto(w, IDone, Refunded)
      else if !fault.NoFault? then IniGoto(w, IInitiate, RefundFailed)
      else IniGoto(WithA(w, AfterRefund(w.a, w.now, w.timeLock)), IDone, Refunded)
    case IRedeem =>
      if fault.FailBefore? then IniGoto(w, IInitiate, Audited)
      else if fault.Swallowed? then IniGoto(w, IDone, Redeemed)
      else
        var w' := WithB(w, AfterRedeem(w.b, w.preimage, w.preimage));
        if fault.FailAfter? then IniGoto(w', IInitiate, Audited) else IniGoto(w', IDone, Redeemed)
    case IDone => w
  }

  /** One call of `respond`. */
  function ResStep(w: World, fault: Fault): World {
    match w.res
    case RAudit =>
      if !fault.NoFault? then ResGoto(w, RAudit, AuditPending)
      else (
        match Audit(w.a, w.now, w.timeLock)
        case Pending => ResGoto(w, RAudit, AuditPending)
        case TimedOut => ResGoto(w, RDone, Expiration)
        case Passed => w.(res := RInitiate)
      )
    case RInitiate =>
      if fault.FailBefore? then ResGoto(w, RAudit, Audited)
      else if fault.Swallowed? then w.(res := RSecret)
      else
        var w' := WithB(w, AfterInitiate(w.b));
        if fault.FailAfter? then ResGoto(w', RAudit, Audited) else w'.(res := RSecret)
    case RSecret =>
      if !fault.NoFault? then ResGoto(w, RAudit, Initiated)
      else (
        match AuditSecret(w.b, w.now, w.timeLock)
        case NoSecretYet => ResGoto(w, RAudit, AuditPending)
        case SecretTimedOut => w.(res := RRefund)
        case Revealed(key) => w.(res := RRedeem(key))
        case NotRedeemed => ResGoto(w, RAudit, Initiated)
      )
    case RRefund =>
      if fault.Swallowed? then ResGoto(w, RDone, Refunded)
      else if !fault.NoFault? then ResGoto(w, RAudit, RefundFailed)
      else ResGoto(WithB(w, AfterRefund(w.b, w.now, w.timeLock)), RDone, Refunded)
    case RRedeem(key) =>
      if fault.FailBefore? then ResGoto(w, RAudit, AuditedSecret)
      else if fault.Swallowed? then ResGoto(w, RDone, Redeemed)
      else
        var w' := WithA(w, AfterRedeem(w.a, key, w.preimage));
        if fault.FailAfter? then ResGoto(w', RAudit, AuditedSecret) else ResGoto(w', RDone, Redeemed)
    case RDone => w
  }

  function Step(w: World, act: Action): World {
    match act
    case Wait(d) => w.(now := w.now + d)
    case Ini(fault) => IniStep(w, fault)
    case Res(fault) => ResStep(w, fault)
  }

  function Run(w: World, acts: seq<Action>): World
    decreases |acts|
  {
    if acts == [] then w else Run(Step(w, acts[0]), acts[1..])
  }

  /** Every precondition the initiator asks for can be read. */
  predicate IniReadable(acts: seq<Action>) {
    forall i | 0 <= i < |acts| && acts[i].Ini? :: !acts[i].fault.Swallowed?
  }

  /** Every precondition the responder asks for can be read. */
  predicate ResReadable(acts: seq<Action>) {
    forall i | 0 <= i < |acts| && acts[i].Res? :: !acts[i].fault.Swallowed?
  }

  // ---------------------------------------------------------------- the invariants

  /** What holds whatever goes wrong, calls passed over in silence and restarts included. */
  ghost predicate RobustInv(w: World) {
    && (w.a.Closed? ==> w.b.Closed?)
    && (w.b.Closed? ==> w.b.secret == w.preimage)
    && (!w.b.Invalid? || w.res.RInitiate? ==> !w.a.Invalid?)
    && (w.a.Expired? ==> w.ini.IDone? && !w.b.Closed?)
    && (w.ini.IRefund? || w.iniStatus.Refunded? ==> !w.b.Closed?)
    && (w.iniStatus.Refunded? ==> w.ini.IDone?)
    && (w.resStatus.Expiration? ==> w.res.RDone? && w.b.Invalid?)
    && (w.ini.IRedeem? || w.res.RRefund? ==> !w.b.Invalid?)
    && (w.res.RRedeem? ==> w.b == Closed(w.res.key))
    && (w.ini.IRefund? || w.res.RRefund? ==> w.now > w.timeLock)
  }

  /** What holds besides as long as neither daemon restarts. */
  ghost predicate SteadyInv(w: World) {
    && RobustInv(w)
    && (w.b.Expired? ==> w.res.RDone? && w.now > w.timeLock)
    && (w.iniStatus.Refunded? || w.iniStatus.Redeemed? <==> w.ini.IDone?)
    && (w.resStatus.Refunded? || w.resStatus.Redeemed? || w.resStatus.Expiration? <==> w.res.RDone?)
  }

  /** What the initiator may believe as long as it could read every precondition of its own. */
  ghost predicate IniTrue(w: World) {
    && (!w.ini.IInitiate? ==> !w.a.Invalid?)
    && (w.iniStatus.Refunded? ==> w.a.Expired?)
    && (w.iniStatus.Redeemed? ==> w.b.Closed? || w.b.Expired?)
  }

  /** What the responder may believe as long as it could read every precondition of its own. */
  ghost predicate ResTrue(w: World) {
    && (w.resStatus.Refunded? ==> w.b.Expired? || w.b.Closed?)
    && (w.resStatus.Redeemed? ==> w.a.Closed? && w.b.Closed?)
  }

  /** The events that must already have happened when `e` happens, on a log without it. */
  ghost predicate Enabled(e: Event, log: seq<Event>) {
    && e !in log
    && match e
       case OpenedA => true
       case OpenedB => OpenedA in log
       case ClaimedB => OpenedB in log
       case ClaimedA => ClaimedB in log
       case RefundedA => OpenedA in log
       case RefundedB => OpenedB in log
  }

  ghost predicate Ordered(log: seq<Event>) {
    log == [] || (Ordered(log[..|log| - 1]) && Enabled(log[|log| - 1], log[..|log| - 1]))
  }

  ghost predicate LogInv(w: World) {
    && Ordered(w.log)
    && (OpenedA in w.log <==> !w.a.Invalid?)
    && (OpenedB in w.log <==> !w.b.Invalid?)
    && (ClaimedA in w.log <==> w.a.Closed?)
    && (ClaimedB in w.log <==> w.b.Closed?)
    && (RefundedA in w.log <==> w.a.Expired?)
    && (RefundedB in w.log <==> w.b.Expired?)
  }

  lemma OrderedExtend(log: seq<Event>, e: Event)
    requires Ordered(log) && Enabled(e, log)
    ensures Ordered(log + [e])
  {
  }

  lemma WithALog(w: World, a': Htlc)
    requires LogInv(w) && MayBecome(w.a, a')
    requires a'.Closed? ==> w.b.Closed?
    requires w.a.Invalid? ==> a' == w.a || a'.Open?
    ensures LogInv(WithA(w, a'))
  {
    if a' == w.a {
      assert w.log + [] == w.log;
    } else {
      OrderedExtend(w.log, Logged(w.a, a', OpenedA, ClaimedA, RefundedA)[0]);
    }
  }

  lemma WithBLog(w: World, b': Htlc)
    requires LogInv(w) && MayBecome(w.b, b')
    requires !b'.Invalid? ==> !w.a.Invalid?
    requires w.b.Invalid? ==> b' == w.b || b'.Open?
    ensures LogInv(WithB(w, b'))
  {
    if b' == w.b {
      assert w.log + [] == w.log;
    } else {
      OrderedExtend(w.log, Logged(w.b, b', OpenedB, ClaimedB, RefundedB)[0]);
    }
  }

  /** A step changes at most one ledger, and logs exactly that change. */
  lemma StepShape(w: World, act: Action)
    ensures var w' := Step(w, act);
            || (w'.a == w.a && w'.b == w.b && w'.log == w.log)
            || (w'.b == w.b && w'.log == WithA(w, w'.a).log && MayBecome(w.a, w'.a) && !(w.a.Invalid? && !w'.a.Open?))
            || (w'.a == w.a && w'.log == WithB(w, w'.b).log && MayBecome(w.b, w'.b) && !(w.b.Invalid? && !w'.b.Open?))
    ensures var w' := Step(w, act); w'.a == w.a && w'.b == w.b ==> w'.log == w.log
  {
  }

  lemma StepLog(w: World, act: Action)
    requires LogInv(w) && RobustInv(Step(w, act))
    ensures LogInv(Step(w, act))
  {
    var w' := Step(w, act);
    StepShape(w, act);
    if w'.a != w.a {
      WithALog(w, w'.a);
      assert LogInv(WithA(w, w'.a));
    } else if w'.b != w.b {
      WithBLog(w, w'.b);
      assert LogInv(WithB(w, w'.b));
    }
  }

  lemma IniRobust(w: World, fault: Fault)
    requires RobustInv(w)
    ensures RobustInv(IniStep(w, fault))
  {
  }

  lemma ResRobust(w: World, fault: Fault)
    requires RobustInv(w)
    ensures RobustInv(ResStep(w, fault))
  {
  }

  lemma StepRobust(w: World, act: Action)
    requires RobustInv(w) && LogInv(w)
    ensures RobustInv(Step(w, act)) && LogInv(Step(w, act))
  {
    match act {
      case Wait(_) =>
      case Ini(fault) => IniRobust(w, fault);
      case Res(fault) => ResRobust(w, fault);
    }
    StepLog(w, act);
  }

  lemma {:induction false} RunRobust(w: World, acts: seq<Action>)
    requires RobustInv(w) && LogInv(w)
    ensures RobustInv(Run(w, acts)) && LogInv(Run(w, acts))
    decreases |acts|
  {
    if acts != [] {
      StepRobust(w, acts[0]);
      RunRobust(Step(w, acts[0]), acts[1..]);
    }
  }

  lemma IniSteady(w: World, fault: Fault)
    requires SteadyInv(w)
    ensures SteadyInv(IniStep(w, fault))
  {
    IniRobust(w, fault);
  }

  lemma ResSteady(w: World, fault: Fault)
    requires SteadyInv(w)
    ensures SteadyInv(ResStep(w, fault))
  {
    ResRobust(w, fault);
  }

  lemma StepSteady(w: World, act: Action)
    requires SteadyInv(w)
    ensures SteadyInv(Step(w, act))
  {
    match act {
      case Wait(_) =>
      case Ini(fault) => IniSteady(w, fault);
      case Res(fault) => ResSteady(w, fault);
    }
  }

  lemma {:induction false} RunSteady(w: World, acts: seq<Action>)
    requires SteadyInv(w)
    ensures SteadyInv(Run(w, acts))
    decreases |acts|
  {
    if acts != [] {
      StepSteady(w, acts[0]);
      RunSteady(Step(w, acts[0]), acts[1..]);
    }
  }

  /** Whatever the responder does or fails to read, the initiator's beliefs stay true. */
  lemma StepIniTrue(w: World, act: Action)
    requires SteadyInv(w) && IniTrue(w) && (act.Ini? ==> !act.fault.Swallowed?)
    ensures IniTrue(Step(w, act))
  {
  }

  /** Whatever the initiator does or fails to read, the responder's beliefs stay true. */
  lemma StepResTrue(w: World, act: Action)
    requires SteadyInv(w) && ResTrue(w) && (act.Res? ==> !act.fault.Swallowed?)
    ensures ResTrue(Step(w, act))
  {
  }

  lemma {:induction false} RunTrue(w: World, acts: seq<Action>)
    requires SteadyInv(w)
    ensures IniTrue(w) && IniReadable(acts) ==> IniTrue(Run(w, acts))
    ensures ResTrue(w) && ResReadable(acts) ==> ResTrue(Run(w, acts))
    decreases |acts|
  {
    if acts != [] {
      StepSteady(w, acts[0]);
      if IniTrue(w) && IniReadable(acts) {
        StepIniTrue(w, acts[0]);
      }
      if ResTrue(w) && ResReadable(acts) {
        StepResTrue(w, acts[0]);
      }
      RunTrue(Step(w, acts[0]), acts[1..]);
    }
  }
}
