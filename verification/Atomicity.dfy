/**
 What the two daemons guarantee together: theorems over every run of the protocol, from
 every initial clock, time lock and preimage, and under every interleaving and fault.
 */
module Atomicity {
  import opened Ledger
  import opened Swaps
  import opened Protocol

  /** One side was claimed although the other was refunded. */
  ghost predicate Violated(w: World) {
    (w.a.Closed? && w.b.Expired?) || (w.b.Closed? && w.a.Expired?)
  }

  lemma {:induction false} RunAppend(w: World, acts: seq<Action>, later: seq<Action>)
    ensures Run(w, acts + later) == Run(Run(w, acts), later)
    decreases |acts|
  {
    if acts == [] {
      assert acts + later == later;
    } else {
      assert (acts + later)[1..] == acts[1..] + later;
      RunAppend(Step(w, acts[0]), acts[1..], later);
    }
  }

  lemma RunOne(w: World, x: Action)
    ensures Run(w, [x]) == Step(w, x)
  {
  }

  lemma RunTwo(w: World, x: Action, y: Action)
    ensures Run(w, [x, y]) == Step(Step(w, x), y)
  {
    assert [x, y][1..] == [y];
    RunOne(Step(w, x), y);
  }

  lemma RunThree(w: World, x: Action, y: Action, z: Action)
    ensures Run(w, [x, y, z]) == Step(Step(Step(w, x), y), z)
  {
    assert [x, y, z][1..] == [y, z];
    RunTwo(Step(w, x), y, z);
  }

  // ---------------------------------------------------------------- atomicity

  /** Under every interleaving, error and swallowed precondition. */
  lemma Atomic(w: World, acts: seq<Action>)
    requires Initial(w)
    ensures !Violated(Run(w, acts))
  {
    RunRobust(w, acts);
  }

  // ---------------------------------------------------------------- event order

  ghost predicate Precedes(log: seq<Event>, first: Event, second: Event) {
    forall j | 0 <= j < |log| && log[j] == second :: exists i | 0 <= i < j :: log[i] == first
  }

  lemma {:induction false} OrderedPrecedes(log: seq<Event>, first: Event, second: Event)
    requires Ordered(log)
    requires forall l :: Enabled(second, l) ==> first in l
    ensures Precedes(log, first, second)
  {
    if log != [] {
      var n := |log| - 1;
      OrderedPrecedes(log[..n], first, second);
      forall j | 0 <= j < |log| && log[j] == second ensures exists i | 0 <= i < j :: log[i] == first {
        if j == n {
          assert first in log[..n];
        } else {
          assert log[..n][j] == second;
        }
      }
    }
  }

  lemma {:induction false} OrderedDistinct(log: seq<Event>)
    requires Ordered(log)
    ensures forall i, j | 0 <= i < j < |log| :: log[i] != log[j]
  {
    if log != [] {
      var n := |log| - 1;
      OrderedDistinct(log[..n]);
      assert forall i | 0 <= i < n :: log[i] == log[..n][i] && log[i] in log[..n];
    }
  }

  /**
   Funds and claims appear on the ledgers in one order only, each at most once; and the log
   says exactly which ledger states were passed through.
   */
  lemma EventOrder(w: World, acts: seq<Action>)
    requires Initial(w)
    ensures var log := Run(w, acts).log;
            && Precedes(log, OpenedA, OpenedB)
            && Precedes(log, OpenedB, ClaimedB)
            && Precedes(log, ClaimedB, ClaimedA)
            && Precedes(log, OpenedA, RefundedA)
            && Precedes(log, OpenedB, RefundedB)
            && (forall i, j | 0 <= i < j < |log| :: log[i] != log[j])
    ensures var w' := Run(w, acts);
            && (ClaimedA in w'.log <==> w'.a.Closed?)
            && (ClaimedB in w'.log <==> w'.b.Closed?)
            && (RefundedA in w'.log <==> w'.a.Expired?)
            && (RefundedB in w'.log <==> w'.b.Expired?)
  {
    RunRobust(w, acts);
    var log := Run(w, acts).log;
    OrderedDistinct(log);
    OrderedPrecedes(log, OpenedA, OpenedB);
    OrderedPrecedes(log, OpenedB, ClaimedB);
    OrderedPrecedes(log, ClaimedB, ClaimedA);
    OrderedPrecedes(log, OpenedA, RefundedA);
    OrderedPrecedes(log, OpenedB, RefundedB);
  }

  // ---------------------------------------------------------------- outcome truth

  lemma {:induction false} FinishedStays(w: World, acts: seq<Action>)
    ensures w.ini.IDone? ==> Run(w, acts).ini.IDone? && Run(w, acts).iniStatus == w.iniStatus
    ensures w.res.RDone? ==> Run(w, acts).res.RDone? && Run(w, acts).resStatus == w.resStatus
    decreases |acts|
  {
    if acts != [] {
      FinishedStays(Step(w, acts[0]), acts[1..]);
    }
  }

  lemma StepKeepsSettled(w: World, act: Action)
    ensures w.a.Closed? || w.a.Expired? ==> Step(w, act).a == w.a
    ensures w.b.Closed? || w.b.Expired? ==> Step(w, act).b == w.b
  {
    StepShape(w, act);
  }

  /** A claimed or refunded contract never changes again. */
  lemma {:induction false} SettledStays(w: World, acts: seq<Action>)
    ensures w.a.Closed? || w.a.Expired? ==> Run(w, acts).a == w.a
    ensures w.b.Closed? || w.b.Expired? ==> Run(w, acts).b == w.b
    decreases |acts|
  {
    if acts != [] {
      StepKeepsSettled(w, acts[0]);
      SettledStays(Step(w, acts[0]), acts[1..]);
    }
  }

  /**
   Once the initiator has reported Refunded, B is never claimed, whatever happens before or
   after; and A is refunded for good, if the initiator could read its preconditions up to then.
   */
  lemma InitiatorRefundedIsTrue(w: World, acts: seq<Action>, later: seq<Action>)
    requires Initial(w)
    requires Run(w, acts).iniStatus.Refunded?
    ensures !Run(w, acts + later).b.Closed?
    ensures IniReadable(acts) ==> Run(w, acts + later).a.Expired?
  {
    RunSteady(w, acts);
    RunTrue(w, acts);
    RunSteady(w, acts + later);
    RunAppend(w, acts, later);
    FinishedStays(Run(w, acts), later);
    SettledStays(Run(w, acts), later);
  }

  /**
   Once a responder that could read its preconditions has reported Redeemed, both sides are
   claimed, with the same key, for good.
   */
  lemma ResponderRedeemedIsTrue(w: World, acts: seq<Action>, later: seq<Action>)
    requires Initial(w) && ResReadable(acts)
    requires Run(w, acts).resStatus.Redeemed?
    ensures var w' := Run(w, acts + later); w'.a.Closed? && w'.b == Closed(w'.preimage)
  {
    RunSteady(w, acts);
    RunTrue(w, acts);
    RunSteady(w, acts + later);
    RunAppend(w, acts, later);
    SettledStays(Run(w, acts), later);
  }

  /** A responder that reports Expired never locked anything, and never will. */
  lemma ResponderExpiredLockedNothing(w: World, acts: seq<Action>, later: seq<Action>)
    requires Initial(w)
    requires Run(w, acts).resStatus.Expiration?
    ensures Run(w, acts + later).b.Invalid?
  {
    RunRobust(w, acts);
    RunRobust(w, acts + later);
    RunAppend(w, acts, later);
    FinishedStays(Run(w, acts), later);
  }

  /**
   When each final report is true, in every run. The last call of a daemon reports success also
   when its precondition was false or could not be read, so a refund is real exactly when the
   contract was open and could be read; a claim is real exactly when the contract was claimed
   already, or was open and could be read. The responder's claim always finds A open or claimed.
   */
  lemma ReportsExact(w: World, acts: seq<Action>, fault: Fault)
    requires Initial(w)
    ensures var v := Run(w, acts);
            var v' := Step(v, Ini(fault));
            && (v.ini.IRefund? && v'.ini.IDone? ==> (v'.a.Expired? <==> v.a.Open? && fault.NoFault?))
            && (v.ini.IRedeem? && v'.ini.IDone? ==> (v'.b.Closed? <==> v.b.Closed? || (v.b.Open? && fault.NoFault?)))
    ensures var v := Run(w, acts);
            var v' := Step(v, Res(fault));
            && (v.res.RRefund? && v'.res.RDone? ==> (v'.b.Expired? <==> v.b.Open? && fault.NoFault?))
            && (v.res.RRedeem? && v'.res.RDone? ==> (v'.a.Closed? <==> v.a.Closed? || fault.NoFault?))
  {
    RunSteady(w, acts);
  }

  const Clean := Ini(NoFault)
  const Reply := Res(NoFault)

  const Start := World(0, 0, [], Invalid, Invalid, IInitiate, RAudit, Inactive, Inactive, [])

  /** Both daemons are past their audits when the time lock passes. */
  const RaceActs := [Clean, Reply, Reply, Clean, Wait(1), Reply]

  const Race := World(1, 0, [], Open, Open, IRedeem, RRefund, Inactive, Inactive, [OpenedA, OpenedB])

  lemma RaceIsReachable()
    ensures Initial(Start) && Run(Start, RaceActs) == Race
  {
    RunThree(Start, Clean, Reply, Reply);
    RunThree(Step(Step(Step(Start, Clean), Reply), Reply), Clean, Wait(1), Reply);
    RunAppend(Start, [Clean, Reply, Reply], [Clean, Wait(1), Reply]);
    assert RaceActs == [Clean, Reply, Reply] + [Clean, Wait(1), Reply];
  }

  /** From the race either report can be wrong, whichever daemon moves second. */
  lemma ReportsCanBeWrong()
    ensures Initial(Start)
    ensures var w := Run(Start, RaceActs + [Reply, Clean]);
            w.iniStatus.Redeemed? && w.b.Expired? && w.a.Open?
    ensures var w := Run(Start, RaceActs + [Clean, Reply]);
            w.resStatus.Refunded? && w.b.Closed? && w.a.Open?
  {
    RaceIsReachable();
    RunAppend(Start, RaceActs, [Reply, Clean]);
    RunAppend(Start, RaceActs, [Clean, Reply]);
    RunTwo(Race, Reply, Clean);
    RunTwo(Race, Clean, Reply);
  }

  /** A refund whose precondition cannot be read is reported all the same, and the coins stay locked. */
  lemma SwallowedRefund()
    ensures Initial(Start)
    ensures var w := Run(Start, [Clean, Wait(1)] + [Clean, Ini(Swallowed)]); w.iniStatus.Refunded? && w.a.Open?
  {
    RunAppend(Start, [Clean, Wait(1)], [Clean, Ini(Swallowed)]);
    RunTwo(Start, Clean, Wait(1));
    RunTwo(Run(Start, [Clean, Wait(1)]), Clean, Ini(Swallowed));
  }

  // ---------------------------------------------------------------- punctual runs

  /** The initiator never sends its Redeem after the time lock. */
  ghost predicate Punctual(w: World, acts: seq<Action>)
    decreases |acts|
  {
    acts != [] ==>
      && (acts[0].Ini? && w.ini.IRedeem? ==> w.now <= w.timeLock)
      && Punctual(Step(w, acts[0]), acts[1..])
  }

  /** What punctuality adds: a refund finds B open, and a readable claim is real. */
  ghost predicate PunctualInv(w: World, iniReadable: bool, resReadable: bool) {
    && (w.res.RRefund? ==> w.b.Open?)
    && (iniReadable ==> IniTrue(w) && (w.iniStatus.Redeemed? ==> w.b.Closed?))
    && (resReadable ==> ResTrue(w) && (w.resStatus.Refunded? ==> w.b.Expired?))
  }

  lemma PunctualStep(w: World, act: Action, iniReadable: bool, resReadable: bool)
    requires SteadyInv(w) && PunctualInv(w, iniReadable, resReadable)
    requires act.Ini? && w.ini.IRedeem? ==> w.now <= w.timeLock
    requires iniReadable && act.Ini? ==> !act.fault.Swallowed?
    requires resReadable && act.Res? ==> !act.fault.Swallowed?
    ensures PunctualInv(Step(w, act), iniReadable, resReadable)
  {
    if iniReadable {
      StepIniTrue(w, act);
    }
    if resReadable {
      StepResTrue(w, act);
    }
  }

  lemma {:induction false} PunctualRun(w: World, acts: seq<Action>, iniReadable: bool, resReadable: bool)
    requires SteadyInv(w) && PunctualInv(w, iniReadable, resReadable) && Punctual(w, acts)
    requires (iniReadable ==> IniReadable(acts)) && (resReadable ==> ResReadable(acts))
    ensures PunctualInv(Run(w, acts), iniReadable, resReadable)
    decreases |acts|
  {
    if acts != [] {
      StepSteady(w, acts[0]);
      PunctualStep(w, acts[0], iniReadable, resReadable);
      PunctualRun(Step(w, acts[0]), acts[1..], iniReadable, resReadable);
    }
  }

  /**
   In a punctual run each daemon's reports are true as long as it could read its own
   preconditions; and when both could and both have finished, the swap is settled: both sides
   claimed, or neither claimed and nothing left locked.
   */
  lemma PunctualSettlement(w: World, acts: seq<Action>)
    requires Initial(w) && Punctual(w, acts)
    ensures IniReadable(acts) && Run(w, acts).iniStatus.Redeemed? ==> Run(w, acts).b.Closed?
    ensures ResReadable(acts) && Run(w, acts).resStatus.Refunded? ==> Run(w, acts).b.Expired?
    ensures var v := Run(w, acts);
            IniReadable(acts) && ResReadable(acts) && v.ini.IDone? && v.res.RDone? ==>
              || (v.a.Closed? && v.b.Closed? && v.iniStatus.Redeemed? && v.resStatus.Redeemed?)
              || (v.a.Expired? && (v.b.Expired? || v.b.Invalid?) && v.iniStatus.Refunded?)
  {
    RunSteady(w, acts);
    PunctualRun(w, acts, IniReadable(acts), ResReadable(acts));
  }

  // ---------------------------------------------------------------- termination past expiry

  function IniRank(pc: IniPc): nat {
    match pc
    case IInitiate => 3
    case IAudit => 2
    case IRefund => 1
    case IRedeem => 1
    case IDone => 0
  }

  /** A responder that went on from an unread Initiate has to come round once more. */
  function ResRank(w: World): nat {
    match w.res
    case RAudit => 4
    case RInitiate => 3
    case RSecret => if w.b.Invalid? then 5 else 2
    case RRefund => 1
    case RRedeem(_) => 1
    case RDone => 0
  }

  function IniCalls(acts: seq<Action>): nat {
    if acts == [] then 0 else (if acts[0].Ini? then 1 else 0) + IniCalls(acts[1..])
  }

  function ResCalls(acts: seq<Action>): nat {
    if acts == [] then 0 else (if acts[0].Res? then 1 else 0) + ResCalls(acts[1..])
  }

  /** No call of the initiator goes wrong. */
  predicate IniClean(acts: seq<Action>) {
    forall i | 0 <= i < |acts| && acts[i].Ini? :: acts[i].fault.NoFault?
  }

  predicate ResClean(acts: seq<Action>) {
    forall i | 0 <= i < |acts| && acts[i].Res? :: acts[i].fault.NoFault?
  }

  /** Past the time lock, each call that goes through brings the daemon closer to its end. */
  lemma IniAdvances(w: World)
    requires w.now > w.timeLock && !w.ini.IDone?
    ensures IniRank(IniStep(w, NoFault).ini) < IniRank(w.ini)
  {
  }

  lemma ResAdvances(w: World)
    requires SteadyInv(w) && w.now > w.timeLock && !w.res.RDone?
    ensures ResRank(ResStep(w, NoFault)) < ResRank(w)
  {
  }

  lemma StepClock(w: World, act: Action)
    ensures Step(w, act).now >= w.now && Step(w, act).timeLock == w.timeLock && Step(w, act).preimage == w.preimage
    ensures !act.Ini? ==> Step(w, act).ini == w.ini
    ensures !act.Res? ==> Step(w, act).res == w.res && ResRank(Step(w, act)) <= ResRank(w)
  {
  }

  lemma {:induction false} InitiatorFinishes(w: World, acts: seq<Action>)
    requires w.now > w.timeLock && IniClean(acts) && IniCalls(acts) >= IniRank(w.ini)
    ensures Run(w, acts).ini.IDone?
    decreases |acts|
  {
    if acts != [] {
      StepClock(w, acts[0]);
      if acts[0].Ini? && !w.ini.IDone? {
        IniAdvances(w);
      }
      InitiatorFinishes(Step(w, acts[0]), acts[1..]);
    }
  }

  lemma {:induction false} ResponderFinishes(w: World, acts: seq<Action>)
    requires SteadyInv(w) && w.now > w.timeLock && ResClean(acts) && ResCalls(acts) >= ResRank(w)
    ensures Run(w, acts).res.RDone?
    decreases |acts|
  {
    if acts != [] {
      StepSteady(w, acts[0]);
      StepClock(w, acts[0]);
      if acts[0].Res? && !w.res.RDone? {
        ResAdvances(w);
      }
      ResponderFinishes(Step(w, acts[0]), acts[1..]);
    }
  }

  /**
   After the time lock, whatever went wrong before and whatever the other daemon does or fails
   to do meanwhile: three calls of its own that go through end the initiator's swap from
   anywhere, four the responder's from the start of a pass, and five from anywhere.
   */
  lemma TerminationPastExpiry(w: World, before: seq<Action>, acts: seq<Action>)
    requires Initial(w)
    requires Run(w, before).now > w.timeLock
    ensures IniClean(acts) && IniCalls(acts) >= 3 ==>
              var v := Run(w, before + acts); v.ini.IDone? && (v.iniStatus.Redeemed? || v.iniStatus.Refunded?)
    ensures ResClean(acts) && ResCalls(acts) >= (if Run(w, before).res.RAudit? then 4 else 5) ==>
              var v := Run(w, before + acts);
              v.res.RDone? && (v.resStatus.Redeemed? || v.resStatus.Refunded? || v.resStatus.Expiration?)
  {
    RunSteady(w, before);
    RunSteady(w, before + acts);
    TimeLockFixed(w, before);
    RunAppend(w, before, acts);
    if IniClean(acts) && IniCalls(acts) >= 3 {
      InitiatorFinishes(Run(w, before), acts);
    }
    if ResClean(acts) && ResCalls(acts) >= (if Run(w, before).res.RAudit? then 4 else 5) {
      ResponderFinishes(Run(w, before), acts);
    }
  }

  lemma {:induction false} TimeLockFixed(w: World, acts: seq<Action>)
    ensures Run(w, acts).timeLock == w.timeLock && Run(w, acts).preimage == w.preimage
    ensures Run(w, acts).now >= w.now
    decreases |acts|
  {
    if acts != [] {
      TimeLockFixed(Step(w, acts[0]), acts[1..]);
    }
  }

  // ---------------------------------------------------------------- restarts

  /** A daemon that restarts repeats the swap from its first call. */
  function RestartIni(w: World): World {
    w.(ini := IInitiate, iniStatus := Inactive)
  }

  function RestartRes(w: World): World {
    w.(res := RAudit, resStatus := Inactive)
  }

  datatype Move = Call(act: Action) | CrashIni | CrashRes

  function MoveStep(w: World, move: Move): World {
    match move
    case Call(act) => Step(w, act)
    case CrashIni => RestartIni(w)
    case CrashRes => RestartRes(w)
  }

  function MoveRun(w: World, moves: seq<Move>): World
    decreases |moves|
  {
    if moves == [] then w else MoveRun(MoveStep(w, moves[0]), moves[1..])
  }

  /** The initiator is never restarted on a swap it has already refunded. */
  ghost predicate SafeRestarts(w: World, moves: seq<Move>)
    decreases |moves|
  {
    moves != [] ==>
      && (moves[0].CrashIni? ==> !w.a.Expired?)
      && SafeRestarts(MoveStep(w, moves[0]), moves[1..])
  }

  lemma RestartRobust(w: World, move: Move)
    requires RobustInv(w) && (move.CrashIni? ==> !w.a.Expired?)
    requires !move.Call?
    ensures RobustInv(MoveStep(w, move))
  {
  }

  lemma {:induction false} RestartRun(w: World, moves: seq<Move>)
    requires RobustInv(w) && LogInv(w) && SafeRestarts(w, moves)
    ensures RobustInv(MoveRun(w, moves)) && LogInv(MoveRun(w, moves))
    decreases |moves|
  {
    if moves != [] {
      if moves[0].Call? {
        StepRobust(w, moves[0].act);
      } else {
        RestartRobust(w, moves[0]);
      }
      RestartRun(MoveStep(w, moves[0]), moves[1..]);
    }
  }

  /** Both daemons may restart as often as they like, the initiator only while A is not refunded. */
  lemma AtomicWithRestarts(w: World, moves: seq<Move>)
    requires Initial(w) && SafeRestarts(w, moves)
    ensures !Violated(MoveRun(w, moves))
  {
    RestartRun(w, moves);
  }

  ghost predicate BCanStillOpen(w: World) {
    w.b.Open? || (w.b.Invalid? && !w.res.RDone?)
  }

  lemma {:induction false} NeverClaimable(w: World, acts: seq<Action>)
    requires w.a.Expired? && (w.b.Expired? || (w.b.Invalid? && w.res.RDone?))
    ensures !Violated(Run(w, acts))
    decreases |acts|
  {
    if acts != [] {
      NeverClaimable(Step(w, acts[0]), acts[1..]);
    }
  }

  lemma OpenThenClaim(w: World)
    requires w.a.Expired? && w.b.Open? && w.ini.IInitiate?
    ensures Violated(Run(w, [Clean, Clean, Clean]))
  {
    RunThree(w, Clean, Clean, Clean);
  }

  lemma RestartHarm(w: World)
    requires RobustInv(w) && w.a.Expired?
    ensures (exists acts :: Violated(Run(RestartIni(w), acts))) <==> BCanStillOpen(w)
  {
    var w0 := RestartIni(w);
    if BCanStillOpen(w) {
      var lead :=
        if w.b.Open? then [] else if w.res.RInitiate? then [Reply]
        else if w.res.RAudit? then [Reply, Reply] else [Reply, Reply, Reply];
      var w1 := Run(w0, lead);
      RunOne(w0, Reply);
      RunTwo(w0, Reply, Reply);
      RunThree(w0, Reply, Reply, Reply);
      assert w1.a.Expired? && w1.b.Open? && w1.ini.IInitiate?;
      OpenThenClaim(w1);
      RunAppend(w0, lead, [Clean, Clean, Clean]);
      assert Violated(Run(w0, lead + [Clean, Clean, Clean]));
    } else {
      forall acts ensures !Violated(Run(w0, acts)) {
        NeverClaimable(w0, acts);
      }
    }
  }

  /**
   If the responder is never restarted again, restarting the initiator on a swap it has refunded
   makes a violation possible exactly when B is open or the responder may still open it.
   */
  lemma InitiatorRestartExact(w: World, moves: seq<Move>)
    requires Initial(w) && SafeRestarts(w, moves) && MoveRun(w, moves).a.Expired?
    ensures (exists acts :: Violated(Run(RestartIni(MoveRun(w, moves)), acts))) <==> BCanStillOpen(MoveRun(w, moves))
  {
    RestartRun(w, moves);
    RestartHarm(MoveRun(w, moves));
  }

  function Calls(acts: seq<Action>): seq<Move> {
    seq(|acts|, i requires 0 <= i < |acts| => Call(acts[i]))
  }

  lemma {:induction false} CallsRun(w: World, acts: seq<Action>)
    ensures MoveRun(w, Calls(acts)) == Run(w, acts)
    decreases |acts|
  {
    if acts != [] {
      assert Calls(acts)[1..] == Calls(acts[1..]);
      CallsRun(Step(w, acts[0]), acts[1..]);
    }
  }

  /** Some calls and restarts of the two daemons lead to a violation. */
  ghost predicate CanBeViolated(w: World) {
    exists more: seq<Move> :: Violated(MoveRun(w, more))
  }

  lemma {:induction false} BothRefunded(w: World, more: seq<Move>)
    requires w.a.Expired? && w.b.Expired?
    ensures !Violated(MoveRun(w, more))
    decreases |more|
  {
    if more != [] {
      if more[0].Call? {
        StepKeepsSettled(w, more[0].act);
      }
      BothRefunded(MoveStep(w, more[0]), more[1..]);
    }
  }

  /** A restarted responder accepts a refunded A, opens B, and the restarted initiator claims it. */
  lemma RestartBoth(w: World) returns (more: seq<Move>)
    requires w.a.Expired? && (w.b.Open? || w.b.Invalid?) && w.ini.IInitiate?
    ensures Violated(MoveRun(w, more))
  {
    var acts := [Reply, Reply] + [Clean, Clean, Clean];
    var w1 := RestartRes(w);
    RunTwo(w1, Reply, Reply);
    RunAppend(w1, [Reply, Reply], [Clean, Clean, Clean]);
    OpenThenClaim(Run(w1, [Reply, Reply]));
    CallsRun(w1, acts);
    more := [CrashRes] + Calls(acts);
    assert more[1..] == Calls(acts);
  }

  /**
   Restarting the initiator on a swap it has refunded, from any state the two daemons and any
   safe restarts can reach: with further restarts to come, a violation is possible exactly when
   B has not been refunded.
   */
  lemma RestartExact(w: World, moves: seq<Move>)
    requires Initial(w) && SafeRestarts(w, moves) && MoveRun(w, moves).a.Expired?
    ensures CanBeViolated(RestartIni(MoveRun(w, moves))) <==> !MoveRun(w, moves).b.Expired?
  {
    RestartRun(w, moves);
    var v := RestartIni(MoveRun(w, moves));
    if v.b.Expired? {
      forall more ensures !Violated(MoveRun(v, more)) {
        BothRefunded(v, more);
      }
    } else {
      var more := RestartBoth(v);
    }
  }

  lemma {:induction false} RefundedNeverFinishes(w: World, more: seq<Move>)
    requires w.b.Expired? && !w.a.Invalid? && (w.res.RAudit? || w.res.RInitiate? || w.res.RSecret?)
    ensures !MoveRun(w, more).res.RDone?
    decreases |more|
  {
    if more != [] {
      RefundedNeverFinishes(MoveStep(w, more[0]), more[1..]);
    }
  }

  lemma FourReplies(w: World)
    requires w.res.RAudit? && w.now > w.timeLock && !w.b.Expired?
    ensures Run(w, [Reply, Reply] + [Reply, Reply]).res.RDone?
  {
    RunAppend(w, [Reply, Reply], [Reply, Reply]);
    RunTwo(w, Reply, Reply);
    RunTwo(Run(w, [Reply, Reply]), Reply, Reply);
  }

  /**
   Termination through restarts: wherever any restarts have led and however many are to come, a
   restarted responder can still finish exactly when it has not taken its coins back. Otherwise
   asking for the secret fails for ever, and the swap stays in its map.
   */
  lemma RestartedResponderExact(w: World, moves: seq<Move>)
    requires Initial(w) && SafeRestarts(w, moves)
    ensures var v := RestartRes(MoveRun(w, moves));
            (exists more :: MoveRun(v, more).res.RDone?) <==> !v.b.Expired?
  {
    RestartRun(w, moves);
    var v := RestartRes(MoveRun(w, moves));
    if v.b.Expired? {
      forall more ensures !MoveRun(v, more).res.RDone? {
        RefundedNeverFinishes(v, more);
      }
    } else {
      var wait := Wait(if v.timeLock >= v.now then v.timeLock - v.now + 1 else 0);
      var four := [Reply, Reply] + [Reply, Reply];
      RunOne(v, wait);
      FourReplies(Step(v, wait));
      RunAppend(v, [wait], four);
      CallsRun(v, [wait] + four);
      assert MoveRun(v, Calls([wait] + four)).res.RDone?;
    }
  }
}
