/**
 Repeated passes of both daemons, call by call and in any interleaving: what the two programs do
 to the two contracts over a swap's whole life is one run of the protocol.
 */
module Interleaving {
  import opened Common
  import opened Swaps
  import opened Protocol
  import opened Passes
  import opened Atomicity

  /**
   One call of a daemon, with the answers it gets; time passing; or a whole pass that the other
   daemon does not interrupt. A daemon whose pass is over starts the next one with its next call.
   */
  datatype Turn = IniTurn(env: Env) | ResTurn(env: Env) | Sleep(seconds: nat) | WholePass(blob: SwapBlob, env: Env)

  function PassFromHere(w: World, blob: SwapBlob, env: Env): World {
    if blob.shouldInitiateFirst then IniPass(w, env, 3) else ResPass(w, env, 4)
  }

  function TurnStep(w: World, turn: Turn): World {
    match turn
    case IniTurn(env) => IniCall(w, env)
    case ResTurn(env) => ResCall(w, env)
    case Sleep(seconds) => Step(w, Wait(seconds))
    case WholePass(blob, env) => PassFromHere(w, blob, env)
  }

  function TurnRun(w: World, turns: seq<Turn>): World
    decreases |turns|
  {
    if turns == [] then w else TurnRun(TurnStep(w, turns[0]), turns[1..])
  }

  lemma TurnIsRun(w: World, turn: Turn) returns (acts: seq<Action>)
    ensures Run(w, acts) == TurnStep(w, turn)
  {
    match turn
    case IniTurn(env) =>
      acts := [Ini(IniFault(w, env))];
      RunOne(w, acts[0]);
    case ResTurn(env) =>
      acts := [Res(ResFault(w, env))];
      RunOne(w, acts[0]);
    case Sleep(seconds) =>
      acts := [Wait(seconds)];
      RunOne(w, acts[0]);
    case WholePass(blob, env) =>
      if blob.shouldInitiateFirst {
        acts := IniPassIsRun(w, env, 3);
      } else {
        acts := ResPassIsRun(w, env, 4);
      }
  }

  /** Any interleaving is one run of the protocol. */
  lemma {:induction false} TurnsAreRun(w: World, turns: seq<Turn>) returns (acts: seq<Action>)
    ensures Run(w, acts) == TurnRun(w, turns)
    decreases |turns|
  {
    acts := [];
    if turns != [] {
      var first := TurnIsRun(w, turns[0]);
      var rest := TurnsAreRun(TurnStep(w, turns[0]), turns[1..]);
      RunAppend(w, first, rest);
      acts := first + rest;
    }
  }

  /** So over any number of passes of both daemons, interleaved call by call, the swap stays atomic. */
  lemma PassesAreAtomic(w: World, turns: seq<Turn>)
    requires Initial(w)
    ensures !Violated(TurnRun(w, turns))
  {
    var acts := TurnsAreRun(w, turns);
    Atomic(w, acts);
  }

  // ---------------------------------------------------------------- one pass among others

  /** The contracts the pass is given are those of this world, seen from the daemon's side. */
  predicate Faces(w: World, blob: SwapBlob, env: Env) {
    && env.now == w.now && env.native.terms.timeLock == w.timeLock && env.foreign.terms.preimage == w.preimage
    && (if blob.shouldInitiateFirst
        then w.ini.IInitiate? && env.native.record == w.a && env.foreign.record == w.b
        else w.res.RAudit? && env.native.record == w.b && env.foreign.record == w.a)
  }

  predicate SameForIni(w: World, v: World) {
    w.now == v.now && w.timeLock == v.timeLock && w.preimage == v.preimage && w.a == v.a && w.b == v.b && w.ini == v.ini
  }

  predicate SameForRes(w: World, v: World) {
    w.now == v.now && w.timeLock == v.timeLock && w.preimage == v.preimage && w.a == v.a && w.b == v.b && w.res == v.res
  }

  function CallsLeft(pc: ResPc): nat {
    match pc
    case RAudit => 4
    case RInitiate => 3
    case RSecret => 2
    case RRefund => 1
    case RRedeem(_) => 1
    case RDone => 0
  }

  lemma IniStepSame(w: World, v: World, fault: Fault)
    requires SameForIni(w, v) && !w.ini.IDone?
    ensures var w', v' := IniStep(w, fault), IniStep(v, fault);
            && SameForIni(w', v')
            && (w'.ini.IInitiate? || w'.ini.IDone? ==> w'.iniStatus == v'.iniStatus)
            && (w'.ini.IInitiate? || IniRank(w'.ini) < IniRank(w.ini))
  {
  }

  lemma IniCallSame(w: World, v: World, env: Env)
    requires SameForIni(w, v) && !w.ini.IDone?
    ensures var w', v' := IniCall(w, env), IniCall(v, env);
            && SameForIni(w', v')
            && (w'.ini.IInitiate? || w'.ini.IDone? ==> w'.iniStatus == v'.iniStatus)
            && (w'.ini.IInitiate? || IniRank(w'.ini) < IniRank(w.ini))
  {
    assert IniFault(w, env) == IniFault(v, env);
    IniStepSame(w, v, IniFault(w, env));
  }

  lemma ResStepSame(w: World, v: World, fault: Fault)
    requires SameForRes(w, v) && !w.res.RDone?
    ensures var w', v' := ResStep(w, fault), ResStep(v, fault);
            && SameForRes(w', v')
            && (w'.res.RAudit? || w'.res.RDone? ==> w'.resStatus == v'.resStatus)
            && (w'.res.RAudit? || CallsLeft(w'.res) < CallsLeft(w.res))
  {
  }

  lemma ResCallSame(w: World, v: World, env: Env)
    requires SameForRes(w, v) && !w.res.RDone?
    ensures var w', v' := ResCall(w, env), ResCall(v, env);
            && SameForRes(w', v')
            && (w'.res.RAudit? || w'.res.RDone? ==> w'.resStatus == v'.resStatus)
            && (w'.res.RAudit? || CallsLeft(w'.res) < CallsLeft(w.res))
  {
    assert ResFault(w, env) == ResFault(v, env);
    ResStepSame(w, v, ResFault(w, env));
  }

  lemma {:induction false} IniPassSame(w: World, v: World, env: Env, calls: nat)
    requires SameForIni(w, v) && !w.ini.IDone? && calls >= IniRank(w.ini)
    ensures var w', v' := IniPass(w, env, calls), IniPass(v, env, calls);
            SameForIni(w', v') && w'.iniStatus == v'.iniStatus
    decreases calls
  {
    IniCallSame(w, v, env);
    var w' := IniCall(w, env);
    if !w'.ini.IInitiate? && !w'.ini.IDone? {
      IniPassSame(w', IniCall(v, env), env, calls - 1);
    }
  }

  lemma {:induction false} ResPassSame(w: World, v: World, env: Env, calls: nat)
    requires SameForRes(w, v) && !w.res.RDone? && calls >= CallsLeft(w.res)
    ensures var w', v' := ResPass(w, env, calls), ResPass(v, env, calls);
            SameForRes(w', v') && w'.resStatus == v'.resStatus
    decreases calls
  {
    ResCallSame(w, v, env);
    var w' := ResCall(w, env);
    if !w'.res.RAudit? && !w'.res.RDone? {
      ResPassSame(w', ResCall(v, env), env, calls - 1);
    }
  }

  /**
   What a pass of the program leaves behind, wherever in the life of the swap it takes place, is
   what the protocol's calls leave behind there: both records, the reported status and whether
   it was the last pass.
   */
  lemma PassAnywhere(w: World, blob: SwapBlob, env: Env)
    requires Faces(w, blob, env)
    ensures var v := PassFromHere(w, blob, env);
            ResultOf(blob, env) == if blob.shouldInitiateFirst then Result(v.a, v.b, v.iniStatus, v.ini.IDone?)
                                   else Result(v.b, v.a, v.resStatus, v.res.RDone?)
  {
    if blob.shouldInitiateFirst {
      IniPassSame(w, WorldOf(blob, env), env, 3);
    } else {
      ResPassSame(w, WorldOf(blob, env), env, 4);
    }
  }
}
