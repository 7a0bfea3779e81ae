/**
 What a tick is for: however the tasks are scheduled, it gets to both children behind what was
 queued before it, and there every request still in the map is handled.
 */
module Ticks {
  import opened Swaps
  import opened Tasks
  import opened TickLoops
  import opened TaskSystem
  import opened Recovery

  // ---------------------------------------------------------------- queues are first-in first-out

  function InboxTurns(acts: seq<Action>): nat {
    if acts == [] then 0 else (if acts[0].ParentInbox? then 1 else 0) + InboxTurns(acts[1..])
  }

  predicate IsTurn(act: Action, delay: bool) {
    if delay then act.RunDelayed? else act.RunImmediate?
  }

  function ChildTurns(acts: seq<Action>, delay: bool): nat {
    if acts == [] then 0 else (if IsTurn(acts[0], delay) then 1 else 0) + ChildTurns(acts[1..], delay)
  }

  lemma InboxStep(s: Sys, act: Action, q: seq<In>)
    requires !act.Crash? && q <= s.inbox && (act.ParentInbox? ==> q != [])
    ensures (if act.ParentInbox? then q[1..] else q) <= Step(s, act).inbox
  {
    if act.ParentInbox? && s.inbox[0].Boot? {
      ResendKeeps(s.(inbox := s.inbox[1..]), act.order, s.inbox[0].password);
    }
  }

  /** What was in the inbox is taken from it in order, one message with each turn of the parent. */
  lemma {:induction false} InboxInOrder(s: Sys, acts: seq<Action>, q: seq<In>)
    requires NoCrash(acts) && q <= s.inbox && InboxTurns(acts) <= |q|
    ensures q[InboxTurns(acts)..] <= Run(s, acts).inbox
    decreases |acts|
  {
    if acts != [] {
      InboxStep(s, acts[0], q);
      InboxInOrder(Step(s, acts[0]), acts[1..], if acts[0].ParentInbox? then q[1..] else q);
    }
  }

  lemma HandleAllQueue(c: Child, walk: seq<SwapID>, effect: SwapBlob -> Effect)
    ensures HandleAll(c, walk, effect).queue == c.queue
    decreases |walk|
  {
    if walk != [] {
      var c' := if walk[0] in c.live then Handle(c, c.live[walk[0]], effect(c.live[walk[0]])) else c;
      HandleAllQueue(c', walk[1..], effect);
    }
  }

  lemma RunChildQueue(c: Child, effect: SwapBlob -> Effect, walk: seq<SwapID>)
    ensures RunChild(c, effect, walk).queue == if c.queue == [] then [] else c.queue[1..]
  {
    if c.queue != [] {
      HandleAllQueue(c.(queue := c.queue[1..]), walk, effect);
    }
  }

  lemma ParentQueue(s: Sys, act: Action, delay: bool)
    requires act.ParentInbox?
    ensures Get(s, delay).queue <= Get(Step(s, act), delay).queue
  {
    if s.inbox != [] && s.inbox[0].Boot? {
      var t := s.(inbox := s.inbox[1..]);
      ResendQueues(t, t, act.order, s.inbox[0].password);
    }
  }

  lemma QueueStep(s: Sys, act: Action, delay: bool, q: seq<Down>)
    requires !act.Crash? && q <= Get(s, delay).queue && (IsTurn(act, delay) ==> q != [])
    ensures (if IsTurn(act, delay) then q[1..] else q) <= Get(Step(s, act), delay).queue
  {
    match act
    case ParentInbox(_, _) => ParentQueue(s, act, delay);
    case RunDelayed(answers, walk) => RunChildQueue(s.delayed, DelayedEffects(answers), walk);
    case RunImmediate(passes, walk) => RunChildQueue(s.immediate, ImmediateEffects(passes), walk);
    case _ =>
  }

  /** So is what was in a child's queue. */
  lemma {:induction false} QueueInOrder(s: Sys, acts: seq<Action>, delay: bool, q: seq<Down>)
    requires NoCrash(acts) && q <= Get(s, delay).queue && ChildTurns(acts, delay) <= |q|
    ensures q[ChildTurns(acts, delay)..] <= Get(Run(s, acts), delay).queue
    decreases |acts|
  {
    if acts != [] {
      QueueStep(s, acts[0], delay, q);
      QueueInOrder(Step(s, acts[0]), acts[1..], delay, if IsTurn(acts[0], delay) then q[1..] else q);
    }
  }

  /** The parent has come to the tick, whatever else has happened since. */
  lemma TickReachesParent(s: Sys, acts: seq<Action>)
    requires NoCrash(acts) && InboxTurns(acts) == |s.inbox|
    ensures var v := Run(Step(s, PostTick), acts); v.inbox != [] && v.inbox[0].Tick?
  {
    var q := s.inbox + [In.Tick];
    InboxInOrder(Step(s, PostTick), acts, q);
    assert q[|s.inbox|..] == [In.Tick];
  }

  /** Then each child comes to it, after what it had in its queue. */
  lemma TickReachesChild(v: Sys, fault: Fault, order: seq<SwapID>, acts: seq<Action>, delay: bool)
    requires v.inbox != [] && v.inbox[0].Tick?
    requires NoCrash(acts) && ChildTurns(acts, delay) == |Get(v, delay).queue|
    ensures var r := Run(Step(v, ParentInbox(fault, order)), acts);
            Get(r, delay).queue != [] && Get(r, delay).queue[0] == TickDown
  {
    var q := Get(v, delay).queue + [TickDown];
    QueueInOrder(Step(v, ParentInbox(fault, order)), acts, delay, q);
    assert q[|Get(v, delay).queue|..] == [TickDown];
  }

  // ---------------------------------------------------------------- every request is handled

  lemma {:induction false} UpsOfWalk(live: map<SwapID, SwapBlob>, walk: seq<SwapID>, effect: SwapBlob -> Effect,
                                     id: SwapID, m: Up)
    requires (forall x | x in walk :: x in live) && id in walk && m in effect(live[id]).ups
    ensures m in AllUps(live, walk, effect)
    decreases |walk|
  {
    if walk[0] != id {
      UpsOfWalk(live, walk[1..], effect, id, m);
    }
  }

  lemma TickHandles(c: Child, effect: SwapBlob -> Effect, walk: seq<SwapID>, id: SwapID)
    requires c.queue != [] && c.queue[0] == TickDown && Keyed(c.live) && Walks(walk, c.live) && id in c.live
    ensures var c' := RunChild(c, effect, walk);
            && (forall m | m in effect(c.live[id]).ups :: m in c'.up)
            && (id in c'.live <==> !effect(c.live[id]).fate.Released?)
            && (id in c'.live ==> c'.live[id] == c.live[id])
  {
    var popped := c.(queue := c.queue[1..]);
    EveryRequestOnce(popped, walk, effect);
    forall m | m in effect(c.live[id]).ups ensures m in RunChild(c, effect, walk).up {
      UpsOfWalk(c.live, walk, effect, id, m);
    }
  }

  /** What the delayed child does about a waiting swap when the broker has given this answer. */
  predicate Asked(c: Child, c': Child, id: SwapID, answer: Answer)
    requires id in c.live
  {
    match answer
    case FilledIn(terms) => id !in c'.live && Filled(Fill(c.live[id], terms)) in c'.up
    case CancelledSwap => id !in c'.live && Receipt(id, Became(Cancelled)) in c'.up && Delete(id) in c'.up
    case Unavailable => id in c'.live && c'.live[id] == c.live[id]
    case Broken => id in c'.live && c'.live[id] == c.live[id] && Failure in c'.up
  }

  /** What the immediate child does about a live swap whose pass goes like this. */
  predicate Passed(c: Child, c': Child, id: SwapID, pass: Pass)
    requires id in c.live
  {
    match pass
    case Unbuilt => id in c'.live && c'.live[id] == c.live[id] && Failure in c'.up
    case Retry(status, _) => id in c'.live && c'.live[id] == c.live[id] && Receipt(id, Became(status)) in c'.up
    case Finish(outcome) =>
      id !in c'.live && Receipt(id, Became(FinalStatus(outcome))) in c'.up && Delete(id) in c'.up
  }

  lemma AskedByTick(c: Child, answers: SwapID -> Answer, walk: seq<SwapID>, id: SwapID)
    requires c.queue != [] && c.queue[0] == TickDown && Keyed(c.live) && Walks(walk, c.live) && id in c.live
    ensures Asked(c, RunChild(c, DelayedEffects(answers), walk), id, answers(id))
  {
    TickHandles(c, DelayedEffects(answers), walk, id);
  }

  lemma PassedByTick(c: Child, passes: SwapBlob -> Pass, walk: seq<SwapID>, id: SwapID)
    requires c.queue != [] && c.queue[0] == TickDown && Keyed(c.live) && Walks(walk, c.live) && id in c.live
    ensures Passed(c, RunChild(c, ImmediateEffects(passes), walk), id, passes(c.live[id]))
  {
    TickHandles(c, ImmediateEffects(passes), walk, id);
    var ups := ImmediateEffects(passes)(c.live[id]).ups;
    assert forall i | 0 <= i < |ups| :: ups[i] in ups;
  }

  /** A tick is posted, and after `before` and `between` the child has come to it. */
  ghost predicate TickCame(s: Sys, before: seq<Action>, fault: Fault, order: seq<SwapID>, between: seq<Action>,
                           delay: bool) {
    var v := Run(Step(s, PostTick), before);
    && NoCrash(before) && InboxTurns(before) == |s.inbox|
    && NoCrash(between) && ChildTurns(between, delay) == |Get(v, delay).queue|
  }

  function AtTick(s: Sys, before: seq<Action>, fault: Fault, order: seq<SwapID>, between: seq<Action>): Sys {
    Run(Step(Run(Step(s, PostTick), before), ParentInbox(fault, order)), between)
  }

  lemma TickIsNext(s: Sys, before: seq<Action>, fault: Fault, order: seq<SwapID>, between: seq<Action>, delay: bool)
    requires Inv(s) && TickCame(s, before, fault, order, between, delay)
    requires SingleOwner(AtTick(s, before, fault, order, between))
    ensures var c := Get(AtTick(s, before, fault, order, between), delay);
            c.queue != [] && c.queue[0] == TickDown && Keyed(c.live)
  {
    var v := Run(Step(s, PostTick), before);
    TickReachesParent(s, before);
    TickReachesChild(v, fault, order, between, delay);
    var acts := [PostTick] + before + [ParentInbox(fault, order)] + between;
    AtTickIsRun(s, before, fault, order, between);
    RunInv(s, acts);
    assert ChildOk(Run(s, acts), Get(Run(s, acts), delay), delay);
  }

  lemma AtTickIsRun(s: Sys, before: seq<Action>, fault: Fault, order: seq<SwapID>, between: seq<Action>)
    ensures AtTick(s, before, fault, order, between)
            == Run(s, [PostTick] + before + [ParentInbox(fault, order)] + between)
  {
    var turn := ParentInbox(fault, order);
    RunAppend(s, [PostTick] + before + [turn], between);
    RunAppend(s, [PostTick] + before, [turn]);
    RunAppend(s, [PostTick], before);
    assert [PostTick][1..] == [] && [turn][1..] == [];
    assert Run(Run(Step(s, PostTick), before), [turn]) == Step(Run(Step(s, PostTick), before), turn);
    assert Run(s, [PostTick]) == Step(s, PostTick);
  }

  /**
   Under every schedule without a crash in between: once the parent has had a turn for each message
   that was in its inbox when the tick was posted, and the delayed child one for each that was in
   its queue then, the child's next turn puts every swap waiting in its map to the broker.
   */
  lemma EveryWaitingSwapIsAsked(s: Sys, before: seq<Action>, fault: Fault, order: seq<SwapID>, between: seq<Action>,
                                answers: SwapID -> Answer, walk: seq<SwapID>, id: SwapID)
    requires Inv(s) && TickCame(s, before, fault, order, between, true)
    requires SingleOwner(AtTick(s, before, fault, order, between))
    requires var c := AtTick(s, before, fault, order, between).delayed; Walks(walk, c.live) && id in c.live
    ensures var r := AtTick(s, before, fault, order, between);
            Asked(r.delayed, Step(r, RunDelayed(answers, walk)).delayed, id, answers(id))
  {
    TickIsNext(s, before, fault, order, between, true);
    AskedByTick(AtTick(s, before, fault, order, between).delayed, answers, walk, id);
  }

  /** And the immediate child's next turn gives every swap in its map a pass. */
  lemma EveryLiveSwapGetsAPass(s: Sys, before: seq<Action>, fault: Fault, order: seq<SwapID>, between: seq<Action>,
                               passes: SwapBlob -> Pass, walk: seq<SwapID>, id: SwapID)
    requires Inv(s) && TickCame(s, before, fault, order, between, false)
    requires SingleOwner(AtTick(s, before, fault, order, between))
    requires var c := AtTick(s, before, fault, order, between).immediate; Walks(walk, c.live) && id in c.live
    ensures var r := AtTick(s, before, fault, order, between);
            Passed(r.immediate, Step(r, RunImmediate(passes, walk)).immediate, id, passes(r.immediate.live[id]))
  {
    TickIsNext(s, before, fault, order, between, false);
    PassedByTick(AtTick(s, before, fault, order, between).immediate, passes, walk, id);
  }
}
