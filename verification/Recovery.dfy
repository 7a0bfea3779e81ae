/**
 What the task system guarantees in every reachable state, crashes and storage errors included:
 one owner per swap, requests that match the pending table, and full recovery by the owner.
 */
module Recovery {
  import opened Common
  import opened Swaps
  import opened Tasks
  import opened TaskSystem

  lemma {:induction false} RunAppend(s: Sys, acts: seq<Action>, later: seq<Action>)
    ensures Run(s, acts + later) == Run(Run(s, acts), later)
    decreases |acts|
  {
    if acts == [] {
      assert acts + later == later;
    } else {
      assert (acts + later)[1..] == acts[1..] + later;
      RunAppend(Step(s, acts[0]), acts[1..], later);
    }
  }

  /** The first step of a run keeps the invariant, the assumption about the whole run being given. */
  lemma InvAlong(s: Sys, acts: seq<Action>)
    requires acts != [] && Inv(s) && SingleOwner(Run(s, acts))
    ensures Inv(Step(s, acts[0])) && SingleOwner(Run(Step(s, acts[0]), acts[1..]))
  {
    RunHistory(Step(s, acts[0]), acts[1..]);
    StepInv(s, acts[0]);
  }

  // ---------------------------------------------------------------- single ownership

  /** Across the inbox, both children's queues and maps, and the fills and deletions in transit. */
  lemma SingleOwnership(s: Sys, acts: seq<Action>, id: SwapID)
    requires Initial(s) && SingleOwner(Run(s, acts))
    ensures Tokens(Run(s, acts), id) <= 1
  {
    RunInv(s, acts);
  }

  predicate Holds(c: Child, blob: SwapBlob) {
    Request(blob) in c.queue || (blob.id in c.live && c.live[blob.id] == blob)
  }

  /**
   Whatever a child holds is, password apart, the pending row of its swap, in the child the
   row's delay flag names; and no row has a password.
   */
  lemma LiveRequestsAreRows(s: Sys, acts: seq<Action>, delay: bool, blob: SwapBlob)
    requires Initial(s) && SingleOwner(Run(s, acts))
    requires Holds(Get(Run(s, acts), delay), blob)
    ensures var r := Run(s, acts);
            && blob.id in r.pending && r.pending[blob.id] == blob.(password := "")
            && blob.delay == delay && r.matches(blob.passwordHash, blob.password)
            && forall id | id in r.pending :: r.pending[id].password == ""
  {
    RunInv(s, acts);
    var c := Get(Run(s, acts), delay);
    if Request(blob) in c.queue {
      var i :| 0 <= i < |c.queue| && c.queue[i] == Request(blob);
    }
  }

  // ---------------------------------------------------------------- phases

  /** A stored swap moves only from delayed to immediate, keeps its owner, and leaves only when finished. */
  ghost predicate RowMoves(s: Sys, s': Sys, id: SwapID) {
    id in s.pending ==>
      if id in s'.pending then
        && (s'.pending[id].delay ==> s.pending[id].delay)
        && s'.pending[id].passwordHash == s.pending[id].passwordHash
      else id in s'.finished
  }

  /** A used ID with no row and no submission waiting: the swap is over for good. */
  predicate Gone(s: Sys, id: SwapID) {
    id in s.posted && id !in s.pending && CountInbox(s.inbox, id) == 0
  }

  lemma {:induction false} ResendKeeps(s: Sys, order: seq<SwapID>, password: string)
    ensures var r := Resend(s, order, password);
            r.pending == s.pending && r.inbox == s.inbox && r.booted == s.booted && r.matches == s.matches
            && r.posted == s.posted && r.passwords == s.passwords && r.finished == s.finished
            && r.delayed.up == s.delayed.up && r.immediate.up == s.immediate.up
            && r.delayed.live == s.delayed.live && r.immediate.live == s.immediate.live
    decreases |order|
  {
    if order != [] {
      var s' := if order[0] in s.pending then SendMine(s, s.pending[order[0]], password) else s;
      ResendKeeps(s', order[1..], password);
    }
  }

  /** What one step does to the pending table. */
  datatype RowChange = Nothing | Put(blob: SwapBlob) | Drop(id: SwapID)

  function UpChange(up: seq<Up>, fault: Fault): RowChange {
    if up == [] then Nothing
    else
      match up[0]
      case Filled(blob) => if fault.FirstWriteFails? then Nothing else Put(blob)
      case Delete(id) => if fault.NoFault? then Drop(id) else Nothing
      case _ => Nothing
  }

  function ChangeOf(s: Sys, act: Action): RowChange {
    match act
    case ParentInbox(fault, _) =>
      if s.inbox != [] && s.inbox[0].Submit? && !fault.FirstWriteFails? then Put(s.inbox[0].blob) else Nothing
    case ParentFromDelayed(fault) => UpChange(s.delayed.up, fault)
    case ParentFromImmediate(fault) => UpChange(s.immediate.up, fault)
    case _ => Nothing
  }

  function Changed(pending: map<SwapID, SwapBlob>, change: RowChange): map<SwapID, SwapBlob> {
    match change
    case Nothing => pending
    case Put(blob) => PutSwap(pending, blob)
    case Drop(id) => pending - {id}
  }

  lemma StepRows(s: Sys, act: Action)
    ensures Step(s, act).pending == Changed(s.pending, ChangeOf(s, act))
    ensures s.finished <= Step(s, act).finished
  {
    match act
    case ParentInbox(fault, order) =>
      if s.inbox != [] && s.inbox[0].Boot? {
        ResendKeeps(s.(inbox := s.inbox[1..]), order, s.inbox[0].password);
      }
    case _ =>
  }

  lemma StepInbox(s: Sys, act: Action, id: SwapID)
    ensures id in s.posted ==> CountInbox(Step(s, act).inbox, id) <= CountInbox(s.inbox, id)
  {
    match act
    case ParentInbox(fault, order) =>
      if s.inbox != [] && s.inbox[0].Boot? {
        ResendKeeps(s.(inbox := s.inbox[1..]), order, s.inbox[0].password);
      }
    case PostSwap(blob) => CountInboxAppend(s.inbox, Submit(blob), id);
    case PostBoot(password) => CountInboxAppend(s.inbox, Boot(password), id);
    case PostTick => CountInboxAppend(s.inbox, In.Tick, id);
    case _ =>
  }

  /** A row that exists is rewritten only by a fill of its owner, and dropped only when finished. */
  lemma UpChangeOk(s: Sys, delay: bool, fault: Fault)
    requires Inv(s)
    ensures match UpChange(Get(s, delay).up, fault)
            case Put(blob) => blob.id in s.pending && s.pending[blob.id].delay && !blob.delay && Owned(s, blob)
                              && ChildTokens(Get(s, delay), blob.id) > 0
            case Drop(id) => id in s.finished && id in s.pending && ChildTokens(Get(s, delay), id) > 0
            case Nothing => true
  {
    var up := Get(s, delay).up;
    assert ChildOk(s, Get(s, delay), delay);
    if up != [] {
      assert UpOk(s, up[0]);
    }
  }

  /** A step only writes rows for their owners, delayed ones only on the way out, and drops finished ones. */
  predicate ChangeFits(s: Sys, change: RowChange) {
    match change
    case Put(blob) =>
      && Owned(s, blob)
      && (blob.id in s.pending ==> s.pending[blob.id].delay && !blob.delay && !Waiting(s, s.posted[blob.id].password))
      && (blob.id !in s.pending ==> CountInbox(s.inbox, blob.id) > 0)
    case Drop(id) => id in s.finished && id in s.pending && id in s.posted && !Waiting(s, s.posted[id].password)
    case Nothing => true
  }

  lemma ChangeOk(s: Sys, act: Action)
    requires Inv(s)
    ensures ChangeFits(s, ChangeOf(s, act))
  {
    match act
    case ParentFromDelayed(fault) => UpChangeOk(s, true, fault);
    case ParentFromImmediate(fault) => UpChangeOk(s, false, fault);
    case _ =>
  }

  lemma RowByChange(s: Sys, s': Sys, change: RowChange, id: SwapID)
    requires RowsOk(s) && ChangeFits(s, change) && s'.pending == Changed(s.pending, change)
    requires s.finished <= s'.finished && (id in s.posted ==> id in s'.posted)
    requires id in s.posted ==> CountInbox(s'.inbox, id) <= CountInbox(s.inbox, id)
    ensures RowMoves(s, s', id)
    ensures Gone(s, id) ==> Gone(s', id)
  {
  }

  lemma RowStep(s: Sys, act: Action, id: SwapID)
    requires Inv(s)
    ensures RowMoves(s, Step(s, act), id)
    ensures s.finished <= Step(s, act).finished
    ensures Gone(s, id) ==> Gone(Step(s, act), id)
  {
    StepRows(s, act);
    ChangeOk(s, act);
    StepInbox(s, act, id);
    StepHistory(s, act);
    RowByChange(s, Step(s, act), ChangeOf(s, act), id);
  }

  /**
   Over any run: a row's phase never goes back, its owner never changes, it leaves the table
   only after a final message about it was sent, and once it has left it never returns.
   */
  lemma {:induction false} PhasesOnlyAdvance(s: Sys, acts: seq<Action>, id: SwapID)
    requires Inv(s) && SingleOwner(Run(s, acts))
    ensures RowMoves(s, Run(s, acts), id)
    ensures s.finished <= Run(s, acts).finished
    ensures Gone(s, id) ==> Gone(Run(s, acts), id)
    decreases |acts|
  {
    if acts != [] {
      var s' := Step(s, acts[0]);
      InvAlong(s, acts);
      RowStep(s, acts[0], id);
      PhasesOnlyAdvance(s', acts[1..], id);
      if id in s.pending && id !in s'.pending {
        assert Gone(s', id) by {
          LeftMeansGone(s, acts[0], id);
        }
      }
    }
  }

  lemma LeftMeansGone(s: Sys, act: Action, id: SwapID)
    requires Inv(s) && id in s.pending && id !in Step(s, act).pending
    ensures Gone(Step(s, act), id)
  {
    StepRows(s, act);
    StepInbox(s, act, id);
    StepHistory(s, act);
    NoTokenNoSubmit(s.inbox, id);
  }

  lemma {:induction false} NoQueueCount(q: seq<Down>, id: SwapID)
    requires forall i | 0 <= i < |q| && q[i].Request? :: q[i].blob.id != id
    ensures CountQueue(q, id) == 0
    decreases |q|
  {
    if q != [] {
      NoQueueCount(q[1..], id);
    }
  }

  lemma {:induction false} NoUpCount(ups: seq<Up>, id: SwapID)
    requires forall i | 0 <= i < |ups| :: !Carries(ups[i], id)
    ensures CountUp(ups, id) == 0
    decreases |ups|
  {
    if ups != [] {
      NoUpCount(ups[1..], id);
    }
  }

  /** A child holds and sends nothing about a swap that has no row. */
  lemma NoRowNoTokens(s: Sys, delay: bool, id: SwapID)
    requires Inv(s) && id !in s.pending
    ensures ChildTokens(Get(s, delay), id) == 0
  {
    var c := Get(s, delay);
    assert ChildOk(s, c, delay);
    forall i | 0 <= i < |c.up| ensures !Carries(c.up[i], id) {
      assert UpOk(s, c.up[i]);
    }
    NoQueueCount(c.queue, id);
    NoUpCount(c.up, id);
  }

  /** The same for the whole history of a reachable system; a swap that is gone has no request left anywhere. */
  lemma RowHistory(s: Sys, acts: seq<Action>, later: seq<Action>, id: SwapID)
    requires Initial(s) && SingleOwner(Run(s, acts + later))
    ensures RowMoves(Run(s, acts), Run(s, acts + later), id)
    ensures Gone(Run(s, acts), id) ==> Gone(Run(s, acts + later), id) && Tokens(Run(s, acts + later), id) == 0
  {
    RunInv(s, acts + later);
    RunAppend(s, acts, later);
    RunHistory(Run(s, acts), later);
    RunInv(s, acts);
    PhasesOnlyAdvance(Run(s, acts), later, id);
    if Gone(Run(s, acts), id) {
      NoRowNoTokens(Run(s, acts + later), true, id);
      NoRowNoTokens(Run(s, acts + later), false, id);
    }
  }

  /** A deletion is sent only together with a terminal status for the same swap. */
  lemma DeletionsFollowTerminalStatus(blob: SwapBlob, answer: Answer, pass: Pass, id: SwapID)
    ensures Delete(id) in DelayedEffect(blob, answer).ups ==>
              id == blob.id && Receipt(id, Became(Cancelled)) in DelayedEffect(blob, answer).ups
    ensures Delete(id) in ImmediateEffect(blob, pass).ups ==>
              && id == blob.id && pass.Finish? && Terminal(FinalStatus(pass.outcome))
              && Receipt(id, Became(FinalStatus(pass.outcome))) in ImmediateEffect(blob, pass).ups
  {
    if pass.Finish? {
      assert ImmediateEffect(blob, pass).ups[0] == Receipt(blob.id, Became(FinalStatus(pass.outcome)));
    }
    if answer.CancelledSwap? {
      assert DelayedEffect(blob, answer).ups[0] == Receipt(blob.id, Became(Cancelled));
    }
  }

  // ---------------------------------------------------------------- released for the rest of the process

  /** Nobody works on the swap, and its owner has already been bootloaded. */
  predicate Released(s: Sys, id: SwapID) {
    id in s.posted && Tokens(s, id) == 0 && !Waiting(s, s.posted[id].password)
  }

  lemma {:induction false} ResendSkips(s: Sys, order: seq<SwapID>, password: string, id: SwapID)
    requires RowsOk(s) && (id in s.pending ==> !Mine(s, s.pending[id], password))
    ensures Tokens(Resend(s, order, password), id) == Tokens(s, id)
    decreases |order|
  {
    if order != [] {
      var s' := if order[0] in s.pending then SendMine(s, s.pending[order[0]], password) else s;
      if order[0] in s.pending && Mine(s, s.pending[order[0]], password) {
        SendTokens(s, s.pending[order[0]].(password := password));
      }
      ResendSkips(s', order[1..], password, id);
    }
  }

  /** Of the passwords seen, the owner's is the one that opens a row. */
  lemma OwnersOnly(s: Sys, id: SwapID, password: string)
    requires Inv(s) && id in s.pending && password in s.passwords
    ensures id in s.posted && (Mine(s, s.pending[id], password) <==> password == s.posted[id].password)
  {
  }

  lemma ReleasedBoot(s: Sys, order: seq<SwapID>, id: SwapID)
    requires Inv(s) && Released(s, id) && s.inbox != [] && s.inbox[0].Boot?
    ensures Tokens(Resend(s.(inbox := s.inbox[1..]), order, s.inbox[0].password), id) == 0
  {
    var t, password := s.(inbox := s.inbox[1..]), s.inbox[0].password;
    PopInboxInv(s);
    if id in s.pending {
      OwnersOnly(s, id, password);
    }
    ResendSkips(t, order, password, id);
  }

  lemma ReleasedInbox(s: Sys, fault: Fault, order: seq<SwapID>, id: SwapID)
    requires Inv(s) && Released(s, id) && s.inbox != []
    ensures Tokens(HandleIn(s.(inbox := s.inbox[1..]), s.inbox[0], fault, order), id) == 0
  {
    PopInboxInv(s);
    match s.inbox[0]
    case Submit(blob) => HandleSwapRequestTokens(s.(inbox := s.inbox[1..]), blob, fault, id);
    case Boot(password) => ReleasedBoot(s, order, id);
    case Tick =>
      CountQueueAppend(s.delayed.queue, [TickDown], id);
      CountQueueAppend(s.immediate.queue, [TickDown], id);
      assert [TickDown][1..] == [];
  }

  lemma ReleasedPost(s: Sys, act: Action, id: SwapID)
    requires Inv(s) && Released(s, id)
    requires act.PostSwap? || act.PostBoot? || act.PostTick?
    ensures Tokens(Step(s, act), id) == 0
  {
    match act
    case PostSwap(blob) => CountInboxAppend(s.inbox, Submit(blob), id);
    case PostBoot(password) => CountInboxAppend(s.inbox, Boot(password), id);
    case PostTick => CountInboxAppend(s.inbox, In.Tick, id);
  }

  lemma DelayedGood(answers: SwapID -> Answer)
    ensures GoodEffect(DelayedEffects(answers), true)
  {
    forall blob: SwapBlob ensures Sound(blob, DelayedEffect(blob, answers(blob.id))) {
      DelayedSound(blob, answers(blob.id));
    }
  }

  lemma ImmediateGood(passes: SwapBlob -> Pass)
    ensures GoodEffect(ImmediateEffects(passes), false)
  {
    forall blob: SwapBlob
      ensures var e := ImmediateEffect(blob, passes(blob));
              Sound(blob, e) && forall i | 0 <= i < |e.ups| :: !e.ups[i].Filled?
    {
      ImmediateSound(blob, passes(blob));
    }
  }

  lemma RunChildShrinks(s: Sys, delay: bool, effect: SwapBlob -> Effect, walk: seq<SwapID>, id: SwapID)
    requires Inv(s) && GoodEffect(effect, delay)
    ensures ChildTokens(RunChild(Get(s, delay), effect, walk), id) <= ChildTokens(Get(s, delay), id)
  {
    var c := RunChild(Get(s, delay), effect, walk);
    var s' := s.(finished := s.finished + DeletedIn(c.up));
    FinishedGrows(s, DeletedIn(c.up));
    forall x ensures ChildTokens(Get(s, delay), x) <= 1 {
      TokensOfGet(s, delay, x);
    }
    RunChildOk(s', Get(s, delay), effect, walk, delay);
  }

  lemma ReleasedTokens(s: Sys, act: Action, id: SwapID)
    requires Inv(s) && Released(s, id) && !act.Crash?
    ensures Tokens(Step(s, act), id) == 0
  {
    match act
    case ParentInbox(fault, order) =>
      if s.inbox != [] {
        ReleasedInbox(s, fault, order, id);
      }
    case ParentFromDelayed(fault) => ReleasedUp(s, true, fault, id);
    case ParentFromImmediate(fault) => ReleasedUp(s, false, fault, id);
    case RunDelayed(answers, walk) =>
      DelayedGood(answers);
      RunChildShrinks(s, true, DelayedEffects(answers), walk, id);
    case RunImmediate(passes, walk) =>
      ImmediateGood(passes);
      RunChildShrinks(s, false, ImmediateEffects(passes), walk, id);
    case _ => ReleasedPost(s, act, id);
  }

  /** Within a process, nobody has to wait again. */
  lemma WaitingEnds(s: Sys, act: Action, owner: string)
    requires !Waiting(s, owner) && !act.Crash?
    ensures !Waiting(Step(s, act), owner)
  {
    match act
    case ParentInbox(fault, order) =>
      if s.inbox != [] {
        match s.inbox[0]
        case Boot(password) => ResendKeeps(s.(inbox := s.inbox[1..]), order, password);
        case _ =>
      }
    case _ =>
  }

  lemma HandleSwapRequestTokens(s: Sys, blob: SwapBlob, fault: Fault, id: SwapID)
    ensures Tokens(HandleSwapRequest(s, blob, fault), id)
            == Tokens(s, id) + (if id == blob.id && fault.NoFault? then 1 else 0)
  {
    var stored := s.(pending := PutSwap(s.pending, blob));
    SendTokens(stored, blob);
    assert Tokens(stored, id) == Tokens(s, id);
  }

  lemma ReleasedUp(s: Sys, delay: bool, fault: Fault, id: SwapID)
    requires Inv(s) && Tokens(s, id) == 0
    ensures var c := Get(s, delay);
            c.up != [] ==> Tokens(HandleUp(With(s, delay, c.(up := c.up[1..])), c.up[0], fault), id) == 0
  {
    var c := Get(s, delay);
    if c.up != [] {
      PopChildUpInv(s, delay);
      var t := With(s, delay, c.(up := c.up[1..]));
      assert Tokens(t, id) == 0 && !Carries(c.up[0], id);
      if c.up[0].Filled? {
        HandleSwapRequestTokens(t, c.up[0].blob, fault, id);
      } else {
        assert Tokens(HandleUp(t, c.up[0], fault), id) == Tokens(t, id);
      }
    }
  }

  predicate NoCrash(acts: seq<Action>) {
    forall i | 0 <= i < |acts| :: !acts[i].Crash?
  }

  /**
   Once a swap has been released it is never worked on again in the same process, even when
   deleting its row failed: only a restart can pick it up.
   */
  lemma {:induction false} ReleasedForGood(s: Sys, acts: seq<Action>, id: SwapID)
    requires Inv(s) && SingleOwner(Run(s, acts)) && Released(s, id) && NoCrash(acts)
    ensures Tokens(Run(s, acts), id) == 0
    decreases |acts|
  {
    if acts != [] {
      InvAlong(s, acts);
      StepHistory(s, acts[0]);
      ReleasedTokens(s, acts[0], id);
      WaitingEnds(s, acts[0], s.posted[id].password);
      ReleasedForGood(Step(s, acts[0]), acts[1..], id);
    }
  }

  // ---------------------------------------------------------------- recovery

  /** The requests Bootload sends to one child. */
  function MineRequests(s: Sys, order: seq<SwapID>, password: string, delay: bool): seq<Down> {
    if order == [] then []
    else
      var head :=
        if order[0] in s.pending && s.pending[order[0]].delay == delay && Mine(s, s.pending[order[0]], password)
        then [Request(s.pending[order[0]].(password := password))] else [];
      head + MineRequests(s, order[1..], password, delay)
  }

  lemma {:induction false} ResendQueues(s: Sys, s0: Sys, order: seq<SwapID>, password: string)
    requires s.pending == s0.pending && s.matches == s0.matches
    ensures var r := Resend(s, order, password);
            && r.delayed.queue == s.delayed.queue + MineRequests(s0, order, password, true)
            && r.immediate.queue == s.immediate.queue + MineRequests(s0, order, password, false)
    decreases |order|
  {
    if order != [] {
      var s' := if order[0] in s.pending then SendMine(s, s.pending[order[0]], password) else s;
      ResendQueues(s', s0, order[1..], password);
    }
  }

  lemma {:induction false} MineRequested(s: Sys, order: seq<SwapID>, password: string, i: nat)
    requires i < |order| && order[i] in s.pending && Mine(s, s.pending[order[i]], password)
    ensures var row := s.pending[order[i]];
            Request(row.(password := password)) in MineRequests(s, order, password, row.delay)
    decreases |order|
  {
    if i > 0 {
      MineRequested(s, order[1..], password, i - 1);
    }
  }

  lemma RequestMeansToken(r: Sys, delay: bool, blob: SwapBlob)
    requires Inv(r) && Request(blob) in Get(r, delay).queue
    ensures Tokens(r, blob.id) == 1
  {
    var q := Get(r, delay).queue;
    var k :| 0 <= k < |q| && q[k] == Request(blob);
    CountQueueMember(q, k);
    TokensOfGet(r, delay, blob.id);
  }

  /** A bootload is next in the inbox, and the pending rows can be read. */
  predicate BootNext(s: Sys, order: seq<SwapID>) {
    s.inbox != [] && s.inbox[0].Boot? && Scan(order, s.pending)
  }

  lemma RowRequested(s: Sys, order: seq<SwapID>, id: SwapID)
    requires Inv(s) && BootNext(s, order) && id in s.pending && Mine(s, s.pending[id], s.inbox[0].password)
    ensures var row := s.pending[id];
            Request(row.(password := s.inbox[0].password)) in Get(Step(s, ParentInbox(NoFault, order)), row.delay).queue
  {
    var t, password := s.(inbox := s.inbox[1..]), s.inbox[0].password;
    var i :| 0 <= i < |order| && order[i] == id;
    ResendQueues(t, t, order, password);
    MineRequested(t, order, password, i);
  }

  /**
   Whenever a bootload is handled, after a crash or not, first or later, with whatever else going
   on: the rows its password opens had no live request and now have one each, in the right
   child, equal to the row with the password put back; nothing of anybody else's changes.
   */
  lemma BootloadRebuilds(s: Sys, acts: seq<Action>, order: seq<SwapID>, id: SwapID)
    requires Initial(s) && SingleOwner(Run(s, acts)) && BootNext(Run(s, acts), order)
    ensures var v := Run(s, acts);
            var r := Step(v, ParentInbox(NoFault, order));
            var password := v.inbox[0].password;
            && r.pending == v.pending
            && (if id in v.pending && v.matches(v.pending[id].passwordHash, password)
                then && Tokens(v, id) == 0 && Tokens(r, id) == 1
                     && Request(v.pending[id].(password := password)) in Get(r, v.pending[id].delay).queue
                else Tokens(r, id) == Tokens(v, id))
  {
    var v := Run(s, acts);
    RunInv(s, acts);
    BootHandled(v, order, id);
  }

  lemma BootKeeps(v: Sys, order: seq<SwapID>)
    requires Inv(v) && BootNext(v, order)
    ensures var r := Step(v, ParentInbox(NoFault, order)); Inv(r) && r.pending == v.pending
  {
    var t := v.(inbox := v.inbox[1..]);
    ResendHistory(t, order, v.inbox[0].password);
    ResendKeeps(t, order, v.inbox[0].password);
    StepInv(v, ParentInbox(NoFault, order));
  }

  lemma BootQuiet(v: Sys, order: seq<SwapID>, id: SwapID)
    requires Inv(v) && BootNext(v, order) && id in v.pending
        && v.matches(v.pending[id].passwordHash, v.inbox[0].password)
    ensures Tokens(v, id) == 0
  {
    OwnersOnly(v, id, v.inbox[0].password);
    NoTokenNoSubmit(v.inbox, id);
  }

  lemma BootOthers(v: Sys, order: seq<SwapID>, id: SwapID)
    requires Inv(v) && BootNext(v, order)
    requires !(id in v.pending && v.matches(v.pending[id].passwordHash, v.inbox[0].password))
    ensures Tokens(Step(v, ParentInbox(NoFault, order)), id) == Tokens(v, id)
  {
    PopInboxInv(v);
    ResendSkips(v.(inbox := v.inbox[1..]), order, v.inbox[0].password, id);
  }

  lemma BootHandled(v: Sys, order: seq<SwapID>, id: SwapID)
    requires Inv(v) && BootNext(v, order)
    ensures var r := Step(v, ParentInbox(NoFault, order));
            var password := v.inbox[0].password;
            && r.pending == v.pending
            && (if id in v.pending && v.matches(v.pending[id].passwordHash, password)
                then && Tokens(v, id) == 0 && Tokens(r, id) == 1
                     && Request(v.pending[id].(password := password)) in Get(r, v.pending[id].delay).queue
                else Tokens(r, id) == Tokens(v, id))
  {
    BootKeeps(v, order);
    if id in v.pending && v.matches(v.pending[id].passwordHash, v.inbox[0].password) {
      BootQuiet(v, order, id);
      RowRequested(v, order, id);
      var row := v.pending[id];
      RequestMeansToken(Step(v, ParentInbox(NoFault, order)), row.delay, row.(password := v.inbox[0].password));
    } else {
      BootOthers(v, order, id);
    }
  }

  /** The rows of an owner who has not been bootloaded stay as they are. */
  lemma WaitingRowStep(s: Sys, act: Action, id: SwapID)
    requires Inv(s) && id in s.pending && Waiting(s, s.posted[id].password)
    ensures id in Step(s, act).pending && Step(s, act).pending[id] == s.pending[id]
  {
    StepRows(s, act);
    ChangeOk(s, act);
  }

  lemma {:induction false} WaitingEndsRun(s: Sys, acts: seq<Action>, owner: string)
    requires !Waiting(s, owner) && NoCrash(acts)
    ensures !Waiting(Run(s, acts), owner)
    decreases |acts|
  {
    if acts != [] {
      WaitingEnds(s, acts[0], owner);
      WaitingEndsRun(Step(s, acts[0]), acts[1..], owner);
    }
  }

  /** The owner's bootload is not handled at any time during the run. */
  predicate WaitsThrough(s: Sys, acts: seq<Action>, owner: string)
    decreases |acts|
  {
    Waiting(s, owner) && (acts != [] ==> WaitsThrough(Step(s, acts[0]), acts[1..], owner))
  }

  /** Within one process an owner who is still waiting has been waiting all the time. */
  lemma {:induction false} StillWaits(s: Sys, acts: seq<Action>, owner: string)
    requires NoCrash(acts) && Waiting(Run(s, acts), owner)
    ensures WaitsThrough(s, acts, owner)
    decreases |acts|
  {
    if !Waiting(s, owner) {
      WaitingEndsRun(s, acts, owner);
    }
    if acts != [] {
      StillWaits(Step(s, acts[0]), acts[1..], owner);
    }
  }

  /** Until its owner's bootload is handled a row stays as it is, through any number of crashes. */
  lemma {:induction false} WaitingRowKept(s: Sys, acts: seq<Action>, id: SwapID)
    requires Inv(s) && SingleOwner(Run(s, acts)) && id in s.pending
    requires WaitsThrough(s, acts, s.posted[id].password)
    ensures id in Run(s, acts).pending && Run(s, acts).pending[id] == s.pending[id]
    decreases |acts|
  {
    if acts != [] {
      InvAlong(s, acts);
      StepHistory(s, acts[0]);
      WaitingRowStep(s, acts[0], id);
      WaitingRowKept(Step(s, acts[0]), acts[1..], id);
    }
  }

  /**
   Every request a child held before a crash is rebuilt bit for bit, password included, when its
   owner's bootload is handled, whatever happened in between, further crashes included: so
   whatever is derived from the password and the ID, the secret above all, is the same.
   */
  lemma CrashRecovery(s: Sys, acts: seq<Action>, delay: bool, blob: SwapBlob, between: seq<Action>, order: seq<SwapID>)
    requires Initial(s) && Holds(Get(Run(s, acts), delay), blob)
    requires WaitsThrough(Step(Run(s, acts), Crash), between, blob.password)
    requires SingleOwner(Run(Step(Run(s, acts), Crash), between))
    requires BootNext(Run(Step(Run(s, acts), Crash), between), order)
    requires Run(Step(Run(s, acts), Crash), between).inbox[0].password == blob.password
    ensures var r := Step(Run(Step(Run(s, acts), Crash), between), ParentInbox(NoFault, order));
            Request(blob) in Get(r, delay).queue && Tokens(r, blob.id) == 1
  {
    var held, crashed := Run(s, acts), Step(Run(s, acts), Crash);
    var v := Run(crashed, between);
    RunHistory(crashed, between);
    RunInv(s, acts);
    StepInv(held, Crash);
    HeldIsOwned(held, delay, blob);
    RunInv(crashed, between);
    WaitingRowKept(crashed, between, blob.id);
    BootHandled(v, order, blob.id);
  }

  lemma HeldIsOwned(s: Sys, delay: bool, blob: SwapBlob)
    requires Inv(s) && Holds(Get(s, delay), blob)
    ensures IsRow(s, blob) && blob.delay == delay
  {
    var c := Get(s, delay);
    assert ChildOk(s, c, delay);
    if Request(blob) in c.queue {
      var i :| 0 <= i < |c.queue| && c.queue[i] == Request(blob);
    }
  }

  // ---------------------------------------------------------------- every row is worked on

  /** No storage error, no pass whose contracts cannot be built. Restarts are allowed. */
  predicate Healthy(s: Sys, act: Action) {
    match act
    case ParentInbox(fault, order) => fault.NoFault? && (s.inbox != [] && s.inbox[0].Boot? ==> Scan(order, s.pending))
    case ParentFromDelayed(fault) => fault.NoFault?
    case ParentFromImmediate(fault) => fault.NoFault?
    case _ => true
  }

  ghost predicate Built(act: Action) {
    act.RunImmediate? ==> forall blob :: !act.passes(blob).Unbuilt?
  }

  ghost predicate AllHealthy(s: Sys, acts: seq<Action>)
    decreases |acts|
  {
    acts != [] ==> Healthy(s, acts[0]) && Built(acts[0]) && AllHealthy(Step(s, acts[0]), acts[1..])
  }

  ghost predicate Served(s: Sys) {
    forall id | id in s.pending && id in s.posted && !Waiting(s, s.posted[id].password) :: Tokens(s, id) == 1
  }

  ghost predicate Keeping(effect: SwapBlob -> Effect, delay: bool) {
    GoodEffect(effect, delay) && forall blob :: !effect(blob).fate.Unchanged?
  }

  lemma HandleSame(c: Child, blob: SwapBlob, e: Effect, id: SwapID)
    requires Sound(blob, e) && !e.fate.Unchanged?
    ensures ChildTokens(Handle(c, blob, e), id)
        == ChildTokens(c, id) + (if id == blob.id && id !in c.live then 1 else 0)
  {
    CountUpAppend(c.up, e.ups, id);
  }

  lemma {:induction false} HandleAllSame(c: Child, walk: seq<SwapID>, effect: SwapBlob -> Effect, delay: bool,
      id: SwapID)
    requires Keeping(effect, delay) && forall x | x in c.live :: c.live[x].id == x
    ensures ChildTokens(HandleAll(c, walk, effect), id) == ChildTokens(c, id)
    decreases |walk|
  {
    if walk != [] {
      if walk[0] in c.live {
        HandleSame(c, c.live[walk[0]], effect(c.live[walk[0]]), id);
      }
      var c' := if walk[0] in c.live then Handle(c, c.live[walk[0]], effect(c.live[walk[0]])) else c;
      HandleAllSame(c', walk[1..], effect, delay, id);
    }
  }

  lemma RunChildSame(s: Sys, delay: bool, effect: SwapBlob -> Effect, walk: seq<SwapID>, id: SwapID)
    requires Inv(s) && Keeping(effect, delay)
    ensures ChildTokens(RunChild(Get(s, delay), effect, walk), id) == ChildTokens(Get(s, delay), id)
  {
    var c := Get(s, delay);
    assert ChildOk(s, c, delay);
    if c.queue != [] {
      PopQueueOk(s, c, delay);
      var popped := c.(queue := c.queue[1..]);
      match c.queue[0]
      case TickDown => HandleAllSame(popped, walk, effect, delay, id);
      case Request(blob) =>
        TokensOfGet(s, delay, blob.id);
        HandleSame(popped, blob, effect(blob), id);
    }
  }

  lemma ServedSame(s: Sys, s': Sys)
    requires Served(s) && s'.posted == s.posted
    requires forall id :: Tokens(s', id) == Tokens(s, id)
    requires forall p :: Waiting(s', p) == Waiting(s, p)
    requires forall id | id in s'.pending :: id in s.pending || Tokens(s, id) == 1
    ensures Served(s')
  {
  }

  lemma ServedSubmit(s: Sys)
    requires Inv(s) && Served(s) && s.inbox != [] && s.inbox[0].Submit?
    ensures Served(HandleSwapRequest(s.(inbox := s.inbox[1..]), s.inbox[0].blob, NoFault))
  {
    var t, blob := s.(inbox := s.inbox[1..]), s.inbox[0].blob;
    var s' := HandleSwapRequest(t, blob, NoFault);
    PopInboxInv(s);
    forall id ensures Tokens(s', id) == Tokens(s, id) {
      HandleSwapRequestTokens(t, blob, NoFault, id);
    }
    assert Tokens(s, blob.id) >= 1;
    ServedSame(s, s');
  }

  lemma ServedTick(s: Sys)
    requires Inv(s) && Served(s) && s.inbox != [] && s.inbox[0].Tick?
    ensures Served(HandleTick(s.(inbox := s.inbox[1..])))
  {
    var s' := HandleTick(s.(inbox := s.inbox[1..]));
    forall id ensures Tokens(s', id) == Tokens(s, id) {
      TickTokens(s.(inbox := s.inbox[1..]), id);
    }
    ServedSame(s, s');
  }

  lemma ServedBoot(s: Sys, order: seq<SwapID>)
    requires Inv(s) && Served(s) && BootNext(s, order)
    ensures Served(Step(s, ParentInbox(NoFault, order)))
  {
    var s' := Step(s, ParentInbox(NoFault, order));
    ResendKeeps(s.(inbox := s.inbox[1..]), order, s.inbox[0].password);
    forall id | id in s'.pending && id in s'.posted && !Waiting(s', s'.posted[id].password)
      ensures Tokens(s', id) == 1 {
      ServedByBoot(s, order, id);
    }
  }

  lemma ServedByBoot(s: Sys, order: seq<SwapID>, id: SwapID)
    requires Inv(s) && Served(s) && BootNext(s, order) && id in s.pending
    requires s.posted[id].password == s.inbox[0].password || !Waiting(s, s.posted[id].password)
    ensures Tokens(Step(s, ParentInbox(NoFault, order)), id) == 1
  {
    BootHandled(s, order, id);
    OwnersOnly(s, id, s.inbox[0].password);
  }

  lemma ServedFilled(s: Sys, delay: bool)
    requires Inv(s) && Served(s) && Get(s, delay).up != [] && Get(s, delay).up[0].Filled?
    ensures var c := Get(s, delay);
            Served(HandleSwapRequest(With(s, delay, c.(up := c.up[1..])), c.up[0].blob, NoFault))
  {
    var c := Get(s, delay);
    var t, blob := With(s, delay, c.(up := c.up[1..])), c.up[0].blob;
    var s' := HandleSwapRequest(t, blob, NoFault);
    PopChildUpInv(s, delay);
    forall id ensures Tokens(s', id) == Tokens(s, id) {
      HandleSwapRequestTokens(t, blob, NoFault, id);
    }
    assert UpOk(s, c.up[0]);
    ServedSame(s, s');
  }

  lemma ServedDeleted(s: Sys, t: Sys, id: SwapID)
    requires Served(s) && t.posted == s.posted && t.pending == s.pending
    requires forall x :: x != id ==> Tokens(t, x) == Tokens(s, x)
    requires forall p :: Waiting(t, p) == Waiting(s, p)
    ensures Served(HandleDelete(t, id, NoFault))
  {
    assert forall x :: Tokens(HandleDelete(t, id, NoFault), x) == Tokens(t, x);
  }

  lemma ServedUp(s: Sys, delay: bool)
    requires Inv(s) && Served(s) && Get(s, delay).up != []
    ensures var c := Get(s, delay);
            Served(HandleUp(With(s, delay, c.(up := c.up[1..])), c.up[0], NoFault))
  {
    var c := Get(s, delay);
    PopChildUpInv(s, delay);
    match c.up[0]
    case Filled(blob) => ServedFilled(s, delay);
    case Delete(id) => ServedDeleted(s, With(s, delay, c.(up := c.up[1..])), id);
    case _ => ServedSame(s, With(s, delay, c.(up := c.up[1..])));
  }

  lemma ServedPost(s: Sys, act: Action)
    requires Inv(s) && Served(s) && (act.PostSwap? || act.PostBoot? || act.PostTick?)
    ensures Served(Step(s, act))
  {
    var s' := Step(s, act);
    forall id | id in s'.pending && id in s'.posted && !Waiting(s', s'.posted[id].password)
      ensures Tokens(s', id) == 1 {
      assert !Waiting(s, s.posted[id].password);
      match act
      case PostSwap(blob) => CountInboxAppend(s.inbox, Submit(blob), id);
      case PostBoot(password) => CountInboxAppend(s.inbox, Boot(password), id);
      case PostTick => CountInboxAppend(s.inbox, In.Tick, id);
    }
  }

  lemma ServedChild(s: Sys, delay: bool, c: Child, finished: set<SwapID>)
    requires Served(s) && forall id :: ChildTokens(c, id) == ChildTokens(Get(s, delay), id)
    ensures Served(With(s, delay, c).(finished := finished))
  {
    var s' := With(s, delay, c).(finished := finished);
    assert forall id :: Tokens(s', id) == Tokens(s, id);
    assert forall p :: Waiting(s', p) == Waiting(s, p);
  }

  lemma StepServed(s: Sys, act: Action)
    requires Inv(s) && Served(s) && Healthy(s, act) && Built(act)
    ensures Served(Step(s, act))
  {
    match act
    case ParentInbox(_, order) =>
      if s.inbox != [] {
        match s.inbox[0]
        case Submit(_) => ServedSubmit(s);
        case Boot(_) => ServedBoot(s, order);
        case Tick => ServedTick(s);
      }
    case ParentFromDelayed(_) =>
      if s.delayed.up != [] {
        ServedUp(s, true);
      }
    case ParentFromImmediate(_) =>
      if s.immediate.up != [] {
        ServedUp(s, false);
      }
    case RunDelayed(answers, walk) =>
      DelayedGood(answers);
      assert forall blob: SwapBlob :: !DelayedEffect(blob, answers(blob.id)).fate.Unchanged?;
      forall id
        ensures ChildTokens(RunChild(s.delayed, DelayedEffects(answers), walk), id) == ChildTokens(s.delayed, id) {
        RunChildSame(s, true, DelayedEffects(answers), walk, id);
      }
      var c := RunChild(s.delayed, DelayedEffects(answers), walk);
      ServedChild(s, true, c, s.finished + DeletedIn(c.up));
    case RunImmediate(passes, walk) =>
      ImmediateGood(passes);
      assert forall blob: SwapBlob :: !ImmediateEffect(blob, passes(blob)).fate.Unchanged?;
      forall id
        ensures ChildTokens(RunChild(s.immediate, ImmediateEffects(passes), walk), id)
            == ChildTokens(s.immediate, id) {
        RunChildSame(s, false, ImmediateEffects(passes), walk, id);
      }
      var c := RunChild(s.immediate, ImmediateEffects(passes), walk);
      ServedChild(s, false, c, s.finished + DeletedIn(c.up));
    case Crash =>
    case _ => ServedPost(s, act);
  }

  lemma {:induction false} RunServed(s: Sys, acts: seq<Action>)
    requires Inv(s) && Served(s) && SingleOwner(Run(s, acts)) && AllHealthy(s, acts)
    ensures Served(Run(s, acts))
    decreases |acts|
  {
    if acts != [] {
      InvAlong(s, acts);
      StepServed(s, acts[0]);
      RunServed(Step(s, acts[0]), acts[1..]);
    }
  }

  /**
   Without storage errors and with contracts that can be built, every stored swap of a
   bootloaded owner has exactly one live request or final message, restarts included. A request
   whose contracts cannot be built is dropped until a restart.
   */
  lemma EveryRowIsServed(s: Sys, acts: seq<Action>, id: SwapID)
    requires Initial(s) && SingleOwner(Run(s, acts)) && AllHealthy(s, acts)
    requires id in Run(s, acts).pending
    ensures id in Run(s, acts).posted
    ensures !Waiting(Run(s, acts), Run(s, acts).posted[id].password) ==> Tokens(Run(s, acts), id) == 1
  {
    RunInv(s, acts);
    RunServed(s, acts);
  }

  lemma UnbuiltTokens(c: Child, blob: SwapBlob, passes: SwapBlob -> Pass, walk: seq<SwapID>)
    requires c.queue != [] && c.queue[0] == Request(blob) && passes(blob).Unbuilt?
    ensures ChildTokens(RunChild(c, ImmediateEffects(passes), walk), blob.id) == ChildTokens(c, blob.id) - 1
  {
    CountUpAppend(c.up, [Failure], blob.id);
    assert [Failure][1..] == [];
  }

  /** A request taken off the queue whose contracts cannot be built is released, its row still pending. */
  lemma UnbuiltIsReleased(s: Sys, blob: SwapBlob, passes: SwapBlob -> Pass, walk: seq<SwapID>)
    requires Inv(s) && s.immediate.queue != [] && s.immediate.queue[0] == Request(blob) && passes(blob).Unbuilt?
    ensures var r := Step(s, RunImmediate(passes, walk)); Released(r, blob.id) && blob.id in r.pending
  {
    UnbuiltTokens(s.immediate, blob, passes, walk);
    HeldIsOwned(s, false, blob);
    assert Tokens(s, blob.id) <= 1;
  }
}
