/**
 The whole swapper: the parent, its two children, their queues and the pending table, run
 under arbitrary interleavings, storage errors and crashes.
 */
module TaskSystem {
  import opened Swaps
  import opened Tasks

  /**
   `matches` is the password comparison. `pending` survives a crash; the rest of the first
   group is lost. The others only record history: the swaps posted so far, by ID and as they
   were posted, the passwords seen, and the swaps for which a final message has been sent.
   */
  datatype Sys = Sys(
    matches: (string, string) -> bool,
    pending: map<SwapID, SwapBlob>,
    inbox: seq<In>, delayed: Child, immediate: Child, booted: set<string>,
    posted: map<SwapID, SwapBlob>, passwords: set<string>, finished: set<SwapID>)

  datatype Fault = NoFault | FirstWriteFails | SecondWriteFails

  datatype Action =
    | PostSwap(blob: SwapBlob)
    | PostBoot(password: string)
    | PostTick
    | ParentInbox(fault: Fault, order: seq<SwapID>)
    | ParentFromDelayed(fault: Fault)
    | ParentFromImmediate(fault: Fault)
    | RunDelayed(answers: SwapID -> Answer, walk: seq<SwapID>)
    | RunImmediate(passes: SwapBlob -> Pass, walk: seq<SwapID>)
    | Crash

  // ---------------------------------------------------------------- the parent

  /** `PutSwap` writes the pending row first and never stores a password. */
  function PutSwap(pending: map<SwapID, SwapBlob>, blob: SwapBlob): map<SwapID, SwapBlob> {
    pending[blob.id := blob.(password := "")]
  }

  function Send(s: Sys, blob: SwapBlob): Sys {
    if blob.delay then s.(delayed := s.delayed.(queue := s.delayed.queue + [Request(blob)]))
    else s.(immediate := s.immediate.(queue := s.immediate.queue + [Request(blob)]))
  }

  function HandleSwapRequest(s: Sys, blob: SwapBlob, fault: Fault): Sys {
    if fault.FirstWriteFails? then s
    else
      var stored := s.(pending := PutSwap(s.pending, blob));
      if fault.SecondWriteFails? then stored else Send(stored, blob)
  }

  /** A row without a hash is everybody's; the others only their owner's. */
  predicate Mine(s: Sys, row: SwapBlob, password: string) {
    row.passwordHash != "" ==> s.matches(row.passwordHash, password)
  }

  function SendMine(s: Sys, row: SwapBlob, password: string): Sys {
    if Mine(s, row, password) then Send(s, row.(password := password)) else s
  }

  /** Bootload walks the pending rows once, in the order of the scan. */
  function Resend(s: Sys, order: seq<SwapID>, password: string): Sys
    decreases |order|
  {
    if order == [] then s
    else
      var s' := if order[0] in s.pending then SendMine(s, s.pending[order[0]], password) else s;
      Resend(s', order[1..], password)
  }

  predicate Scan(order: seq<SwapID>, pending: map<SwapID, SwapBlob>) {
    && (forall i | 0 <= i < |order| :: order[i] in pending)
    && (forall id | id in pending :: id in order)
    && (forall i, j | 0 <= i < j < |order| :: order[i] != order[j])
  }

  function HandleDelete(s: Sys, id: SwapID, fault: Fault): Sys {
    if fault.NoFault? then s.(pending := s.pending - {id}) else s
  }

  function HandleTick(s: Sys): Sys {
    s.(immediate := s.immediate.(queue := s.immediate.queue + [TickDown]),
       delayed := s.delayed.(queue := s.delayed.queue + [TickDown]))
  }

  function HandleIn(s: Sys, msg: In, fault: Fault, order: seq<SwapID>): Sys {
    match msg
    case Submit(blob) => HandleSwapRequest(s, blob, fault)
    case Boot(password) => if fault.NoFault? && Scan(order, s.pending) then Resend(s, order, password) else s
    case Tick => HandleTick(s)
  }

  function HandleUp(s: Sys, msg: Up, fault: Fault): Sys {
    match msg
    case Filled(blob) => HandleSwapRequest(s, blob, fault)
    case Delete(id) => HandleDelete(s, id, fault)
    case Receipt(_, _) => s
    case Failure => s
  }

  // ---------------------------------------------------------------- steps

  function RunChild(c: Child, effect: SwapBlob -> Effect, walk: seq<SwapID>): Child {
    if c.queue == [] then c
    else
      var c' := c.(queue := c.queue[1..]);
      match c.queue[0]
      case Request(blob) => Handle(c', blob, effect(blob))
      case TickDown => HandleAll(c', walk, effect)
  }

  function DeletedIn(ups: seq<Up>): set<SwapID> {
    set u | u in ups && u.Delete? :: u.id
  }

  /** What the handler lets through: a fresh ID, the owner's password, after that password's bootload. */
  predicate MayPost(s: Sys, blob: SwapBlob) {
    && blob.id !in s.posted && blob.passwordHash != ""
    && s.matches(blob.passwordHash, blob.password) && blob.password in s.booted
  }

  /** A swap enters the inbox; its owner's password has now been seen. */
  function Posted(s: Sys, blob: SwapBlob): Sys {
    s.(inbox := s.inbox + [Submit(blob)], posted := s.posted[blob.id := blob],
      passwords := s.passwords + {blob.password})
  }

  function Step(s: Sys, act: Action): Sys {
    match act
    case PostSwap(blob) => if MayPost(s, blob) then Posted(s, blob) else s
    case PostBoot(password) =>
      if password in s.booted then s
      else s.(inbox := s.inbox + [Boot(password)], booted := s.booted + {password},
        passwords := s.passwords + {password})
    case PostTick => s.(inbox := s.inbox + [In.Tick])
    case ParentInbox(fault, order) =>
      if s.inbox == [] then s else HandleIn(s.(inbox := s.inbox[1..]), s.inbox[0], fault, order)
    case ParentFromDelayed(fault) =>
      if s.delayed.up == [] then s
      else HandleUp(s.(delayed := s.delayed.(up := s.delayed.up[1..])), s.delayed.up[0], fault)
    case ParentFromImmediate(fault) =>
      if s.immediate.up == [] then s
      else HandleUp(s.(immediate := s.immediate.(up := s.immediate.up[1..])), s.immediate.up[0], fault)
    case RunDelayed(answers, walk) =>
      var c := RunChild(s.delayed, DelayedEffects(answers), walk);
      s.(delayed := c, finished := s.finished + DeletedIn(c.up))
    case RunImmediate(passes, walk) =>
      var c := RunChild(s.immediate, ImmediateEffects(passes), walk);
      s.(immediate := c, finished := s.finished + DeletedIn(c.up))
    case Crash => s.(inbox := [], delayed := IdleChild, immediate := IdleChild, booted := {})
  }

  function Run(s: Sys, acts: seq<Action>): Sys
    decreases |acts|
  {
    if acts == [] then s else Run(Step(s, acts[0]), acts[1..])
  }

  /** No password that has been seen opens a swap somebody else has posted. */
  predicate SingleOwner(s: Sys) {
    forall id, p | id in s.posted && p in s.passwords && s.matches(s.posted[id].passwordHash, p) ::
      p == s.posted[id].password
  }

  predicate Initial(s: Sys) {
    && s.pending == map[] && s.inbox == [] && s.delayed == IdleChild && s.immediate == IdleChild
    && s.booted == {} && s.posted == map[] && s.passwords == {} && s.finished == {}
  }

  // ---------------------------------------------------------------- the invariant

  function CountInbox(q: seq<In>, id: SwapID): nat {
    if q == [] then 0 else (if q[0].Submit? && q[0].blob.id == id then 1 else 0) + CountInbox(q[1..], id)
  }

  /** How many live requests and final messages there are for a swap, anywhere. */
  function Tokens(s: Sys, id: SwapID): nat {
    CountInbox(s.inbox, id) + ChildTokens(s.delayed, id) + ChildTokens(s.immediate, id)
  }

  /** The request belongs to whoever posted the swap. */
  predicate Owned(s: Sys, blob: SwapBlob) {
    && blob.id in s.posted && blob.passwordHash == s.posted[blob.id].passwordHash
    && blob.password == s.posted[blob.id].password
  }

  /** The request is its pending row with the owner's password put back. */
  predicate IsRow(s: Sys, blob: SwapBlob) {
    blob.id in s.pending && s.pending[blob.id] == blob.(password := "") && Owned(s, blob)
  }

  ghost predicate ChildOk(s: Sys, c: Child, delay: bool) {
    && (forall i | 0 <= i < |c.queue| && c.queue[i].Request? ::
          IsRow(s, c.queue[i].blob) && c.queue[i].blob.delay == delay)
    && (forall id | id in c.live :: c.live[id].id == id && IsRow(s, c.live[id]) && c.live[id].delay == delay)
    && (forall i | 0 <= i < |c.up| :: UpOk(s, c.up[i]))
  }

  /** A fill on its way replaces a delayed row of the same owner; a deletion is of a finished swap. */
  predicate UpOk(s: Sys, u: Up) {
    match u
    case Filled(blob) =>
      && blob.id in s.pending && s.pending[blob.id].delay && !blob.delay
      && Owned(s, blob)
    case Delete(id) => id in s.finished && id in s.pending
    case _ => true
  }

  ghost predicate RowsOk(s: Sys) {
    forall id | id in s.pending ::
      && s.pending[id].id == id && id in s.posted
      && s.pending[id].password == "" && s.pending[id].passwordHash == s.posted[id].passwordHash
  }

  /** Whoever posted a swap has been seen with a password that opens it. */
  ghost predicate PostedOk(s: Sys) {
    && s.booted <= s.passwords
    && forall id | id in s.posted ::
         var blob := s.posted[id];
         blob.id == id && blob.passwordHash != "" && s.matches(blob.passwordHash, blob.password)
           && blob.password in s.passwords
  }

  ghost predicate InboxOk(s: Sys) {
    && (forall i | 0 <= i < |s.inbox| && s.inbox[i].Submit? ::
          var blob := s.inbox[i].blob;
          && blob.id !in s.pending && Owned(s, blob)
          && blob.password in s.booted && Boot(blob.password) !in s.inbox[i..])
    && (forall i | 0 <= i < |s.inbox| && s.inbox[i].Boot? ::
          s.inbox[i].password in s.booted && s.inbox[i] !in s.inbox[i + 1..])
  }

  /** Nobody has bootloaded this password in this process yet, or the parent has not come to it. */
  predicate Waiting(s: Sys, password: string) {
    password !in s.booted || Boot(password) in s.inbox
  }

  ghost predicate QuietBeforeBoot(s: Sys) {
    forall id | id in s.pending && id in s.posted && Waiting(s, s.posted[id].password) ::
      ChildTokens(s.delayed, id) == 0 && ChildTokens(s.immediate, id) == 0
  }

  ghost predicate Single(s: Sys) {
    forall id :: Tokens(s, id) <= 1
  }

  ghost predicate UsedOk(s: Sys) {
    forall id :: Tokens(s, id) > 0 ==> id in s.posted
  }

  ghost predicate Inv(s: Sys) {
    && SingleOwner(s) && PostedOk(s)
    && Single(s) && UsedOk(s) && RowsOk(s) && InboxOk(s) && QuietBeforeBoot(s)
    && ChildOk(s, s.delayed, true) && ChildOk(s, s.immediate, false)
  }

  // ---------------------------------------------------------------- replacing a child

  function Get(s: Sys, delay: bool): Child {
    if delay then s.delayed else s.immediate
  }

  function With(s: Sys, delay: bool, c: Child): Sys {
    if delay then s.(delayed := c) else s.(immediate := c)
  }

  lemma FinishedGrows(s: Sys, more: set<SwapID>)
    requires Inv(s)
    ensures Inv(s.(finished := s.finished + more))
  {
    var s' := s.(finished := s.finished + more);
    assert forall id :: Tokens(s', id) == Tokens(s, id);
    assert forall p :: Waiting(s', p) == Waiting(s, p);
    assert ChildOk(s', s'.delayed, true) && ChildOk(s', s'.immediate, false);
  }

  /** What the rows and the history of `s` say is still said in `s'`. */
  ghost predicate Extends(s': Sys, s: Sys) {
    && s'.matches == s.matches && s'.pending == s.pending && s.finished <= s'.finished
    && forall id | id in s.posted :: id in s'.posted && s'.posted[id] == s.posted[id]
  }

  lemma ChildOkKept(s: Sys, s': Sys, c: Child, delay: bool)
    requires ChildOk(s, c, delay) && Extends(s', s)
    ensures ChildOk(s', c, delay)
  {
    forall i | 0 <= i < |c.up| ensures UpOk(s', c.up[i]) {
      assert UpOk(s, c.up[i]);
    }
  }

  lemma QuietKept(s: Sys, s': Sys)
    requires QuietBeforeBoot(s) && RowsOk(s) && Extends(s', s)
    requires forall p | Waiting(s', p) :: Waiting(s, p)
    requires forall id :: ChildTokens(s'.delayed, id) <= ChildTokens(s.delayed, id)
    requires forall id :: ChildTokens(s'.immediate, id) <= ChildTokens(s.immediate, id)
    ensures QuietBeforeBoot(s')
  {
    forall id | id in s'.pending && id in s'.posted && Waiting(s', s'.posted[id].password)
      ensures ChildTokens(s'.delayed, id) == 0 && ChildTokens(s'.immediate, id) == 0
    {
      assert Waiting(s, s.posted[id].password);
    }
  }

  /** A child may change as it likes while it holds no more about any swap and what it holds is right. */
  lemma ChildReplaced(s: Sys, delay: bool, c: Child)
    requires Inv(s) && ChildOk(s, c, delay)
    requires forall id :: ChildTokens(c, id) <= ChildTokens(Get(s, delay), id)
    ensures Inv(With(s, delay, c))
  {
    var s' := With(s, delay, c);
    forall id ensures Tokens(s', id) <= Tokens(s, id) {}
    ChildOkKept(s, s', s'.delayed, true);
    ChildOkKept(s, s', s'.immediate, false);
    QuietKept(s, s');
  }

  lemma PopQueueOk(s: Sys, c: Child, delay: bool)
    requires ChildOk(s, c, delay) && c.queue != []
    ensures ChildOk(s, c.(queue := c.queue[1..]), delay)
    ensures forall id :: ChildTokens(c.(queue := c.queue[1..]), id)
                         == ChildTokens(c, id) - (if c.queue[0].Request? && c.queue[0].blob.id == id then 1 else 0)
  {
  }

  lemma PopUpOk(s: Sys, c: Child, delay: bool)
    requires ChildOk(s, c, delay) && c.up != []
    ensures ChildOk(s, c.(up := c.up[1..]), delay)
    ensures forall id :: ChildTokens(c.(up := c.up[1..]), id)
                         == ChildTokens(c, id) - (if Carries(c.up[0], id) then 1 else 0)
  {
  }

  /** Handling a request in the map, or one just taken off the queue, adds nothing about any swap. */
  lemma HandleOk(s: Sys, c: Child, blob: SwapBlob, e: Effect, delay: bool)
    requires ChildOk(s, c, delay) && IsRow(s, blob) && blob.delay == delay && Sound(blob, e)
    requires blob.id in c.live ==> c.live[blob.id] == blob
    requires !delay ==> forall i | 0 <= i < |e.ups| :: !e.ups[i].Filled?
    requires DeletedIn(e.ups) <= s.finished
    ensures ChildOk(s, Handle(c, blob, e), delay)
    ensures forall id :: ChildTokens(Handle(c, blob, e), id)
                         <= ChildTokens(c, id) + (if id == blob.id && blob.id !in c.live then 1 else 0)
  {
    var c' := Handle(c, blob, e);
    forall id
      ensures ChildTokens(c', id) <= ChildTokens(c, id) + (if id == blob.id && blob.id !in c.live then 1 else 0) {
      CountUpAppend(c.up, e.ups, id);
    }
    forall i | 0 <= i < |c'.up| ensures UpOk(s, c'.up[i]) {
      if i >= |c.up| {
        var u := e.ups[i - |c.up|];
        if u.Delete? {
          assert u.id in DeletedIn(e.ups);
          CountUpMember(e.ups, i - |c.up|, u.id);
        }
      }
    }
  }

  lemma {:induction false} HandleAllUp(c: Child, order: seq<SwapID>, effect: SwapBlob -> Effect)
    ensures c.up <= HandleAll(c, order, effect).up
    decreases |order|
  {
    if order != [] {
      var c' := if order[0] in c.live then Handle(c, c.live[order[0]], effect(c.live[order[0]])) else c;
      HandleAllUp(c', order[1..], effect);
    }
  }

  ghost predicate GoodEffect(effect: SwapBlob -> Effect, delay: bool) {
    forall blob ::
      && Sound(blob, effect(blob))
      && (!delay ==> forall i | 0 <= i < |effect(blob).ups| :: !effect(blob).ups[i].Filled?)
  }

  lemma DeletedInPrefix(ups: seq<Up>, more: seq<Up>)
    requires ups <= more
    ensures DeletedIn(ups) <= DeletedIn(more)
  {
  }

  lemma {:induction false} HandleAllOk(s: Sys, c: Child, order: seq<SwapID>, effect: SwapBlob -> Effect, delay: bool)
    requires ChildOk(s, c, delay) && GoodEffect(effect, delay)
    requires DeletedIn(HandleAll(c, order, effect).up) <= s.finished
    ensures ChildOk(s, HandleAll(c, order, effect), delay)
    ensures forall id :: ChildTokens(HandleAll(c, order, effect), id) <= ChildTokens(c, id)
    decreases |order|
  {
    if order != [] {
      var id := order[0];
      if id in c.live {
        var e := effect(c.live[id]);
        var c' := Handle(c, c.live[id], e);
        HandleAllUp(c', order[1..], effect);
        DeletedInPrefix(c'.up, HandleAll(c', order[1..], effect).up);
        assert DeletedIn(e.ups) <= DeletedIn(c'.up) by {
          forall x | x in DeletedIn(e.ups) ensures x in DeletedIn(c'.up) {
            var u :| u in e.ups && u.Delete? && u.id == x;
            assert u in c'.up;
          }
        }
        HandleOk(s, c, c.live[id], e, delay);
        HandleAllOk(s, c', order[1..], effect, delay);
      } else {
        HandleAllOk(s, c, order[1..], effect, delay);
      }
    }
  }

  lemma TokensOfGet(s: Sys, delay: bool, id: SwapID)
    ensures ChildTokens(Get(s, delay), id) <= Tokens(s, id)
  {
  }

  lemma DeletedInPart(ups: seq<Up>, more: seq<Up>)
    ensures DeletedIn(more) <= DeletedIn(ups + more)
  {
    forall id | id in DeletedIn(more) ensures id in DeletedIn(ups + more) {
      var u :| u in more && u.Delete? && u.id == id;
      assert u in ups + more;
    }
  }

  lemma RunChildOk(s: Sys, c0: Child, effect: SwapBlob -> Effect, walk: seq<SwapID>, delay: bool)
    requires ChildOk(s, c0, delay) && GoodEffect(effect, delay)
    requires forall id :: ChildTokens(c0, id) <= 1
    requires DeletedIn(RunChild(c0, effect, walk).up) <= s.finished
    ensures ChildOk(s, RunChild(c0, effect, walk), delay)
    ensures forall id :: ChildTokens(RunChild(c0, effect, walk), id) <= ChildTokens(c0, id)
  {
    if c0.queue != [] {
      var popped := c0.(queue := c0.queue[1..]);
      PopQueueOk(s, c0, delay);
      match c0.queue[0]
      case TickDown => HandleAllOk(s, popped, walk, effect, delay);
      case Request(blob) =>
        assert ChildTokens(c0, blob.id) <= 1;
        assert blob.id !in popped.live;
        DeletedInPart(popped.up, effect(blob).ups);
        HandleOk(s, popped, blob, effect(blob), delay);
    }
  }

  lemma RunChildInv(s: Sys, effect: SwapBlob -> Effect, walk: seq<SwapID>, delay: bool)
    requires Inv(s) && GoodEffect(effect, delay)
    ensures var c := RunChild(Get(s, delay), effect, walk);
            Inv(With(s, delay, c).(finished := s.finished + DeletedIn(c.up)))
  {
    var c0 := Get(s, delay);
    var c := RunChild(c0, effect, walk);
    var s' := s.(finished := s.finished + DeletedIn(c.up));
    FinishedGrows(s, DeletedIn(c.up));
    forall id ensures ChildTokens(c0, id) <= 1 {
      TokensOfGet(s, delay, id);
    }
    RunChildOk(s', c0, effect, walk, delay);
    ChildReplaced(s', delay, c);
  }

  // ---------------------------------------------------------------- the pending table

  lemma {:induction false} NoTokenNoRequest(q: seq<Down>, id: SwapID)
    requires CountQueue(q, id) == 0
    ensures forall i | 0 <= i < |q| && q[i].Request? :: q[i].blob.id != id
    decreases |q|
  {
    forall i | 0 <= i < |q| && q[i].Request? ensures q[i].blob.id != id {
      CountQueueMember(q, i);
    }
  }

  lemma {:induction false} NoTokenNoUp(ups: seq<Up>, id: SwapID)
    requires CountUp(ups, id) == 0
    ensures forall i | 0 <= i < |ups| :: !Carries(ups[i], id)
  {
    forall i | 0 <= i < |ups| ensures !Carries(ups[i], id) {
      if Carries(ups[i], id) {
        CountUpMember(ups, i, id);
      }
    }
  }

  lemma {:induction false} NoTokenNoSubmit(q: seq<In>, id: SwapID)
    ensures CountInbox(q, id) == 0 <==> forall i | 0 <= i < |q| && q[i].Submit? :: q[i].blob.id != id
    decreases |q|
  {
    if q != [] {
      NoTokenNoSubmit(q[1..], id);
      assert forall i | 0 < i < |q| :: q[i] == q[1..][i - 1];
    }
  }

  /** Nothing a child holds about other swaps depends on the row of a swap it holds nothing about. */
  lemma ChildOkOffRow(s: Sys, s': Sys, c: Child, delay: bool, id: SwapID)
    requires ChildOk(s, c, delay) && ChildTokens(c, id) == 0
    requires s'.matches == s.matches && s'.finished == s.finished && s'.posted == s.posted
    requires forall x | x != id ::
        (x in s.pending <==> x in s'.pending) && (x in s.pending ==> s'.pending[x] == s.pending[x])
    ensures ChildOk(s', c, delay)
  {
    NoTokenNoRequest(c.queue, id);
    NoTokenNoUp(c.up, id);
  }

  lemma PutQuiet(s: Sys, blob: SwapBlob)
    requires Inv(s) && Tokens(s, blob.id) == 0
    ensures QuietBeforeBoot(s.(pending := PutSwap(s.pending, blob)))
  {
    var s' := s.(pending := PutSwap(s.pending, blob));
    forall id | id in s'.pending && id in s'.posted && Waiting(s', s'.posted[id].password)
      ensures ChildTokens(s'.delayed, id) == 0 && ChildTokens(s'.immediate, id) == 0
    {
      assert Waiting(s, s.posted[id].password);
      if id != blob.id {
        assert id in s.pending;
      }
    }
  }

  lemma PutRows(s: Sys, blob: SwapBlob)
    requires RowsOk(s) && InboxOk(s) && CountInbox(s.inbox, blob.id) == 0 && Owned(s, blob)
    ensures var s' := s.(pending := PutSwap(s.pending, blob)); RowsOk(s') && InboxOk(s')
  {
    NoTokenNoSubmit(s.inbox, blob.id);
  }

  lemma PutCounts(s: Sys, pending: map<SwapID, SwapBlob>)
    requires Single(s) && UsedOk(s)
    ensures Single(s.(pending := pending)) && UsedOk(s.(pending := pending))
  {
    assert forall id :: Tokens(s.(pending := pending), id) == Tokens(s, id);
  }

  lemma PutChildren(s: Sys, blob: SwapBlob)
    requires ChildOk(s, s.delayed, true) && ChildOk(s, s.immediate, false) && Tokens(s, blob.id) == 0
    ensures var s' := s.(pending := PutSwap(s.pending, blob));
            ChildOk(s', s'.delayed, true) && ChildOk(s', s'.immediate, false)
  {
    var s' := s.(pending := PutSwap(s.pending, blob));
    ChildOkOffRow(s, s', s.delayed, true, blob.id);
    ChildOkOffRow(s, s', s.immediate, false, blob.id);
  }

  /** Writing the row of a swap nothing is held about keeps the invariant. */
  lemma PutInv(s: Sys, blob: SwapBlob)
    requires Inv(s) && Tokens(s, blob.id) == 0 && Owned(s, blob)
    ensures Inv(s.(pending := PutSwap(s.pending, blob)))
  {
    PutChildren(s, blob);
    PutCounts(s, PutSwap(s.pending, blob));
    PutRows(s, blob);
    PutQuiet(s, blob);
  }

  lemma SendTokens(s: Sys, blob: SwapBlob)
    ensures forall id :: Tokens(Send(s, blob), id) == Tokens(s, id) + (if id == blob.id then 1 else 0)
  {
    forall id ensures Tokens(Send(s, blob), id) == Tokens(s, id) + (if id == blob.id then 1 else 0) {
      CountQueueAppend(Get(s, blob.delay).queue, [Request(blob)], id);
      assert [Request(blob)][1..] == [];
    }
  }

  lemma SendQuiet(s: Sys, blob: SwapBlob)
    requires QuietBeforeBoot(s) && IsRow(s, blob) && !Waiting(s, blob.password)
    ensures QuietBeforeBoot(Send(s, blob))
  {
    var s' := Send(s, blob);
    forall id | id in s'.pending && id in s'.posted && Waiting(s', s'.posted[id].password)
      ensures ChildTokens(s'.delayed, id) == 0 && ChildTokens(s'.immediate, id) == 0
    {
      assert Waiting(s, s.posted[id].password);
      assert id != blob.id;
      CountQueueAppend(Get(s, blob.delay).queue, [Request(blob)], id);
      assert [Request(blob)][1..] == [];
    }
  }

  lemma SendChildren(s: Sys, blob: SwapBlob)
    requires ChildOk(s, s.delayed, true) && ChildOk(s, s.immediate, false) && IsRow(s, blob)
    ensures var s' := Send(s, blob); ChildOk(s', s'.delayed, true) && ChildOk(s', s'.immediate, false)
  {
  }

  /** Sending a stored swap nobody holds, after its owner's bootload, keeps the invariant. */
  lemma SendInv(s: Sys, blob: SwapBlob)
    requires Inv(s) && Tokens(s, blob.id) == 0 && IsRow(s, blob) && !Waiting(s, blob.password)
    ensures Inv(Send(s, blob))
    ensures forall id :: Tokens(Send(s, blob), id) == Tokens(s, id) + (if id == blob.id then 1 else 0)
  {
    var s' := Send(s, blob);
    SendTokens(s, blob);
    SendQuiet(s, blob);
    SendChildren(s, blob);
  }

  lemma HandleSwapRequestInv(s: Sys, blob: SwapBlob, fault: Fault)
    requires Inv(s) && Tokens(s, blob.id) == 0 && Owned(s, blob)
    requires !Waiting(s, blob.password)
    ensures Inv(HandleSwapRequest(s, blob, fault))
  {
    PutInv(s, blob);
    var stored := s.(pending := PutSwap(s.pending, blob));
    assert Tokens(stored, blob.id) == Tokens(s, blob.id);
    assert Waiting(stored, blob.password) == Waiting(s, blob.password);
    SendInv(stored, blob);
  }

  lemma HandleDeleteInv(s: Sys, id: SwapID, fault: Fault)
    requires Inv(s) && Tokens(s, id) == 0
    ensures Inv(HandleDelete(s, id, fault))
  {
    var s' := HandleDelete(s, id, fault);
    if s' != s {
      ChildOkOffRow(s, s', s.delayed, true, id);
      ChildOkOffRow(s, s', s.immediate, false, id);
      PutCounts(s, s'.pending);
      assert forall p :: Waiting(s', p) == Waiting(s, p);
    }
  }

  lemma TickTokens(s: Sys, id: SwapID)
    ensures ChildTokens(HandleTick(s).delayed, id) == ChildTokens(s.delayed, id)
    ensures ChildTokens(HandleTick(s).immediate, id) == ChildTokens(s.immediate, id)
  {
    CountQueueAppend(s.delayed.queue, [TickDown], id);
    CountQueueAppend(s.immediate.queue, [TickDown], id);
    assert [TickDown][1..] == [];
  }

  lemma HandleTickInv(s: Sys)
    requires Inv(s)
    ensures Inv(HandleTick(s))
  {
    var s' := HandleTick(s);
    forall id ensures ChildTokens(s'.delayed, id) == ChildTokens(s.delayed, id)
              ensures ChildTokens(s'.immediate, id) == ChildTokens(s.immediate, id)
    {
      TickTokens(s, id);
    }
    assert ChildOk(s, s'.delayed, true) && ChildOk(s, s'.immediate, false);
    var s1 := With(s, true, s'.delayed);
    ChildReplaced(s, true, s'.delayed);
    ChildReplaced(s1, false, s'.immediate) by {
      assert ChildOk(s1, s'.immediate, false);
    }
  }

  // ---------------------------------------------------------------- taking messages

  lemma PopInboxOk(s: Sys)
    requires InboxOk(s) && s.inbox != []
    ensures InboxOk(s.(inbox := s.inbox[1..]))
  {
  }

  lemma PopInboxInv(s: Sys)
    requires Inv(s) && s.inbox != []
    ensures Inv(s.(inbox := s.inbox[1..]))
    ensures forall id :: Tokens(s.(inbox := s.inbox[1..]), id)
                         == Tokens(s, id) - (if s.inbox[0].Submit? && s.inbox[0].blob.id == id then 1 else 0)
  {
    var s' := s.(inbox := s.inbox[1..]);
    PopInboxOk(s);
    forall id
      ensures Tokens(s', id) == Tokens(s, id) - (if s.inbox[0].Submit? && s.inbox[0].blob.id == id then 1 else 0) {}
    forall p | Waiting(s', p) ensures Waiting(s, p) {
      if p in s.booted {
        assert Boot(p) in s'.inbox;
      }
    }
    SameChildren(s, s');
  }

  lemma PopChildUpInv(s: Sys, delay: bool)
    requires Inv(s) && Get(s, delay).up != []
    ensures var c := Get(s, delay);
            var s' := With(s, delay, c.(up := c.up[1..]));
            && Inv(s')
            && (forall id :: Tokens(s', id) == Tokens(s, id) - (if Carries(c.up[0], id) then 1 else 0))
            && (forall p :: Waiting(s', p) == Waiting(s, p))
  {
    var c := Get(s, delay);
    PopUpOk(s, c, delay);
    ChildReplaced(s, delay, c.(up := c.up[1..]));
  }

  lemma HandleUpInv(s: Sys, delay: bool, fault: Fault)
    requires Inv(s) && Get(s, delay).up != []
    ensures var c := Get(s, delay);
            Inv(HandleUp(With(s, delay, c.(up := c.up[1..])), c.up[0], fault))
  {
    var c := Get(s, delay);
    var s' := With(s, delay, c.(up := c.up[1..]));
    PopChildUpInv(s, delay);
    assert UpOk(s, c.up[0]);
    match c.up[0]
    case Filled(blob) =>
      assert Carries(c.up[0], blob.id);
      assert ChildTokens(c, blob.id) > 0;
      assert !Waiting(s, blob.password);
      HandleSwapRequestInv(s', blob, fault);
    case Delete(id) =>
      assert Carries(c.up[0], id);
      HandleDeleteInv(s', id, fault);
    case Receipt(_, _) =>
    case Failure =>
  }

  lemma {:induction false} ResendInv(s: Sys, order: seq<SwapID>, password: string)
    requires Inv(s) && !Waiting(s, password)
    requires forall i | 0 <= i < |order| :: order[i] in s.pending
    requires forall i, j | 0 <= i < j < |order| :: order[i] != order[j]
    requires forall i | 0 <= i < |order| && Mine(s, s.pending[order[i]], password) :: Tokens(s, order[i]) == 0
    ensures Inv(Resend(s, order, password))
    decreases |order|
  {
    if order != [] {
      var row := s.pending[order[0]];
      var s' := SendMine(s, row, password);
      if Mine(s, row, password) {
        SendInv(s, row.(password := password));
        assert Waiting(s', password) == Waiting(s, password);
      }
      ResendInv(s', order[1..], password);
    }
  }

  lemma HandleInInv(s: Sys, fault: Fault, order: seq<SwapID>)
    requires Inv(s) && s.inbox != []
    ensures Inv(HandleIn(s.(inbox := s.inbox[1..]), s.inbox[0], fault, order))
  {
    var s' := s.(inbox := s.inbox[1..]);
    PopInboxInv(s);
    match s.inbox[0]
    case Tick => HandleTickInv(s');
    case Submit(blob) =>
      assert s.inbox[0..] == s.inbox;
      assert Tokens(s, blob.id) > 0;
      HandleSwapRequestInv(s', blob, fault);
    case Boot(password) =>
      if fault.NoFault? && Scan(order, s'.pending) {
        assert Waiting(s, password) && !Waiting(s', password);
        forall i | 0 <= i < |order| && Mine(s', s'.pending[order[i]], password) ensures Tokens(s', order[i]) == 0 {
          NoTokenNoSubmit(s'.inbox, order[i]);
        }
        ResendInv(s', order, password);
      }
  }

  lemma AppendInboxOk(s: Sys, s': Sys, msg: In)
    requires InboxOk(s) && s'.inbox == s.inbox + [msg] && s'.pending == s.pending && s.booted <= s'.booted
    requires forall id | id in s.posted :: id in s'.posted && s'.posted[id] == s.posted[id]
    requires msg.Submit? ==>
               msg.blob.id !in s'.pending && Owned(s', msg.blob) && msg.blob.password in s'.booted
    requires msg.Boot? ==> msg.password !in s.booted && msg.password in s'.booted
    ensures InboxOk(s')
  {
    forall i | 0 <= i <= |s.inbox| ensures s'.inbox[i..] == s.inbox[i..] + [msg] {}
  }

  lemma SameChildren(s: Sys, s': Sys)
    requires Inv(s) && Extends(s', s) && s'.delayed == s.delayed && s'.immediate == s.immediate
    requires forall p | Waiting(s', p) :: Waiting(s, p)
    ensures ChildOk(s', s'.delayed, true) && ChildOk(s', s'.immediate, false) && QuietBeforeBoot(s') && RowsOk(s')
  {
    ChildOkKept(s, s', s.delayed, true);
    ChildOkKept(s, s', s.immediate, false);
    QuietKept(s, s');
  }

  lemma PostTickInv(s: Sys)
    requires Inv(s)
    ensures Inv(Step(s, PostTick))
  {
    var s' := Step(s, PostTick);
    AppendInboxOk(s, s', In.Tick);
    forall id ensures Tokens(s', id) == Tokens(s, id) {
      CountInboxAppend(s.inbox, In.Tick, id);
    }
    assert forall p | Waiting(s', p) :: Waiting(s, p);
    SameChildren(s, s');
  }

  lemma PostBootInv(s: Sys, password: string)
    requires Inv(s) && SingleOwner(Step(s, PostBoot(password)))
    ensures Inv(Step(s, PostBoot(password)))
  {
    if password !in s.booted {
      var s' := Step(s, PostBoot(password));
      AppendInboxOk(s, s', Boot(password));
      forall id ensures Tokens(s', id) == Tokens(s, id) {
        CountInboxAppend(s.inbox, Boot(password), id);
      }
      assert forall p | Waiting(s', p) :: Waiting(s, p);
      SameChildren(s, s');
    }
  }

  lemma PostedCounts(s: Sys, blob: SwapBlob)
    requires Single(s) && UsedOk(s) && blob.id !in s.posted
    ensures Single(Posted(s, blob)) && UsedOk(Posted(s, blob))
  {
    forall id ensures Tokens(Posted(s, blob), id) == Tokens(s, id) + (if id == blob.id then 1 else 0) {
      CountInboxAppend(s.inbox, Submit(blob), id);
    }
  }

  lemma PostSwapInv(s: Sys, blob: SwapBlob)
    requires Inv(s) && SingleOwner(Step(s, PostSwap(blob)))
    ensures Inv(Step(s, PostSwap(blob)))
  {
    if MayPost(s, blob) {
      var s' := Step(s, PostSwap(blob));
      AppendInboxOk(s, s', Submit(blob));
      PostedCounts(s, blob);
      assert forall p | Waiting(s', p) :: Waiting(s, p);
      SameChildren(s, s');
    }
  }

  lemma {:induction false} CountInboxAppend(q: seq<In>, msg: In, id: SwapID)
    ensures CountInbox(q + [msg], id) == CountInbox(q, id) + (if msg.Submit? && msg.blob.id == id then 1 else 0)
    decreases |q|
  {
    if q == [] {
      assert [msg][1..] == [];
      assert q + [msg] == [msg];
    } else {
      assert (q + [msg])[1..] == q[1..] + [msg];
      CountInboxAppend(q[1..], msg, id);
    }
  }

  lemma RunDelayedInv(s: Sys, answers: SwapID -> Answer, walk: seq<SwapID>)
    requires Inv(s)
    ensures Inv(Step(s, RunDelayed(answers, walk)))
  {
    forall blob: SwapBlob ensures Sound(blob, DelayedEffect(blob, answers(blob.id))) {
      DelayedSound(blob, answers(blob.id));
    }
    RunChildInv(s, DelayedEffects(answers), walk, true);
  }

  lemma RunImmediateInv(s: Sys, passes: SwapBlob -> Pass, walk: seq<SwapID>)
    requires Inv(s)
    ensures Inv(Step(s, RunImmediate(passes, walk)))
  {
    forall blob: SwapBlob
      ensures var e := ImmediateEffect(blob, passes(blob));
              Sound(blob, e) && forall i | 0 <= i < |e.ups| :: !e.ups[i].Filled?
    {
      ImmediateSound(blob, passes(blob));
    }
    RunChildInv(s, ImmediateEffects(passes), walk, false);
  }

  lemma StepInv(s: Sys, act: Action)
    requires Inv(s) && SingleOwner(Step(s, act))
    ensures Inv(Step(s, act))
  {
    match act
    case ParentInbox(fault, order) =>
      if s.inbox != [] {
        HandleInInv(s, fault, order);
      }
    case ParentFromDelayed(fault) =>
      if s.delayed.up != [] {
        HandleUpInv(s, true, fault);
      }
    case ParentFromImmediate(fault) =>
      if s.immediate.up != [] {
        HandleUpInv(s, false, fault);
      }
    case RunDelayed(answers, walk) => RunDelayedInv(s, answers, walk);
    case RunImmediate(passes, walk) => RunImmediateInv(s, passes, walk);
    case Crash =>
    case PostSwap(blob) => PostSwapInv(s, blob);
    case PostBoot(password) => PostBootInv(s, password);
    case PostTick => PostTickInv(s);
  }

  lemma {:induction false} ResendHistory(s: Sys, order: seq<SwapID>, password: string)
    ensures var r := Resend(s, order, password);
            r.posted == s.posted && r.passwords == s.passwords && r.matches == s.matches
    decreases |order|
  {
    if order != [] {
      var s' := if order[0] in s.pending then SendMine(s, s.pending[order[0]], password) else s;
      ResendHistory(s', order[1..], password);
    }
  }

  /** History is only added to. */
  lemma StepHistory(s: Sys, act: Action)
    ensures var s' := Step(s, act);
            && s'.matches == s.matches && s.passwords <= s'.passwords
            && forall id | id in s.posted :: id in s'.posted && s'.posted[id] == s.posted[id]
  {
    match act
    case ParentInbox(fault, order) =>
      if s.inbox != [] && s.inbox[0].Boot? {
        ResendHistory(s.(inbox := s.inbox[1..]), order, s.inbox[0].password);
      }
    case _ =>
  }

  lemma {:induction false} RunHistory(s: Sys, acts: seq<Action>)
    ensures var s' := Run(s, acts);
            && s'.matches == s.matches && s.passwords <= s'.passwords
            && forall id | id in s.posted :: id in s'.posted && s'.posted[id] == s.posted[id]
    ensures SingleOwner(Run(s, acts)) ==> SingleOwner(s)
    decreases |acts|
  {
    if acts != [] {
      StepHistory(s, acts[0]);
      RunHistory(Step(s, acts[0]), acts[1..]);
    }
  }

  lemma {:induction false} RunInv(s: Sys, acts: seq<Action>)
    requires Inv(s) && SingleOwner(Run(s, acts))
    ensures Inv(Run(s, acts))
    decreases |acts|
  {
    if acts != [] {
      RunHistory(Step(s, acts[0]), acts[1..]);
      StepInv(s, acts[0]);
      RunInv(Step(s, acts[0]), acts[1..]);
    }
  }
}
