/**
 The messages and effects of the swapper's tasks. The parent and its two children exchange
 messages over first-in first-out queues; a child keeps the requests it will try again.
 */
module Tasks {
  import opened Common
  import opened Swaps

  /** What reaches the parent from outside. */
  datatype In = Submit(blob: SwapBlob) | Boot(password: string) | Tick

  /** What the parent sends to a child. */
  datatype Down = Request(blob: SwapBlob) | TickDown

  /** How a receipt changes: a new status, or the terms the broker has filled in. */
  datatype Change = Became(status: Status) | FilledWith(sendAmount: string, receiveAmount: string, timeLock: int)

  /** What a child sends back. */
  datatype Up =
    | Receipt(id: SwapID, change: Change)
    | Filled(blob: SwapBlob)
    | Delete(id: SwapID)
    | Failure

  datatype Child = Child(queue: seq<Down>, live: map<SwapID, SwapBlob>, up: seq<Up>)

  const IdleChild := Child([], map[], [])

  /** What handling one request does to the child's map, and the messages it sends. */
  datatype Fate = Unchanged | Held | Released

  datatype Effect = Effect(fate: Fate, ups: seq<Up>)

  function Handle(c: Child, blob: SwapBlob, e: Effect): Child {
    Child(c.queue,
          match e.fate
          case Unchanged => c.live
          case Held => c.live[blob.id := blob]
          case Released => c.live - {blob.id},
          c.up + e.ups)
  }

  /** A tick handles every request in the map, in whatever order the map is walked. */
  function HandleAll(c: Child, order: seq<SwapID>, effect: SwapBlob -> Effect): Child
    decreases |order|
  {
    if order == [] then c
    else
      var id := order[0];
      var c' := if id in c.live then Handle(c, c.live[id], effect(c.live[id])) else c;
      HandleAll(c', order[1..], effect)
  }

  // ---------------------------------------------------------------- the delayed child

  /** How the broker answers: a verified fill, a cancellation, nothing yet, or an error. */
  datatype Answer = FilledIn(terms: SwapBlob) | CancelledSwap | Unavailable | Broken

  /** The broker keeps the ID and the password hash; the price check clears the delay flag. */
  function Fill(blob: SwapBlob, terms: SwapBlob): SwapBlob {
    terms.(id := blob.id, passwordHash := blob.passwordHash, password := blob.password, delay := false)
  }

  function DelayedEffect(blob: SwapBlob, answer: Answer): Effect {
    match answer
    case FilledIn(terms) =>
      Effect(Released, [Receipt(blob.id, FilledWith(terms.sendAmount, terms.receiveAmount, terms.timeLock)),
                        Filled(Fill(blob, terms))])
    case CancelledSwap => Effect(Released, [Receipt(blob.id, Became(Cancelled)), Delete(blob.id)])
    case Unavailable => Effect(Held, [])
    case Broken => Effect(Held, [Failure])
  }

  function DelayedEffects(answers: SwapID -> Answer): SwapBlob -> Effect {
    (blob: SwapBlob) => DelayedEffect(blob, answers(blob.id))
  }

  // ---------------------------------------------------------------- the immediate child

  datatype Outcome = SwapRedeemed | SwapRefunded | SwapExpired

  function FinalStatus(outcome: Outcome): Status {
    match outcome
    case SwapRedeemed => Redeemed
    case SwapRefunded => Refunded
    case SwapExpired => Expiration
  }

  /** How a pass ends: contracts not built, a status to retry from, or a final outcome. */
  datatype Pass = Unbuilt | Retry(status: Status, error: bool) | Finish(outcome: Outcome)

  function ImmediateEffect(blob: SwapBlob, pass: Pass): Effect {
    match pass
    case Unbuilt => Effect(Unchanged, [Failure])
    case Retry(status, error) =>
      Effect(Held, [Receipt(blob.id, Became(status))] + if error then [Failure] else [])
    case Finish(outcome) =>
      Effect(Released, [Receipt(blob.id, Became(FinalStatus(outcome)))]
                       + (if outcome.SwapExpired? then [Failure] else []) + [Delete(blob.id)])
  }

  function ImmediateEffects(passes: SwapBlob -> Pass): SwapBlob -> Effect {
    (blob: SwapBlob) => ImmediateEffect(blob, passes(blob))
  }

  predicate Terminal(status: Status) {
    status.Redeemed? || status.Refunded? || status.Expiration? || status.Cancelled?
  }

  // ---------------------------------------------------------------- tokens

  function CountQueue(q: seq<Down>, id: SwapID): nat {
    if q == [] then 0
    else (if q[0].Request? && q[0].blob.id == id then 1 else 0) + CountQueue(q[1..], id)
  }

  predicate Carries(u: Up, id: SwapID) {
    match u
    case Filled(blob) => blob.id == id
    case Delete(x) => x == id
    case _ => false
  }

  function CountUp(ups: seq<Up>, id: SwapID): nat {
    if ups == [] then 0 else (if Carries(ups[0], id) then 1 else 0) + CountUp(ups[1..], id)
  }

  /** The live requests a child holds for a swap, and the final messages it has sent about it. */
  function ChildTokens(c: Child, id: SwapID): nat {
    CountQueue(c.queue, id) + (if id in c.live then 1 else 0) + CountUp(c.up, id)
  }

  lemma {:induction false} CountQueueAppend(p: seq<Down>, q: seq<Down>, id: SwapID)
    ensures CountQueue(p + q, id) == CountQueue(p, id) + CountQueue(q, id)
    decreases |p|
  {
    if p == [] {
      assert p + q == q;
    } else {
      assert (p + q)[1..] == p[1..] + q;
      CountQueueAppend(p[1..], q, id);
    }
  }

  lemma {:induction false} CountUpAppend(p: seq<Up>, q: seq<Up>, id: SwapID)
    ensures CountUp(p + q, id) == CountUp(p, id) + CountUp(q, id)
    decreases |p|
  {
    if p == [] {
      assert p + q == q;
    } else {
      assert (p + q)[1..] == p[1..] + q;
      CountUpAppend(p[1..], q, id);
    }
  }

  lemma {:induction false} CountQueueMember(q: seq<Down>, i: nat)
    requires i < |q| && q[i].Request?
    ensures CountQueue(q, q[i].blob.id) >= 1
    decreases |q|
  {
    if i > 0 {
      CountQueueMember(q[1..], i - 1);
    }
  }

  lemma {:induction false} CountUpMember(ups: seq<Up>, i: nat, id: SwapID)
    requires i < |ups| && Carries(ups[i], id)
    ensures CountUp(ups, id) >= 1
    decreases |ups|
  {
    if i > 0 {
      CountUpMember(ups[1..], i - 1, id);
    }
  }

  /** Handling keeps a request, or turns it into one final message about the same swap. */
  ghost predicate Sound(blob: SwapBlob, e: Effect) {
    && (forall id :: CountUp(e.ups, id) == if id == blob.id && e.fate.Released? then 1 else 0)
    && (forall i | 0 <= i < |e.ups| && e.ups[i].Filled? ::
          && e.ups[i].blob.id == blob.id && e.ups[i].blob.passwordHash == blob.passwordHash
          && e.ups[i].blob.password == blob.password && !e.ups[i].blob.delay)
  }

  lemma CountUpFew(u: Up, v: Up, w: Up, id: SwapID)
    ensures CountUp([u], id) == (if Carries(u, id) then 1 else 0)
    ensures CountUp([u, v], id) == (if Carries(u, id) then 1 else 0) + CountUp([v], id)
    ensures CountUp([u, v, w], id) == (if Carries(u, id) then 1 else 0) + CountUp([v, w], id)
  {
  }

  lemma DelayedSound(blob: SwapBlob, answer: Answer)
    ensures Sound(blob, DelayedEffect(blob, answer))
  {
    var e := DelayedEffect(blob, answer);
    forall id ensures CountUp(e.ups, id) == if id == blob.id && e.fate.Released? then 1 else 0 {
      if |e.ups| == 2 {
        CountUpFew(e.ups[0], e.ups[1], e.ups[0], id);
        CountUpFew(e.ups[1], e.ups[1], e.ups[1], id);
      } else if |e.ups| == 1 {
        CountUpFew(e.ups[0], e.ups[0], e.ups[0], id);
      }
    }
  }

  lemma ImmediateSound(blob: SwapBlob, pass: Pass)
    ensures Sound(blob, ImmediateEffect(blob, pass))
    ensures forall i | 0 <= i < |ImmediateEffect(blob, pass).ups| :: !ImmediateEffect(blob, pass).ups[i].Filled?
  {
    var e := ImmediateEffect(blob, pass);
    forall id ensures CountUp(e.ups, id) == if id == blob.id && e.fate.Released? then 1 else 0 {
      if |e.ups| == 3 {
        CountUpFew(e.ups[0], e.ups[1], e.ups[2], id);
        CountUpFew(e.ups[1], e.ups[2], e.ups[2], id);
        CountUpFew(e.ups[2], e.ups[2], e.ups[2], id);
      } else if |e.ups| == 2 {
        CountUpFew(e.ups[0], e.ups[1], e.ups[0], id);
        CountUpFew(e.ups[1], e.ups[1], e.ups[1], id);
      } else {
        CountUpFew(e.ups[0], e.ups[0], e.ups[0], id);
      }
    }
  }
}
