/**
 The account one Ethereum or ERC20 binder keeps of its own spending, next to the on-chain
 record it acts on. Every submitted transaction is entered in `sent`.
 */
module CostLedger {
  import opened Common
  import opened Ledger
  import opened Swaps

  /**
   How one call goes: whether its precondition could be read from the chain, whether a
   transaction was submitted, whether it took effect, whether the binder saw an error, and
   the gas it paid.
   */
  datatype Tx = Tx(checked: bool, submitted: bool, effect: bool, failed: bool, fee: nat)

  /** A transaction has an effect only when submitted; success is reported only after the effect. */
  predicate Plausible(tx: Tx) {
    (tx.effect ==> tx.submitted) && (!tx.failed ==> tx.effect)
  }

  datatype Kind = Approve | Initiate | Redeem | Refund

  datatype Entry = Entry(kind: Kind, fee: nat, effect: bool)

  /** What a binder knows about its contract; `approves` marks the ERC20 flavour. */
  datatype Terms = Terms(token: string, approves: bool, brokerFee: int, timeLock: int, preimage: Bytes)

  datatype Book = Book(htlc: Htlc, cost: Cost, sent: seq<Entry>)

  predicate Ready(book: Book, t: Terms) {
    ETH in book.cost && t.token in book.cost
  }

  function Charge(cost: Cost, key: string, amount: int): Cost
    requires key in cost
  {
    cost[key := cost[key] + amount]
  }

  /** Only a positive broker fee is sent along when the contract is funded. */
  function PaidIn(brokerFee: int): nat {
    if brokerFee > 0 then brokerFee else 0
  }

  /** The account after submitting `kind` with `tx`, whose effect on chain would be `h`. */
  function Sent(book: Book, t: Terms, kind: Kind, tx: Tx, h: Htlc): (r: Book)
    requires Ready(book, t)
    ensures Ready(r, t)
  {
    var brokers := match kind
      case Initiate => PaidIn(t.brokerFee)
      case Refund => -t.brokerFee
      case _ => 0;
    Book(if tx.effect then h else book.htlc,
         Charge(Charge(book.cost, ETH, tx.fee), t.token, brokers),
         book.sent + [Entry(kind, tx.fee, tx.effect)])
  }

  /** Charges to two accounts, or twice to one, may be entered in either order. */
  lemma ChargesCommute(cost: Cost, k: string, x: int, l: string, y: int)
    requires k in cost && l in cost
    ensures Charge(Charge(cost, k, x), l, y) == Charge(Charge(cost, l, y), k, x)
    ensures Charge(cost, k, 0) == cost
  {
  }

  datatype Call =
    | Initiates(approve: Tx, tx: Tx)
    | Refunds(now: int, tx: Tx)
    | Redeems(key: Bytes, tx: Tx)
    | Others(h: Htlc)

  /** The account after one call; a call whose precondition fails, or cannot be read, changes nothing. */
  function After(book: Book, t: Terms, call: Call): (r: Book)
    requires Ready(book, t)
    ensures Ready(r, t)
  {
    match call
    case Initiates(approve, tx) =>
      if !tx.checked || !Initiatable(book.htlc) then book
      else
        var approved := if t.approves && approve.submitted then Sent(book, t, Approve, approve, book.htlc) else book;
        if (t.approves && (!approve.submitted || approve.failed)) || !tx.submitted then approved
        else Sent(approved, t, Initiate, tx, AfterInitiate(book.htlc))
    case Refunds(now, tx) =>
      if tx.checked && Refundable(book.htlc, now, t.timeLock) && tx.submitted
      then Sent(book, t, Refund, tx, AfterRefund(book.htlc, now, t.timeLock))
      else book
    case Redeems(key, tx) =>
      if tx.checked && Redeemable(book.htlc) && tx.submitted
      then Sent(book, t, Redeem, tx, AfterRedeem(book.htlc, key, t.preimage))
      else book
    case Others(h) => book.(htlc := h)
  }

  /**
   Whether the call returns without an error. A precondition that cannot be read counts as one
   that fails, and is passed over in silence; only the ERC20 Initiate reports it.
   */
  predicate Succeeds(h: Htlc, t: Terms, call: Call) {
    match call
    case Initiates(approve, tx) =>
      if !tx.checked then !t.approves
      else Initiatable(h) ==> (t.approves ==> approve.submitted && !approve.failed) && tx.submitted && !tx.failed
    case Refunds(now, tx) => tx.checked && Refundable(h, now, t.timeLock) ==> tx.submitted && !tx.failed
    case Redeems(_, tx) => tx.checked && Redeemable(h) ==> tx.submitted && !tx.failed
    case Others(_) => true
  }

  /** The on-chain record after the call. */
  function RecordAfter(h: Htlc, t: Terms, call: Call): Htlc {
    match call
    case Initiates(approve, tx) =>
      if tx.checked && (t.approves ==> approve.submitted && !approve.failed) && tx.submitted && tx.effect
      then AfterInitiate(h) else h
    case Refunds(now, tx) =>
      if tx.checked && tx.submitted && tx.effect then AfterRefund(h, now, t.timeLock) else h
    case Redeems(key, tx) =>
      if tx.checked && tx.submitted && tx.effect then AfterRedeem(h, key, t.preimage) else h
    case Others(h') => h'
  }

  lemma RecordOfAfter(book: Book, t: Terms, call: Call)
    requires Ready(book, t)
    ensures After(book, t, call).htlc == RecordAfter(book.htlc, t, call)
  {
  }

  function AfterAll(book: Book, t: Terms, calls: seq<Call>): (r: Book)
    requires Ready(book, t)
    ensures Ready(r, t)
    decreases |calls|
  {
    if calls == [] then book else AfterAll(After(book, t, calls[0]), t, calls[1..])
  }

  // ---------------------------------------------------------------- conservation

  function Fees(sent: seq<Entry>): nat {
    if sent == [] then 0 else Fees(sent[..|sent| - 1]) + sent[|sent| - 1].fee
  }

  function CountOf(sent: seq<Entry>, kind: Kind, effect: bool): nat {
    if sent == [] then 0
    else
      var e := sent[|sent| - 1];
      CountOf(sent[..|sent| - 1], kind, effect) + (if e.kind == kind && e.effect == effect then 1 else 0)
  }

  function AllOf(sent: seq<Entry>, kind: Kind): nat {
    CountOf(sent, kind, true) + CountOf(sent, kind, false)
  }

  function BrokerFees(sent: seq<Entry>, brokerFee: int): int {
    PaidIn(brokerFee) * AllOf(sent, Initiate) - brokerFee * AllOf(sent, Refund)
  }

  /** The account says: gas for everything submitted, broker fee in for Initiate and out for Refund. */
  ghost predicate Balanced(start: Cost, book: Book, t: Terms) {
    && Ready(book, t) && book.cost.Keys == start.Keys
    && var broker := BrokerFees(book.sent, t.brokerFee);
    && book.cost[t.token] == start[t.token] + broker + (if t.token == ETH then Fees(book.sent) else 0)
    && book.cost[ETH] == start[ETH] + Fees(book.sent) + (if t.token == ETH then broker else 0)
    && forall k | k in start && k != ETH && k != t.token :: book.cost[k] == start[k]
  }

  /** What a binder's account opens with: the costs so far, and zero where there are none. */
  function Opening(cost: Cost, token: string): Cost {
    var known := if ETH in cost then cost else cost[ETH := 0];
    if token in known then known else known[token := 0]
  }

  /** `after` is `before` plus the gas of some transactions and their broker fees, in or out. */
  ghost predicate Continues(before: Cost, after: Cost, t: Terms) {
    exists book: Book :: book.cost == after && Balanced(Opening(before, t.token), book, t)
  }

  lemma BalancedContinues(before: Cost, start: Cost, book: Book, t: Terms)
    requires start == Opening(before, t.token) && Balanced(start, book, t)
    ensures Continues(before, book.cost, t)
  {
  }

  /** Gas is never lost, and no other token's cost is touched. */
  lemma GasOnlyGrows(before: Cost, after: Cost, t: Terms)
    requires Continues(before, after, t)
    ensures t.token != ETH ==> ETH in after && after[ETH] >= if ETH in before then before[ETH] else 0
    ensures forall k | k in before && k != ETH && k != t.token :: k in after && after[k] == before[k]
  {
    var book: Book :| book.cost == after && Balanced(Opening(before, t.token), book, t);
  }

  /** Each of our Initiate and Refund takes effect at most once, and they explain the record. */
  ghost predicate Explained(book: Book) {
    && CountOf(book.sent, Initiate, true) <= 1
    && CountOf(book.sent, Refund, true) <= 1
    && (CountOf(book.sent, Initiate, true) == 1 ==> !book.htlc.Invalid?)
    && (CountOf(book.sent, Refund, true) == 1 ==> book.htlc.Expired?)
  }

  predicate PlausibleCall(h: Htlc, call: Call) {
    match call
    case Initiates(approve, tx) => Plausible(approve) && Plausible(tx)
    case Refunds(_, tx) => Plausible(tx)
    case Redeems(_, tx) => Plausible(tx)
    case Others(h') => MayBecome(h, h')
  }

  ghost predicate PlausibleRun(book: Book, t: Terms, calls: seq<Call>)
    requires Ready(book, t)
    decreases |calls|
  {
    calls != [] ==>
      && PlausibleCall(book.htlc, calls[0])
      && PlausibleRun(After(book, t, calls[0]), t, calls[1..])
  }

  lemma CountSent(sent: seq<Entry>, e: Entry, kind: Kind, effect: bool)
    ensures CountOf(sent + [e], kind, effect)
            == CountOf(sent, kind, effect) + (if e.kind == kind && e.effect == effect then 1 else 0)
  {
    assert (sent + [e])[..|sent|] == sent;
  }

  /** What one more entry adds to the broker fees. */
  function BrokerPart(kind: Kind, brokerFee: int): int {
    match kind
    case Initiate => PaidIn(brokerFee)
    case Refund => -brokerFee
    case _ => 0
  }

  lemma BrokerFeesSent(sent: seq<Entry>, e: Entry, brokerFee: int)
    ensures BrokerFees(sent + [e], brokerFee) == BrokerFees(sent, brokerFee) + BrokerPart(e.kind, brokerFee)
    ensures Fees(sent + [e]) == Fees(sent) + e.fee
  {
    CountSent(sent, e, Initiate, true);
    CountSent(sent, e, Initiate, false);
    CountSent(sent, e, Refund, true);
    CountSent(sent, e, Refund, false);
    assert (sent + [e])[..|sent|] == sent;
    var p, i, r := PaidIn(brokerFee), AllOf(sent, Initiate), AllOf(sent, Refund);
    assert p * (i + 1) == p * i + p;
    assert brokerFee * (r + 1) == brokerFee * r + brokerFee;
  }

  /** What two charges leave in each account. */
  lemma ChargedTwice(cost: Cost, k: string, x: int, l: string, y: int)
    requires k in cost && l in cost
    ensures var r := Charge(Charge(cost, k, x), l, y);
            && r.Keys == cost.Keys
            && r[k] == cost[k] + x + (if k == l then y else 0)
            && r[l] == cost[l] + y + (if k == l then x else 0)
            && forall o | o in cost && o != k && o != l :: r[o] == cost[o]
  {
  }

  lemma SentBalanced(start: Cost, book: Book, t: Terms, kind: Kind, tx: Tx, h: Htlc)
    requires Balanced(start, book, t)
    ensures Balanced(start, Sent(book, t, kind, tx, h), t)
  {
    BrokerFeesSent(book.sent, Entry(kind, tx.fee, tx.effect), t.brokerFee);
    ChargedTwice(book.cost, ETH, tx.fee, t.token, BrokerPart(kind, t.brokerFee));
  }

  lemma SentExplained(book: Book, t: Terms, kind: Kind, tx: Tx, h: Htlc)
    requires Ready(book, t) && Explained(book)
    requires tx.effect ==> MayBecome(book.htlc, h)
    requires kind.Initiate? && tx.effect ==> book.htlc.Invalid? && !h.Invalid?
    requires kind.Refund? && tx.effect ==> book.htlc.Open? && h.Expired?
    requires !kind.Initiate? && tx.effect ==> !book.htlc.Invalid? || h == book.htlc
    ensures Explained(Sent(book, t, kind, tx, h))
  {
    CountSent(book.sent, Entry(kind, tx.fee, tx.effect), Initiate, true);
    CountSent(book.sent, Entry(kind, tx.fee, tx.effect), Refund, true);
  }

  lemma AfterBalanced(start: Cost, book: Book, t: Terms, call: Call)
    requires Balanced(start, book, t)
    ensures Balanced(start, After(book, t, call), t)
  {
    match call
    case Initiates(approve, tx) =>
      var approved := if t.approves && approve.submitted then Sent(book, t, Approve, approve, book.htlc) else book;
      SentBalanced(start, book, t, Approve, approve, book.htlc);
      SentBalanced(start, approved, t, Initiate, tx, AfterInitiate(book.htlc));
    case Refunds(now, tx) => SentBalanced(start, book, t, Refund, tx, AfterRefund(book.htlc, now, t.timeLock));
    case Redeems(key, tx) => SentBalanced(start, book, t, Redeem, tx, AfterRedeem(book.htlc, key, t.preimage));
    case Others(_) =>
  }

  lemma AfterExplained(book: Book, t: Terms, call: Call)
    requires Ready(book, t) && Explained(book) && PlausibleCall(book.htlc, call)
    ensures Explained(After(book, t, call))
  {
    match call
    case Initiates(approve, tx) =>
      if Initiatable(book.htlc) {
        var approved := if t.approves && approve.submitted then Sent(book, t, Approve, approve, book.htlc) else book;
        SentExplained(book, t, Approve, approve, book.htlc);
        SentExplained(approved, t, Initiate, tx, AfterInitiate(book.htlc));
      }
    case Refunds(now, tx) =>
      if Refundable(book.htlc, now, t.timeLock) {
        SentExplained(book, t, Refund, tx, AfterRefund(book.htlc, now, t.timeLock));
      }
    case Redeems(key, tx) =>
      if Redeemable(book.htlc) {
        SentExplained(book, t, Redeem, tx, AfterRedeem(book.htlc, key, t.preimage));
      }
    case Others(_) =>
  }

  lemma {:induction false} AfterAllBalanced(start: Cost, book: Book, t: Terms, calls: seq<Call>)
    requires Balanced(start, book, t)
    requires Explained(book) && PlausibleRun(book, t, calls)
    ensures Balanced(start, AfterAll(book, t, calls), t) && Explained(AfterAll(book, t, calls))
    decreases |calls|
  {
    if calls != [] {
      AfterBalanced(start, book, t, calls[0]);
      AfterExplained(book, t, calls[0]);
      AfterAllBalanced(start, After(book, t, calls[0]), t, calls[1..]);
    }
  }

  function Indicator(b: bool): int {
    if b then 1 else 0
  }

  /**
   Over any sequence of calls on an unopened contract, with the counterparty acting in
   between, recorded cost is starting cost, plus the gas of everything submitted, plus the
   broker fee for funding, if it is positive, and minus it for refunding; a reverted submission
   leaves the same behind as one that took effect.
   */
  lemma CostConservation(start: Cost, t: Terms, calls: seq<Call>)
    requires ETH in start && t.token in start
    requires PlausibleRun(Book(Invalid, start, []), t, calls)
    ensures var r := AfterAll(Book(Invalid, start, []), t, calls);
            var funded := CountOf(r.sent, Initiate, true) > 0;
            var refunded := CountOf(r.sent, Refund, true) > 0;
            var broker := PaidIn(t.brokerFee) * (Indicator(funded) + CountOf(r.sent, Initiate, false))
                          - t.brokerFee * (Indicator(refunded) + CountOf(r.sent, Refund, false));
            && (t.token != ETH ==> r.cost[ETH] == start[ETH] + Fees(r.sent)
                                   && r.cost[t.token] == start[t.token] + broker)
            && (t.token == ETH ==> r.cost[ETH] == start[ETH] + Fees(r.sent) + broker)
            && (refunded ==> r.htlc.Expired?) && (funded ==> !r.htlc.Invalid?)
  {
    AfterAllBalanced(start, Book(Invalid, start, []), t, calls);
  }

  /** Nobody but us opens the contract. */
  ghost predicate OnlyWeOpen(book: Book, t: Terms, calls: seq<Call>)
    requires Ready(book, t)
    decreases |calls|
  {
    calls != [] ==>
      && (calls[0].Others? && book.htlc.Invalid? ==> calls[0].h.Invalid?)
      && OnlyWeOpen(After(book, t, calls[0]), t, calls[1..])
  }

  lemma {:induction false} OpenedByUs(book: Book, t: Terms, calls: seq<Call>)
    requires Ready(book, t) && PlausibleRun(book, t, calls) && OnlyWeOpen(book, t, calls)
    requires !book.htlc.Invalid? ==> CountOf(book.sent, Initiate, true) > 0
    ensures var r := AfterAll(book, t, calls); !r.htlc.Invalid? ==> CountOf(r.sent, Initiate, true) > 0
    decreases |calls|
  {
    if calls != [] {
      var r := After(book, t, calls[0]);
      CountGrows(book, t, calls[0]);
      OpenedByUs(r, t, calls[1..]);
    }
  }

  lemma CountGrows(book: Book, t: Terms, call: Call)
    requires Ready(book, t)
    ensures CountOf(After(book, t, call).sent, Initiate, true) >= CountOf(book.sent, Initiate, true)
    ensures call.Initiates? && book.htlc.Invalid? && !After(book, t, call).htlc.Invalid?
            ==> CountOf(After(book, t, call).sent, Initiate, true) > 0
  {
  }

  lemma CountsSettle(start: Cost, t: Terms, calls: seq<Call>)
    requires ETH in start && t.token in start
    requires PlausibleRun(Book(Invalid, start, []), t, calls) && OnlyWeOpen(Book(Invalid, start, []), t, calls)
    ensures var r := AfterAll(Book(Invalid, start, []), t, calls);
            && Balanced(start, r, t)
            && CountOf(r.sent, Initiate, true) == (if r.htlc.Invalid? then 0 else 1)
            && CountOf(r.sent, Refund, true) <= (if r.htlc.Expired? then 1 else 0)
  {
    AfterAllBalanced(start, Book(Invalid, start, []), t, calls);
    OpenedByUs(Book(Invalid, start, []), t, calls);
  }

  /** What the broker fee comes to on the books: a negative one is never paid in. */
  function BrokerDue(brokerFee: int, funded: bool, refunded: bool): int {
    if !funded then 0
    else if !refunded then PaidIn(brokerFee)
    else if brokerFee > 0 then 0
    else -brokerFee
  }

  /**
   On our own contract, when no submission reverts, a broker fee of zero or more is on the books
   exactly while the contract is funded and not refunded. A negative one is never paid in, but
   a refund still takes it off, which puts its amount on the books.
   */
  lemma BrokerFeeIffFundedAndNotRefunded(start: Cost, t: Terms, calls: seq<Call>)
    requires ETH in start && t.token in start
    requires PlausibleRun(Book(Invalid, start, []), t, calls) && OnlyWeOpen(Book(Invalid, start, []), t, calls)
    ensures var r := AfterAll(Book(Invalid, start, []), t, calls);
            CountOf(r.sent, Initiate, false) == 0 && CountOf(r.sent, Refund, false) == 0 ==>
              && (CountOf(r.sent, Initiate, true) > 0 <==> !r.htlc.Invalid?)
              && var fees := if t.token == ETH then Fees(r.sent) else 0;
                 r.cost[t.token] == start[t.token] + fees
                   + BrokerDue(t.brokerFee, !r.htlc.Invalid?, CountOf(r.sent, Refund, true) > 0)
  {
    CountsSettle(start, t, calls);
  }

  /** Funding again what is already open, and retrying for ever, costs nothing. */
  lemma {:induction false} RepeatedInitiateIsFree(book: Book, t: Terms, calls: seq<Call>)
    requires Ready(book, t) && !book.htlc.Invalid?
    requires forall i | 0 <= i < |calls| :: calls[i].Initiates?
    ensures AfterAll(book, t, calls) == book
    decreases |calls|
  {
    if calls != [] {
      RepeatedInitiateIsFree(book, t, calls[1..]);
    }
  }

  // ---------------------------------------------------------------- what the calls may do

  /** Every funding of an ERC20 contract comes right after its approval; nothing is approved elsewhere. */
  predicate Approved(sent: seq<Entry>, approves: bool) {
    if approves then forall i | 0 <= i < |sent| && sent[i].kind.Initiate? :: i > 0 && sent[i - 1].kind.Approve?
    else forall i | 0 <= i < |sent| :: !sent[i].kind.Approve?
  }

  lemma SentApproved(book: Book, t: Terms, kind: Kind, tx: Tx, h: Htlc)
    requires Ready(book, t) && Approved(book.sent, t.approves)
    requires kind.Initiate? && t.approves ==> book.sent != [] && book.sent[|book.sent| - 1].kind.Approve?
    requires kind.Approve? ==> t.approves
    ensures Approved(Sent(book, t, kind, tx, h).sent, t.approves)
  {
  }

  lemma {:induction false} ApprovalComesFirst(book: Book, t: Terms, calls: seq<Call>)
    requires Ready(book, t) && Approved(book.sent, t.approves)
    ensures Approved(AfterAll(book, t, calls).sent, t.approves)
    decreases |calls|
  {
    if calls != [] {
      match calls[0] {
        case Initiates(approve, tx) =>
          if t.approves {
            SentApproved(book, t, Approve, approve, book.htlc);
          }
          var approved := if t.approves && approve.submitted then Sent(book, t, Approve, approve, book.htlc) else book;
          if !t.approves || approve.submitted {
            SentApproved(approved, t, Initiate, tx, AfterInitiate(book.htlc));
          }
        case Refunds(now, tx) => SentApproved(book, t, Refund, tx, AfterRefund(book.htlc, now, t.timeLock));
        case Redeems(key, tx) => SentApproved(book, t, Redeem, tx, AfterRedeem(book.htlc, key, t.preimage));
        case Others(_) =>
      }
      ApprovalComesFirst(After(book, t, calls[0]), t, calls[1..]);
    }
  }

  /** The counterparty claims with the preimage and refunds nothing of ours early. */
  predicate Honest(t: Terms, call: Call) {
    call.Others? ==> !call.h.Expired? && (call.h.Closed? ==> call.h.secret == t.preimage)
  }

  /**
   However often it is called and with whatever keys and clocks: a binder closes a contract with
   nothing but its preimage, and gives nothing back before the time lock.
   */
  lemma {:induction false} OnlyPreimageCloses(book: Book, t: Terms, calls: seq<Call>)
    requires Ready(book, t) && (book.htlc.Closed? ==> book.htlc.secret == t.preimage)
    requires forall i | 0 <= i < |calls| :: Honest(t, calls[i])
    ensures var r := AfterAll(book, t, calls);
            && (r.htlc.Closed? ==> r.htlc.secret == t.preimage)
            && (r.htlc.Expired? ==> book.htlc.Expired? || exists i | 0 <= i < |calls| :: LateRefund(t, calls[i]))
    decreases |calls|
  {
    if calls != [] {
      var b := After(book, t, calls[0]);
      OnlyPreimageCloses(b, t, calls[1..]);
      assert forall i | 0 <= i < |calls[1..]| :: calls[1..][i] == calls[i + 1];
      assert b.htlc.Expired? ==> book.htlc.Expired? || LateRefund(t, calls[0]);
    }
  }

  /** A refund at or after the time lock. */
  predicate LateRefund(t: Terms, call: Call) {
    call.Refunds? && call.now >= t.timeLock
  }
}
