/**
 The calls and the bookkeeping of the Bitcoin binder. What the chain client answers is a
 parameter of each call; the transactions it pays with are described by their outputs.
 */
module BtcAccount {
  import opened Common
  import opened Ledger
  import opened Swaps
  import Amounts
  import Costs
  import Decimal
  import ScriptNum

  /** A query about the contract address: it fails, or says yes or no and names an amount. */
  datatype Query = Failed | Answer(yes: bool, amount: int)

  datatype Kind = Initiate | Redeem | Refund

  /** The outputs of a transaction, in satoshi, and its lock time field. */
  datatype Payment = Payment(outputs: seq<int>, lockTime: int)

  function Confirmed(sent: seq<Kind>, kind: Kind): nat {
    if sent == [] then 0
    else Confirmed(sent[..|sent| - 1], kind) + if sent[|sent| - 1] == kind then 1 else 0
  }

  function Sum(outputs: seq<int>): int {
    if outputs == [] then 0 else outputs[0] + Sum(outputs[1..])
  }

  /** No output is too small to be relayed. */
  predicate DustFree(outputs: seq<int>) {
    forall i | 0 <= i < |outputs| :: outputs[i] >= Amounts.DustLimit
  }

  /** What confirmed transactions have cost: the miner fee each, the broker fee in and out. */
  function Spent(sent: seq<Kind>, fee: int, brokerFee: int): int {
    fee * |sent| + brokerFee * (Confirmed(sent, Initiate) - Confirmed(sent, Refund))
  }

  lemma SpentSnoc(sent: seq<Kind>, kind: Kind, fee: int, brokerFee: int)
    ensures Spent(sent + [kind], fee, brokerFee) == Spent(sent, fee, brokerFee) + fee
            + (match kind case Initiate => brokerFee case Redeem => 0 case Refund => -brokerFee)
  {
    assert (sent + [kind])[..|sent|] == sent;
    var n := Confirmed(sent, Initiate) - Confirmed(sent, Refund);
    assert fee * (|sent| + 1) == fee * |sent| + fee;
    assert brokerFee * (n + 1) == brokerFee * n + brokerFee;
    assert brokerFee * (n - 1) == brokerFee * n - brokerFee;
  }

  lemma SumTwo(x: int, y: int)
    ensures Sum([x, y]) == x + y
  {
    assert [x, y][1..] == [y];
    assert [y][1..] == [];
    assert Sum([y]) == y;
  }

  /** The client's answer when `received` satoshi have been paid to the contract address. */
  function Funded(received: int, asked: int): Query {
    Answer(received >= asked, received)
  }

  /** The contract lacks an amount that can be sent. */
  predicate Fundable(value: int, before: Query) {
    before.Answer? && !before.yes && value - before.amount >= Amounts.DustLimit
  }

  function AuditOf(value: int, brokerFee: int, timeLock: int, q: Query, now: int): AuditResult {
    if q.Answer? && q.yes then if q.amount < value - brokerFee then AuditError else AuditOk
    else if now > timeLock then AuditExpired
    else AuditWaits
  }

  /**
   One daemon funds a contract at which `before` satoshi had already arrived, the other audits
   it, on truthful answers: the audit passes exactly when the missing amount was not between 1
   and 599. So little cannot be sent; Initiate reports success, and the contract waits for it
   until it expires.
   */
  lemma ShortfallExact(value: int, brokerFee: int, timeLock: int, before: int, now: int)
    requires brokerFee >= 0
    ensures var arrived := if Fundable(value, Funded(before, value)) then value else before;
            var audit := AuditOf(value, brokerFee, timeLock, Funded(arrived, value), now);
            && (audit.AuditOk? <==> !(0 < value - before < Amounts.DustLimit))
            && (!audit.AuditOk? ==> audit == if now > timeLock then AuditExpired else AuditWaits)
  {
  }

  /** What is left for the claimant of a contract funded for `agreed`, at the default miner fee. */
  function ClaimantsOutput(agreed: int, bips: int): int {
    Amounts.Locked(TokenBTC, agreed, bips) - Amounts.DustBump(Amounts.BrokerFee(agreed, bips))
    - Costs.BlockchainTxFees(Bitcoin)
  }

  /** Every amount the balance check lets through leaves enough to be paid out. */
  ghost predicate AlwaysPaidOut(bips: int) {
    forall agreed, own |
      Amounts.VerifyBalance(TokenBTC, None, own, None, Some(Amounts.WithFees(agreed, bips))).Ok? ::
      ClaimantsOutput(agreed, bips) >= 600
  }

  lemma SmallestAccepted(agreed: int, bips: int)
    ensures Amounts.WithFees(agreed, bips) >= 20000 <==> agreed * (bips + 10000) >= 200000000
  {
  }

  lemma PaidOutBelow(agreed: int, bips: int)
    requires -10000 <= bips <= 8869 && Amounts.WithFees(agreed, bips) >= 20000
    ensures agreed >= 10600
  {
    SmallestAccepted(agreed, bips);
    if agreed < 10600 {
      Costs.MulMono(agreed, 10599, bips + 10000);
    }
  }

  /** An amount that the check lets through and that leaves too little. */
  lemma NotPaidOut(bips: int) returns (agreed: int, own: string)
    requires bips < -10000 || bips > 8869
    ensures Amounts.VerifyBalance(TokenBTC, None, Some(own), None, Some(Amounts.WithFees(agreed, bips))).Ok?
    ensures ClaimantsOutput(agreed, bips) < 600
  {
    agreed := if bips > 8869 then 10599 else -200000000;
    if bips > 8869 {
      Costs.MulMono(18870, bips + 10000, 10599);
    } else {
      Costs.MulMono(1, -(bips + 10000), 200000000);
    }
    SmallestAccepted(agreed, bips);
    own := Decimal.Print(Amounts.WithFees(agreed, bips) + 10600);
    Decimal.ParsePrint(Amounts.WithFees(agreed, bips) + 10600);
  }

  /**
   What is funded for an amount the balance check lets through is always paid out to the
   claimant, at the default miner fee, exactly when the broker takes at most 88.69 percent and does
   not pay out more than the amount.
   */
  lemma AcceptedIsPaidOut(bips: int)
    ensures AlwaysPaidOut(bips) <==> -10000 <= bips <= 8869
  {
    if -10000 <= bips <= 8869 {
      forall agreed, own |
        Amounts.VerifyBalance(TokenBTC, None, own, None, Some(Amounts.WithFees(agreed, bips))).Ok?
        ensures ClaimantsOutput(agreed, bips) >= 600
      {
        PaidOutBelow(agreed, bips);
      }
    } else {
      var agreed, own := NotPaidOut(bips);
    }
  }

  class BtcSwapContract {
    const fee: int
    const brokerFee: int
    /** The locked amount, broker fee included. */
    const value: int
    const timeLock: int
    ghost const start: Cost

    var cost: Cost
    /** The confirmed transactions of this binder, oldest first. */
    ghost var sent: seq<Kind>

    ghost predicate Valid()
      reads this
    {
      && (brokerFee == 0 || brokerFee >= Amounts.DustLimit)
      && BTC in start && cost == start[BTC := start[BTC] + Spent(sent, fee, brokerFee)]
    }

    constructor (agreed: int, brokerFee: int, fee: int, timeLock: int, cost: Cost)
      ensures Valid() && sent == []
      ensures this.fee == fee && this.timeLock == timeLock
      ensures this.brokerFee == Amounts.DustBump(brokerFee) && value == agreed + this.brokerFee
      ensures start == if BTC in cost then cost else cost[BTC := 0]
    {
      var bumped := brokerFee;
      if brokerFee != 0 && brokerFee < Amounts.DustLimit {
        bumped := Amounts.DustLimit;
      }
      var known := cost;
      if BTC !in cost {
        known := known[BTC := 0];
      }
      this.brokerFee, this.value, this.fee, this.timeLock := bumped, agreed + bumped, fee, timeLock;
      this.cost, this.start, this.sent := known, known, [];
      new;
      assert Spent([], fee, bumped) == 0;
    }

    /** Enters a confirmed transaction into the account. */
    method Record(kind: Kind)
      requires Valid()
      modifies this
      ensures Valid() && sent == old(sent) + [kind]
    {
      SpentSnoc(sent, kind, fee, brokerFee);
      cost := cost[BTC := cost[BTC] + fee];
      match kind {
        case Initiate => cost := cost[BTC := cost[BTC] + brokerFee];
        case Redeem =>
        case Refund => cost := cost[BTC := cost[BTC] - brokerFee];
      }
      sent := sent + [kind];
    }

    /**
     Pays in what is missing. `before` and `after` ask whether `value` has arrived; `goes` says
     whether the transaction is built and published. Nothing to pay is a success.
     */
    method Initiate(before: Query, goes: bool, after: Query) returns (ok: bool, paid: Option<Payment>)
      requires Valid()
      modifies this
      ensures Valid() && (paid.Some? <==> Fundable(value, before) && goes)
      ensures paid.Some? ==> paid.value.outputs == [value - before.amount] && DustFree(paid.value.outputs)
      ensures ok <==> !Fundable(value, before) || (goes && after.Answer? && after.yes)
      ensures sent == if Fundable(value, before) && ok then old(sent) + [Kind.Initiate] else old(sent)
    {
      if !before.Answer? || before.yes || value - before.amount < Amounts.DustLimit {
        return true, None;
      }
      if !goes {
        return false, None;
      }
      paid := Some(Payment([value - before.amount], 0));
      ok := after.Answer? && after.yes;
      if ok {
        Record(Kind.Initiate);
      }
    }

    /** A query that fails counts as not funded. */
    method Audit(q: Query, now: int) returns (r: AuditResult)
      ensures r == AuditOf(value, brokerFee, timeLock, q, now)
      ensures r.AuditOk? <==> q.Answer? && q.yes && q.amount >= value - brokerFee
    {
      if q.Answer? && q.yes {
        return if q.amount < value - brokerFee then AuditError else AuditOk;
      }
      return if now > timeLock then AuditExpired else AuditWaits;
    }

    /**
     `before` asks whether the contract has been redeemed, and for how much is in it. It is paid out
     when at least 600 satoshi are left for the claimant. The broker's output is there even when
     there is no broker fee, and is then an output of nothing.
     */
    method Redeem(before: Query, goes: bool, spent: Query) returns (ok: bool, paid: Option<Payment>)
      requires Valid()
      modifies this
      ensures Valid()
      ensures paid.Some? <==> before.Answer? && !before.yes && before.amount - brokerFee - fee >= 600 && goes
      ensures paid.Some? ==> Sum(paid.value.outputs) == before.amount - fee
      ensures paid.Some? ==> (DustFree(paid.value.outputs) <==> brokerFee != 0)
      ensures paid.Some? ==> paid.value.outputs == [brokerFee, before.amount - brokerFee - fee]
      ensures ok <==> (before.Answer? && !before.yes && before.amount - brokerFee - fee >= 600
                       ==> goes && spent.Answer? && spent.yes)
      ensures sent == if paid.Some? && ok then old(sent) + [Kind.Redeem] else old(sent)
    {
      if !before.Answer? || before.yes || before.amount - brokerFee - fee < Amounts.DustLimit {
        return true, None;
      }
      if !goes {
        return false, None;
      }
      paid := Some(Payment([brokerFee, before.amount - brokerFee - fee], 0));
      SumTwo(brokerFee, before.amount - brokerFee - fee);
      ok := spent.Answer? && spent.yes;
      if ok {
        Record(Kind.Redeem);
      }
    }

    /** Pays everything back to the funder, with the contract's lock time cut to 32 bits. */
    method Refund(before: Query, goes: bool, spent: Query) returns (ok: bool, paid: Option<Payment>)
      requires Valid()
      modifies this
      ensures Valid() && (paid.Some? <==> before.Answer? && before.yes && goes)
      ensures paid.Some? ==> paid.value == Payment([before.amount - fee], timeLock % ScriptNum.TwoTo32)
      ensures ok <==> !(before.Answer? && before.yes) || (goes && spent.Answer? && spent.yes)
      ensures sent == if before.Answer? && before.yes && ok then old(sent) + [Kind.Refund] else old(sent)
    {
      if !before.Answer? || !before.yes {
        return true, None;
      }
      if !goes {
        return false, None;
      }
      paid := Some(Payment([before.amount - fee], timeLock % ScriptNum.TwoTo32));
      ok := spent.Answer? && spent.yes;
      if ok {
        Record(Kind.Refund);
      }
    }
  }
}
