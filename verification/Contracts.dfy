/**
 The Ethereum and ERC20 contract binders. They differ only in the ERC20 approval that
 precedes funding and in the token the broker fee is charged in, so one class models both.
 */
module Contracts {
  import opened Common
  import opened Ledger
  import opened Swaps
  import opened CostLedger

  /** What the contract reports about a funded swap. */
  datatype Report = Report(to: string, value: int)

  /** How the read-only queries of one audit go; a query may fail. */
  datatype Queries = Queries(initiatable: bool, report: Option<Report>)

  class HtlcContract {
    const terms: Terms
    const spender: string
    /** The locked amount, broker fee included. */
    const value: int
    ghost const start: Cost

    var htlc: Htlc
    var cost: Cost
    ghost var sent: seq<Entry>

    ghost function State(): Book
      reads this
    {
      Book(htlc, cost, sent)
    }

    /** The recorded cost is what it started from plus everything submitted since. */
    ghost predicate Valid()
      reads this
    {
      Balanced(start, State(), terms)
    }

    constructor (terms: Terms, spender: string, agreed: int, htlc: Htlc, cost: Cost)
      ensures this.terms == terms && this.htlc == htlc && sent == [] && Valid()
      ensures this.spender == spender && value == agreed + terms.brokerFee
      ensures forall k | k in cost :: k in this.cost && this.cost[k] == cost[k]
      ensures forall k | k in this.cost && k !in cost :: this.cost[k] == 0
      ensures start == Opening(cost, terms.token)
    {
      var known := cost;
      if ETH !in known {
        known := known[ETH := 0];
      }
      if terms.token !in known {
        known := known[terms.token := 0];
      }
      this.terms, this.spender, this.value := terms, spender, agreed + terms.brokerFee;
      this.start, this.cost, this.htlc, this.sent := known, known, htlc, [];
    }

    /** What every submitted transaction does to the record, the cost and the history. */
    method Submit(kind: Kind, tx: Tx, h: Htlc)
      requires Valid()
      modifies this
      ensures Valid() && State() == Sent(old(State()), terms, kind, tx, h)
    {
      SentBalanced(start, State(), terms, kind, tx, h);
      ChargesCommute(cost, terms.token, terms.brokerFee, ETH, tx.fee);
      ChargesCommute(Charge(cost, ETH, tx.fee), terms.token, 0, ETH, 0);
      if kind.Initiate? && terms.brokerFee > 0 {
        cost := Charge(cost, terms.token, terms.brokerFee);
      }
      cost := Charge(cost, ETH, tx.fee);
      if kind.Refund? && terms.token in cost {
        cost := Charge(cost, terms.token, -terms.brokerFee);
      }
      sent := sent + [Entry(kind, tx.fee, tx.effect)];
      if tx.effect {
        htlc := h;
      }
    }

    method Initiate(approve: Tx, tx: Tx) returns (ok: bool)
      requires Valid()
      modifies this
      ensures Valid() && State() == After(old(State()), terms, Initiates(approve, tx))
      ensures ok == Succeeds(old(htlc), terms, Initiates(approve, tx))
      ensures !tx.checked ==> (ok <==> !terms.approves)
    {
      if !tx.checked {
        return !terms.approves;
      }
      if !Initiatable(htlc) {
        return true;
      }
      if terms.approves {
        if !approve.submitted {
          return false;
        }
        Submit(Kind.Approve, approve, htlc);
        if approve.failed {
          return false;
        }
      }
      if !tx.submitted {
        return false;
      }
      Submit(Kind.Initiate, tx, Open);
      return !tx.failed;
    }

    method Refund(now: int, tx: Tx) returns (ok: bool)
      requires Valid()
      modifies this
      ensures Valid() && State() == After(old(State()), terms, Refunds(now, tx))
      ensures ok == Succeeds(old(htlc), terms, Refunds(now, tx))
      ensures !tx.checked ==> ok
    {
      if !tx.checked || !Refundable(htlc, now, terms.timeLock) {
        return true;
      }
      if !tx.submitted {
        return false;
      }
      Submit(Kind.Refund, tx, Expired);
      return !tx.failed;
    }

    method Redeem(key: Bytes, tx: Tx) returns (ok: bool)
      requires Valid()
      modifies this
      ensures Valid() && State() == After(old(State()), terms, Redeems(key, tx))
      ensures ok == Succeeds(old(htlc), terms, Redeems(key, tx))
      ensures !tx.checked ==> ok
    {
      if !tx.checked || !Redeemable(htlc) {
        return true;
      }
      if !tx.submitted {
        return false;
      }
      Submit(Kind.Redeem, tx, if key == terms.preimage then Closed(key) else htlc);
      return !tx.failed;
    }

    /** Passing means the swap was funded, for us, with at least the agreed amount. */
    method Audit(now: int, q: Queries) returns (r: AuditResult)
      ensures r.AuditOk? <==>
                && q.initiatable && !htlc.Invalid?
                && q.report.Some? && q.report.value.to == spender
                && q.report.value.value >= value - terms.brokerFee
      ensures r.AuditWaits? <==> q.initiatable && htlc.Invalid? && now <= terms.timeLock
      ensures r.AuditExpired? <==> q.initiatable && htlc.Invalid? && now > terms.timeLock
    {
      if !q.initiatable {
        return AuditError;
      }
      if Initiatable(htlc) {
        return if now > terms.timeLock then AuditExpired else AuditWaits;
      }
      if q.report.None? {
        return AuditError;
      }
      if q.report.value.to != spender {
        return AuditError;
      }
      if q.report.value.value < value - terms.brokerFee {
        return AuditError;
      }
      return AuditOk;
    }

    /** A secret is returned exactly when the contract has been claimed with it. */
    method AuditSecret(now: int, redeemable: bool, secret: bool) returns (r: Result<Bytes, AuditResult>)
      ensures r.Ok? <==> redeemable && secret && htlc.Closed?
      ensures r.Ok? ==> htlc == Closed(r.value)
      ensures r == Err(AuditWaits) <==> redeemable && htlc.Open? && now <= terms.timeLock
      ensures r == Err(AuditExpired) <==> redeemable && htlc.Open? && now > terms.timeLock
      ensures r != Err(AuditOk)
    {
      if !redeemable {
        return Err(AuditError);
      }
      if Redeemable(htlc) {
        return Err(if now > terms.timeLock then AuditExpired else AuditWaits);
      }
      if !secret {
        return Err(AuditError);
      }
      match htlc
      case Closed(key) => return Ok(key);
      case _ => return Err(AuditError);
    }
  }
}
