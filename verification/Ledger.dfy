/**
 The on-chain record of one hash-time-locked contract, as the Ethereum binder sees it,
 and the effect of each of its three transactions. A transaction whose precondition
 fails is skipped and reported as success, so every operation below is total.
 */
module Ledger {
  import opened Common

  datatype Htlc = Invalid | Open | Closed(secret: Bytes) | Expired

  predicate Initiatable(h: Htlc) {
    h.Invalid?
  }

  predicate Redeemable(h: Htlc) {
    h.Open?
  }

  predicate Refundable(h: Htlc, now: int, timeLock: int) {
    h.Open? && now >= timeLock
  }

  function AfterInitiate(h: Htlc): Htlc {
    if Initiatable(h) then Open else h
  }

  /** Redeeming never looks at the clock; a key that is not the preimage is rejected. */
  function AfterRedeem(h: Htlc, key: Bytes, preimage: Bytes): Htlc {
    if Redeemable(h) && key == preimage then Closed(key) else h
  }

  function AfterRefund(h: Htlc, now: int, timeLock: int): Htlc {
    if Refundable(h, now, timeLock) then Expired else h
  }

  datatype AuditView = Pending | TimedOut | Passed

  /** What Audit answers when the address and value match. */
  function Audit(h: Htlc, now: int, timeLock: int): AuditView {
    if !Initiatable(h) then Passed
    else if now > timeLock then TimedOut
    else Pending
  }

  /** How a binder's audit ends. */
  datatype AuditResult = AuditOk | AuditWaits | AuditExpired | AuditError

  datatype SecretView = NoSecretYet | SecretTimedOut | Revealed(key: Bytes) | NotRedeemed

  /** What AuditSecret answers: the contract itself rejects a swap that is not closed. */
  function AuditSecret(h: Htlc, now: int, timeLock: int): SecretView {
    match h
    case Open => if now > timeLock then SecretTimedOut else NoSecretYet
    case Closed(key) => Revealed(key)
    case Invalid => NotRedeemed
    case Expired => NotRedeemed
  }

  /** Open, then at most one of Closed and Expired: the only ways a record may change. */
  predicate MayBecome(h: Htlc, h': Htlc) {
    h == h' || h.Invalid? || (h.Open? && (h'.Closed? || h'.Expired?))
  }
}
