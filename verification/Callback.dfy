/**
 Asking the broker about a delayed swap, and what becomes of a swap the broker has filled: the
 contracts that are built are those of the fill, within the limits of the offer.
 */
module Callback {
  import opened Common
  import opened Swaps
  import opened Tasks
  import opened TaskSystem
  import opened PriceCheck
  import Binder
  import Decimal

  /** The broker's HTTP answer; a body that is not a swap is None. */
  datatype Reply = Unreachable | Answered(code: int, body: Option<SwapBlob>)

  method DelayCallback(partial: SwapBlob, reply: Reply) returns (answer: Answer)
    ensures answer.FilledIn? <==>
              reply.Answered? && reply.code == 200 && reply.body.Some? && Accepts(partial, reply.body.value)
    ensures answer.FilledIn? ==> answer.terms == reply.body.value.(delay := false)
    ensures answer.Unavailable? <==> reply.Answered? && reply.code == 204
    ensures answer.CancelledSwap? <==> reply.Answered? && reply.code == 410
  {
    match reply
    case Unreachable => return Answer.Broken;
    case Answered(code, body) =>
      if code == 200 {
        if body.None? {
          return Answer.Broken;
        }
        var verified := VerifyDelaySwap(partial, body.value);
        return match verified case Ok(filled) => FilledIn(filled) case Err(_) => Answer.Broken;
      } else if code == 204 {
        return Answer.Unavailable;
      } else if code == 410 {
        return CancelledSwap;
      }
      return Answer.Broken;
  }

  /** What is sent on for a fill: the broker's terms, no longer delayed, with the owner's password put back. */
  function Forwarded(request: SwapBlob, filled: SwapBlob): SwapBlob {
    filled.(delay := false, password := request.password)
  }

  /** The broker keeps the ID and the password hash, and the offer accepts the fill. */
  predicate GoodFill(request: SwapBlob, filled: SwapBlob) {
    && filled.id == request.id && filled.passwordHash == request.passwordHash
    && Accepts(request.(password := ""), filled)
  }

  /** Nothing of what the broker filled in is lost on the way to the immediate swapper. */
  lemma FillIsForwarded(request: SwapBlob, filled: SwapBlob)
    requires GoodFill(request, filled)
    ensures DelayedEffect(request, FilledIn(filled.(delay := false)))
            == Effect(Released,
                      [Receipt(request.id, FilledWith(filled.sendAmount, filled.receiveAmount, filled.timeLock)),
                       Filled(Forwarded(request, filled))])
  {
  }

  /** The parent stores the fill, without the password, in place of the offer, and sends it on to be executed. */
  lemma FillIsStored(s: Sys, request: SwapBlob, filled: SwapBlob)
    requires GoodFill(request, filled)
    ensures var s' := HandleUp(s, Filled(Forwarded(request, filled)), NoFault);
            && s'.pending == s.pending[request.id := filled.(delay := false, password := "")]
            && s'.immediate.queue == s.immediate.queue + [Request(Forwarded(request, filled))]
            && s'.delayed == s.delayed && s'.inbox == s.inbox
  {
  }

  /**
   The contracts built for the forwarded swap are in the tokens and for the amounts the broker
   filled in, with its time lock; they lock no more than was offered and pay no less than the minimum.
   */
  lemma FillIsExecuted(tools: Binder.Tools, request: SwapBlob, filled: SwapBlob)
    requires GoodFill(request, filled)
    requires Binder.BuildComplementarySwaps(tools, Forwarded(request, filled)).Ok?
    ensures var (native, foreign) := Binder.BuildComplementarySwaps(tools, Forwarded(request, filled)).value;
            && native.id == foreign.id == request.id && native.timeLock == foreign.timeLock == filled.timeLock
            && Some(native.token) == tools.patchToken(filled.sendToken)
            && Some(foreign.token) == tools.patchToken(filled.receiveToken)
            && Some(native.value) == Decimal.Parse(filled.sendAmount)
            && Some(foreign.value) == Decimal.Parse(filled.receiveAmount)
            && native.brokerFee == (native.value * filled.brokerFee) / 10000
            && native.spendingAddress == filled.sendTo && foreign.fundingAddress == filled.receiveFrom
            && native.value <= ReadQuote(request).value.send
            && (match Decimal.Parse(request.minimumReceiveAmount)
                case Some(least) => foreign.value >= least
                case None => foreign.value >= 0)
  {
    var sent := Forwarded(request, filled);
    var funding := Binder.AddressOf(tools, sent.password, sent.sendToken).value;
    var spending := Binder.AddressOf(tools, sent.password, sent.receiveToken).value;
    Binder.AgreedTerms(tools, sent, funding, spending);
    MinimumExact(request.(password := ""), filled);
  }
}
