/**
 The request handler: it completes and checks a posted swap, answers with the swap the
 counterparty has to post, and bootloads a password before its first swap.
 */
module Handler {
  import opened Common
  import opened Swaps
  import opened Amounts
  import opened Binder
  import Costs
  import Decimal
  import Passes
  import PriceCheck
  import Tasks
  import TaskSystem
  import Recovery
  import Script
  import HtlcScript
  import BtcContract
  import Spending
  import ScriptNum

  const ExpiryUnit := 2 * 60 * 60

  /**
   What the handler calls besides the binder's tools; `dgxEntry` is what the shared table of
   transaction costs holds for DGX at the time.
   */
  datatype Host = Host(
    tools: Tools,
    encode: Bytes -> string, sha256: Bytes -> Bytes, sha3: string -> Bytes,
    balance: (string, Token) -> Option<string>, dgxEntry: Option<int>)

  /** Encoding is undone by decoding, and both hashes are 32 bytes long. */
  ghost predicate Sane(h: Host) {
    && (forall b :: h.tools.decode(h.encode(b)) == Some(b))
    && (forall b :: |h.sha256(b)| == 32) && (forall s :: |h.sha3(s)| == 32)
  }

  datatype PostError =
    | BadToken | BadAddress | BadAmount | BadBalance | BadSecretHash | TooLate | NoDelayUrl
    | CannotAnswer | NotSigned | NotDelivered

  predicate VerifySendAmount(h: Host, password: string, token: Token, amount: string, bips: int) {
    && Decimal.Parse(amount).Some?
    && VerifyBalance(token, h.dgxEntry, h.balance(password, token), h.balance(password, TokenETH),
                     Some(WithFees(Decimal.Parse(amount).value, bips))).Ok?
  }

  predicate VerifyReceiveAmount(h: Host, password: string, token: Token) {
    VerifyBalance(token, h.dgxEntry, h.balance(password, token), h.balance(password, TokenETH), None).Ok?
  }

  function SecretHashOf(h: Host, password: string, id: SwapID): string {
    h.encode(h.sha256(Passes.Secret(h.sha3, password, id)))
  }

  /** The checks that do not depend on the clock, in the order they are made. */
  function CheckSwap(h: Host, blob: SwapBlob): Option<PostError> {
    match h.tools.patchToken(blob.sendToken)
    case None => Some(BadToken)
    case Some(send) =>
      if !h.tools.verifyAddress(send.blockchain, blob.sendTo) then Some(BadAddress)
      else
        match h.tools.patchToken(blob.receiveToken)
        case None => Some(BadToken)
        case Some(receive) =>
          if !h.tools.verifyAddress(receive.blockchain, blob.receiveFrom) then Some(BadAddress)
          else if blob.withdrawAddress != "" && !h.tools.verifyAddress(receive.blockchain, blob.withdrawAddress)
          then Some(BadAddress)
          else if !VerifySendAmount(h, blob.password, send, blob.sendAmount, blob.brokerFee) then Some(BadBalance)
          else if !VerifyReceiveAmount(h, blob.password, receive) then Some(BadBalance)
          else None
  }

  /** An initiator's blob gets its own hash and time lock; a responder's must leave enough time. */
  function PatchSwap(h: Host, request: SwapBlob, id: SwapID, now: int): Result<SwapBlob, PostError> {
    match CheckSwap(h, request)
    case Some(e) => Err(e)
    case None =>
      var blob := request.(id := id);
      if blob.shouldInitiateFirst then
        Ok(blob.(timeLock := now + 3 * ExpiryUnit, secretHash := SecretHashOf(h, blob.password, id)))
      else if UnmarshalSecretHash(h.tools, blob.secretHash).None? then Err(BadSecretHash)
      else if now + 2 * ExpiryUnit > blob.timeLock then Err(TooLate)
      else Ok(blob)
  }

  function PatchDelayedSwap(h: Host, request: SwapBlob, id: SwapID, now: int): Result<SwapBlob, PostError> {
    if request.delayCallbackUrl == "" then Err(NoDelayUrl)
    else
      match h.tools.patchToken(request.sendToken)
      case None => Err(BadToken)
      case Some(send) =>
        if !VerifySendAmount(h, request.password, send, request.sendAmount, request.brokerFee) then Err(BadBalance)
        else
          match h.tools.patchToken(request.receiveToken)
          case None => Err(BadToken)
          case Some(receive) =>
            if !VerifyReceiveAmount(h, request.password, receive) then Err(BadBalance)
            else Ok(request.(id := id, timeLock := now + 3 * ExpiryUnit,
                             secretHash := SecretHashOf(h, request.password, id)))
  }

  /** The wallet has the gas that claiming on the receiving chain takes, which on Bitcoin is none. */
  predicate CanClaim(h: Host, password: string, token: Token) {
    token.blockchain.Bitcoin?
    || Shows(h.balance(password, if token.blockchain.Ethereum? then token else TokenETH), 12000000000000000)
  }

  /** The amount can be read, and with the broker's share it passes the wallet's check. */
  predicate CanSend(h: Host, password: string, token: Token, amount: string, bips: int) {
    match Decimal.Parse(amount)
    case None => false
    case Some(n) =>
      var own, need := h.balance(password, token), n + (n * bips) / 10000;
      match token.blockchain
      case Bitcoin => need >= 20000 && Shows(own, need + 10600)
      case Ethereum => Shows(own, need + 12000000000000000)
      case Erc20 =>
        && Shows(own, need + TableFee(token, h.dgxEntry))
        && Shows(h.balance(password, TokenETH), 12000000000000000)
  }

  lemma WalletChecks(h: Host, password: string, token: Token, amount: string, bips: int)
    ensures VerifySendAmount(h, password, token, amount, bips) <==> CanSend(h, password, token, amount, bips)
    ensures VerifyReceiveAmount(h, password, token) <==> CanClaim(h, password, token)
  {
    if Decimal.Parse(amount).Some? {
      WithFeesIsValuePlusBrokerFee(Decimal.Parse(amount).value, bips);
    }
  }

  /** Both tokens are known, and the wallet can pay on the one chain and claim on the other. */
  predicate Affordable(h: Host, request: SwapBlob) {
    var send, receive := h.tools.patchToken(request.sendToken), h.tools.patchToken(request.receiveToken);
    && send.Some? && receive.Some?
    && CanSend(h, request.password, send.value, request.sendAmount, request.brokerFee)
    && CanClaim(h, request.password, receive.value)
  }

  /** The addresses a swap names are addresses on the chains they are for. */
  predicate WellAddressed(h: Host, request: SwapBlob) {
    var send, receive := h.tools.patchToken(request.sendToken), h.tools.patchToken(request.receiveToken);
    && send.Some? && receive.Some?
    && h.tools.verifyAddress(send.value.blockchain, request.sendTo)
    && h.tools.verifyAddress(receive.value.blockchain, request.receiveFrom)
    && (request.withdrawAddress == "" || h.tools.verifyAddress(receive.value.blockchain, request.withdrawAddress))
  }

  /** Two blobs differ in ID, time lock and hash at most. */
  predicate SameOtherwise(b: SwapBlob, c: SwapBlob) {
    b.(id := c.id, timeLock := c.timeLock, secretHash := c.secretHash) == c
  }

  /**
   Exactly which swaps are accepted: well addressed and affordable ones, a responder's only with
   a readable hash and two units of time left. Nothing but ID, time lock and hash is set.
   */
  lemma AcceptedExact(h: Host, request: SwapBlob, id: SwapID, now: int)
    ensures PatchSwap(h, request, id, now).Ok? <==>
              && WellAddressed(h, request) && Affordable(h, request)
              && (request.shouldInitiateFirst
                  || (UnmarshalSecretHash(h.tools, request.secretHash).Some? && request.timeLock >= now + 4 * 60 * 60))
    ensures PatchSwap(h, request, id, now).Ok? ==>
              var blob := PatchSwap(h, request, id, now).value;
              && blob.id == id && SameOtherwise(request, blob)
              && (!request.shouldInitiateFirst ==> blob == request.(id := id))
    ensures PatchSwap(h, request, id, now) == Err(TooLate) <==>
              && WellAddressed(h, request) && Affordable(h, request)
              && !request.shouldInitiateFirst && UnmarshalSecretHash(h.tools, request.secretHash).Some?
              && request.timeLock < now + 4 * 60 * 60
    ensures PatchSwap(h, request, id, now) == Err(BadBalance) <==> WellAddressed(h, request) && !Affordable(h, request)
  {
    CheckExact(h, request);
  }

  /** Which check fails first decides the error. */
  lemma CheckExact(h: Host, request: SwapBlob)
    ensures CheckSwap(h, request).None? <==> WellAddressed(h, request) && Affordable(h, request)
    ensures CheckSwap(h, request) == Some(BadBalance) <==> WellAddressed(h, request) && !Affordable(h, request)
    ensures h.tools.patchToken(request.sendToken).None? ==> CheckSwap(h, request) == Some(BadToken)
    ensures h.tools.patchToken(request.sendToken).Some? && h.tools.patchToken(request.receiveToken).Some? ==>
              (CheckSwap(h, request) == Some(BadAddress) <==> !WellAddressed(h, request))
  {
    var send, receive := h.tools.patchToken(request.sendToken), h.tools.patchToken(request.receiveToken);
    if send.Some? && receive.Some? {
      WalletChecks(h, request.password, send.value, request.sendAmount, request.brokerFee);
      WalletChecks(h, request.password, receive.value, request.sendAmount, request.brokerFee);
    }
  }

  /** A delayed swap needs a URL to ask at and no addresses; the broker is still to name them. */
  lemma DelayedAcceptedExact(h: Host, request: SwapBlob, id: SwapID, now: int)
    ensures PatchDelayedSwap(h, request, id, now).Ok? <==> request.delayCallbackUrl != "" && Affordable(h, request)
    ensures PatchDelayedSwap(h, request, id, now).Ok? ==>
              var blob := PatchDelayedSwap(h, request, id, now).value;
              blob.id == id && SameOtherwise(request, blob)
  {
    var send, receive := h.tools.patchToken(request.sendToken), h.tools.patchToken(request.receiveToken);
    if send.Some? && receive.Some? {
      WalletChecks(h, request.password, send.value, request.sendAmount, request.brokerFee);
      WalletChecks(h, request.password, receive.value, request.sendAmount, request.brokerFee);
    }
  }

  /** The swap the counterparty has to post, seen from its side. */
  function BuildSwapResponse(h: Host, blob: SwapBlob): Result<SwapBlob, PostError> {
    match AddressOf(h.tools, blob.password, blob.receiveToken)
    case Err(_) => Err(CannotAnswer)
    case Ok(sendTo) =>
      match AddressOf(h.tools, blob.password, blob.sendToken)
      case Err(_) => Err(CannotAnswer)
      case Ok(receiveFrom) =>
        Ok(if blob.shouldInitiateFirst then
             EmptyBlob.(
               sendToken := blob.receiveToken, receiveToken := blob.sendToken,
               sendAmount := blob.receiveAmount, receiveAmount := blob.sendAmount,
               sendTo := sendTo, receiveFrom := receiveFrom,
               secretHash := blob.secretHash, timeLock := blob.timeLock,
               brokerFee := blob.brokerFee,
               brokerSendTokenAddr := blob.brokerReceiveTokenAddr, brokerReceiveTokenAddr := blob.brokerSendTokenAddr)
           else EmptyBlob)
  }

  /** There is a response exactly when the wallet has both addresses, and only an initiator's names a swap. */
  lemma AnswerExact(h: Host, blob: SwapBlob)
    ensures BuildSwapResponse(h, blob).Ok? <==>
              AddressOf(h.tools, blob.password, blob.sendToken).Ok?
              && AddressOf(h.tools, blob.password, blob.receiveToken).Ok?
    ensures BuildSwapResponse(h, blob).Ok? ==>
              var response := BuildSwapResponse(h, blob).value;
              if blob.shouldInitiateFirst then
                AddressOf(h.tools, blob.password, blob.receiveToken) == Ok(response.sendTo)
                && AddressOf(h.tools, blob.password, blob.sendToken) == Ok(response.receiveFrom)
              else response == EmptyBlob
  {
  }

  // ---------------------------------------------------------------- mirror

  /** What the counterparty may not change about a response it posts; fees, password and withdrawal are its own. */
  predicate SameDeal(b: SwapBlob, c: SwapBlob) {
    && b.sendToken == c.sendToken && b.receiveToken == c.receiveToken
    && b.sendAmount == c.sendAmount && b.receiveAmount == c.receiveAmount
    && b.sendTo == c.sendTo && b.receiveFrom == c.receiveFrom
    && b.secretHash == c.secretHash && b.timeLock == c.timeLock && b.brokerFee == c.brokerFee
    && b.brokerSendTokenAddr == c.brokerSendTokenAddr && b.brokerReceiveTokenAddr == c.brokerReceiveTokenAddr
    && b.shouldInitiateFirst == c.shouldInitiateFirst
  }

  /** Two daemons on the same networks. */
  ghost predicate SameNetwork(h: Host, k: Host) {
    && (forall s :: h.tools.patchToken(s) == k.tools.patchToken(s) && h.tools.decode(s) == k.tools.decode(s))
    && (forall chain, s :: h.tools.verifyAddress(chain, s) == k.tools.verifyAddress(chain, s))
  }

  /** `blob` is an initiator's swap, and `posted` is the response to it as the responder posts it. */
  predicate Answers(h: Host, blob: SwapBlob, posted: SwapBlob) {
    && blob.shouldInitiateFirst && BuildSwapResponse(h, blob).Ok?
    && SameDeal(posted, BuildSwapResponse(h, blob).value)
  }

  /** The addresses the initiator named are the responder's own. */
  predicate OwnAddresses(k: Host, blob: SwapBlob, posted: SwapBlob) {
    && AddressOf(k.tools, posted.password, blob.sendToken) == Ok(blob.sendTo)
    && AddressOf(k.tools, posted.password, blob.receiveToken) == Ok(blob.receiveFrom)
  }

  /** Whenever one daemon can build its two contracts, so can the other, wallet permitting. */
  lemma BothCanBuild(h: Host, k: Host, blob: SwapBlob, posted: SwapBlob)
    requires SameNetwork(h, k) && Answers(h, blob, posted)
    ensures BuildComplementarySwaps(k.tools, posted).Ok? <==>
            && BuildComplementarySwaps(h.tools, blob).Ok?
            && AddressOf(k.tools, posted.password, blob.sendToken).Ok?
            && AddressOf(k.tools, posted.password, blob.receiveToken).Ok?
  {
  }

  /**
   The two daemons mean the same two contracts, each one's native the other's foreign,
   exactly when the addresses in the initiator's blob are the responder's own.
   */
  lemma Mirror(h: Host, k: Host, blob: SwapBlob, posted: SwapBlob)
    requires SameNetwork(h, k) && Answers(h, blob, posted)
    requires BuildComplementarySwaps(h.tools, blob).Ok? && BuildComplementarySwaps(k.tools, posted).Ok?
    ensures var (native, foreign) := BuildComplementarySwaps(h.tools, blob).value;
            var (native', foreign') := BuildComplementarySwaps(k.tools, posted).value;
            SameContract(native', foreign) && SameContract(foreign', native) <==> OwnAddresses(k, blob, posted)
  {
    var sends := h.tools.patchToken(blob.sendToken).value;
    var receives := h.tools.patchToken(blob.receiveToken).value;
    assert AddressOf(h.tools, blob.password, blob.sendToken).Ok?
      && AddressOf(h.tools, blob.password, blob.receiveToken).Ok?;
    assert posted.sendToken == blob.receiveToken && posted.receiveToken == blob.sendToken;
  }

  /** So both sides derive the same script for each Bitcoin contract of the swap. */
  lemma MirrorScripts(h: Host, k: Host, blob: SwapBlob, posted: SwapBlob, pkh: string -> Option<Bytes>)
    requires SameNetwork(h, k) && Answers(h, blob, posted) && OwnAddresses(k, blob, posted)
    requires BuildComplementarySwaps(h.tools, blob).Ok? && BuildComplementarySwaps(k.tools, posted).Ok?
    ensures var (native, foreign) := BuildComplementarySwaps(h.tools, blob).value;
            var (native', foreign') := BuildComplementarySwaps(k.tools, posted).value;
            ScriptTerms(pkh, native') == ScriptTerms(pkh, foreign)
              && ScriptTerms(pkh, foreign') == ScriptTerms(pkh, native)
  {
    Mirror(h, k, blob, posted);
  }

  // ---------------------------------------------------------------- secrets

  /** The hash in both contracts of a patched swap is that of the secret a pass derives; it has three units of time. */
  lemma PatchedHash(h: Host, request: SwapBlob, id: SwapID, now: int)
    requires Sane(h)
    ensures request.shouldInitiateFirst && PatchSwap(h, request, id, now).Ok? ==>
              Fresh(h, PatchSwap(h, request, id, now).value, now)
    ensures PatchDelayedSwap(h, request, id, now).Ok? ==> Fresh(h, PatchDelayedSwap(h, request, id, now).value, now)
  {
    var hash := h.sha256(Passes.Secret(h.sha3, request.password, id));
    assert h.tools.decode(h.encode(hash)) == Some(hash);
  }

  predicate Fresh(h: Host, blob: SwapBlob, now: int) {
    && UnmarshalSecretHash(h.tools, blob.secretHash) == Some(h.sha256(Passes.Secret(h.sha3, blob.password, blob.id)))
    && blob.timeLock == now + 6 * 60 * 60
  }

  /**
   End to end: with the secret it derives from its password and the swap's ID, the initiator
   can claim the Bitcoin contract the responder builds from the response.
   */
  lemma InitiatorCanClaim(h: Host, k: Host, request: SwapBlob, id: SwapID, now: int, posted: SwapBlob,
                          pkh: string -> Option<Bytes>, ctx: Script.Context, sig: Bytes, pubkey: Bytes)
    requires Sane(h) && SameNetwork(h, k)
    requires request.shouldInitiateFirst && PatchSwap(h, request, id, now).Ok?
    requires Answers(h, PatchSwap(h, request, id, now).value, posted)
    requires BuildComplementarySwaps(k.tools, posted).Ok?
    requires Encodable(pkh, BuildComplementarySwaps(k.tools, posted).value.0)
    requires ctx.sha256 == h.sha256 && ctx.lockTime < ScriptNum.TwoTo32
    requires BtcContract.Small(sig) && BtcContract.Small(pubkey)
    requires ctx.checkSig(HtlcScript.Pushed(sig), HtlcScript.Pushed(pubkey))
    requires AddressOf(h.tools, request.password, request.receiveToken).Ok?
    requires pkh(AddressOf(h.tools, request.password, request.receiveToken).value)
        == Some(ctx.hash160(HtlcScript.Pushed(pubkey)))
    ensures var t := ScriptTerms(pkh, BuildComplementarySwaps(k.tools, posted).value.0).value;
            && BtcContract.Small(BtcContract.ContractScript(t))
            && Spending.SpendsContract(ctx, t, BtcContract.RedeemInput(
                 BtcContract.ContractScript(t), sig, pubkey, Passes.Secret(h.sha3, request.password, id)))
  {
    PatchedHash(h, request, id, now);
    var native := BuildComplementarySwaps(k.tools, posted).value.0;
    assert native.spendingAddress == posted.sendTo
      && native.secretHash == h.sha256(Passes.Secret(h.sha3, request.password, id));
    Spending.RedeemInputExact(ctx, ScriptTerms(pkh, native).value, sig, pubkey,
      Passes.Secret(h.sha3, request.password, id));
  }

  // ---------------------------------------------------------------- enough time

  /**
   A response is accepted exactly when the responder's own checks pass and it arrives within
   one expiry unit of the initiator's request.
   */
  lemma ResponseWindow(h: Host, k: Host, request: SwapBlob, id: SwapID, now: int, posted: SwapBlob, id': SwapID,
      now': int)
    requires Sane(h) && SameNetwork(h, k)
    requires request.shouldInitiateFirst && PatchSwap(h, request, id, now).Ok?
    requires Answers(h, PatchSwap(h, request, id, now).value, posted)
    ensures PatchSwap(k, posted, id', now').Ok? <==> CheckSwap(k, posted).None? && now' <= now + ExpiryUnit
  {
    PatchedHash(h, request, id, now);
  }

  // ---------------------------------------------------------------- solvency

  /** The wallet can pay what a swap of `amount` locks, transaction included. */
  predicate CanPay(h: Host, password: string, token: Token, amount: int, bips: int) {
    Covers(token, h.balance(password, token), h.balance(password, TokenETH), Locked(token, amount, bips))
  }

  /**
   An accepted swap names valid addresses on the right chains, and the wallet covers what it
   will lock wherever the balance check can be trusted.
   */
  lemma AcceptedSwapIsCovered(h: Host, request: SwapBlob, id: SwapID, now: int)
    requires PatchSwap(h, request, id, now).Ok?
    ensures var send := h.tools.patchToken(request.sendToken).value;
            var receive := h.tools.patchToken(request.receiveToken).value;
            var amount := Decimal.Parse(request.sendAmount).value;
            && h.tools.verifyAddress(send.blockchain, request.sendTo)
            && h.tools.verifyAddress(receive.blockchain, request.receiveFrom)
            && (request.withdrawAddress != "" ==> h.tools.verifyAddress(receive.blockchain, request.withdrawAddress))
            && (Trustworthy(send, h.dgxEntry, amount, request.brokerFee)
                ==> CanPay(h, request.password, send, amount, request.brokerFee))
  {
    var send := h.tools.patchToken(request.sendToken).value;
    var amount := Decimal.Parse(request.sendAmount).value;
    if Trustworthy(send, h.dgxEntry, amount, request.brokerFee) {
      Solvency(send, h.dgxEntry, h.balance(request.password, send), h.balance(request.password, TokenETH),
               amount, request.brokerFee, amount);
    }
  }

  /**
   The balance checked when a delayed swap is posted covers the contract built from whatever the
   broker later fills it with, as long as the fill passes the price check, names the same token,
   keeps a broker fee that does not exceed the amount itself, and is one whose own check could be
   trusted.
   */
  lemma AcceptedFillIsCovered(h: Host, request: SwapBlob, id: SwapID, now: int, filled: SwapBlob, funding: string)
    requires PatchDelayedSwap(h, request, id, now).Ok?
    requires PriceCheck.Accepts(PatchDelayedSwap(h, request, id, now).value, filled)
    requires filled.brokerFee == request.brokerFee >= -10000
    requires BuildNativeSwap(h.tools, filled, funding).Ok?
    ensures var native := BuildNativeSwap(h.tools, filled, funding).value;
            Some(native.token) == h.tools.patchToken(request.sendToken)
            && Trustworthy(native.token, h.dgxEntry, native.value, filled.brokerFee)
            ==> CanPay(h, request.password, native.token, native.value, filled.brokerFee)
  {
    var native := BuildNativeSwap(h.tools, filled, funding).value;
    WithFeesMonotone(native.value, Decimal.Parse(request.sendAmount).value, request.brokerFee);
    if Some(native.token) == h.tools.patchToken(request.sendToken)
       && Trustworthy(native.token, h.dgxEntry, native.value, filled.brokerFee) {
      Solvency(native.token, h.dgxEntry, h.balance(request.password, native.token),
        h.balance(request.password, TokenETH), Decimal.Parse(request.sendAmount).value, request.brokerFee,
        native.value);
    }
  }

  /** A wallet with bitcoins and just enough ether for a transaction, on a host that knows the two tokens. */
  const BitcoinHost := Host(
    Tools((name: string) => if name == ETH then Some(TokenETH) else Some(TokenBTC),
          (password: string, chain: Blockchain) => Some(""),
          (chain: Blockchain, address: string) => true,
          (text: string) => Some(Zeros)),
    (b: Bytes) => "", (b: Bytes) => Zeros, (s: string) => Zeros,
    (password: string, token: Token) => JustAsked(TokenBTC, 30600)(token), None)

  const Zeros: Bytes := seq(32, i => 0)

  const Offer := EmptyBlob.(
    sendToken := BTC, receiveToken := ETH, sendAmount := Decimal.Print(20000), receiveAmount := Decimal.Print(1),
    delay := true, delayCallbackUrl := "url")

  lemma OfferBalances()
    ensures PassesCheck(TokenBTC, None, JustAsked(TokenBTC, 30600), 20000, 0)
    ensures !Pays(TokenETH, JustAsked(TokenBTC, 30600), 20000, 0)
  {
    assert WithFees(20000, 0) == 20000 && BrokerFee(20000, 0) == 0;
    AskedAlone(TokenBTC, TokenETH, None, 20000, 20000, 0);
  }

  lemma OfferIsPosted()
    ensures PatchDelayedSwap(BitcoinHost, Offer, "", 0) == Ok(Offer.(timeLock := 3 * ExpiryUnit))
  {
    var h := BitcoinHost;
    Decimal.ParsePrint(20000);
    OfferBalances();
    assert VerifySendAmount(h, "", TokenBTC, Offer.sendAmount, 0) by {
      assert h.balance("", TokenBTC) == JustAsked(TokenBTC, 30600)(TokenBTC);
      assert h.balance("", TokenETH) == JustAsked(TokenBTC, 30600)(TokenETH);
    }
    assert VerifyReceiveAmount(h, "", TokenETH) by {
      Decimal.ParsePrint(Costs.EthereumTransactionCost);
    }
  }

  lemma OfferIsFilled()
    ensures PriceCheck.Accepts(Offer.(timeLock := 3 * ExpiryUnit), Offer.(sendToken := ETH))
  {
    Decimal.ParsePrint(20000);
    Decimal.ParsePrint(1);
  }

  lemma FillIsBuilt()
    ensures var native := BuildNativeSwap(BitcoinHost.tools, Offer.(sendToken := ETH), "");
            native.Ok? && native.value.token == TokenETH && native.value.value == 20000
  {
    Decimal.ParsePrint(20000);
  }

  /**
   The price check compares amounts and not tokens: an offer of 20000 satoshi is filled with as
   much of the smallest unit of ether, the fill is accepted, and the wallet cannot pay for it.
   */
  lemma FillInAnotherToken()
    ensures PatchDelayedSwap(BitcoinHost, Offer, "", 0).Ok?
    ensures PriceCheck.Accepts(PatchDelayedSwap(BitcoinHost, Offer, "", 0).value, Offer.(sendToken := ETH))
    ensures var native := BuildNativeSwap(BitcoinHost.tools, Offer.(sendToken := ETH), "");
            && native.Ok? && native.value.token == TokenETH
            && !CanPay(BitcoinHost, "", TokenETH, native.value.value, 0)
  {
    OfferIsPosted();
    OfferIsFilled();
    FillIsBuilt();
    OfferBalances();
    assert BitcoinHost.balance("", TokenETH) == JustAsked(TokenBTC, 30600)(TokenETH);
  }

  // ---------------------------------------------------------------- bootload before the first swap

  predicate BootedBefore(outbox: seq<Tasks.In>, i: nat)
    requires i < |outbox|
  {
    outbox[i].Submit? ==> Tasks.Boot(outbox[i].blob.password) in outbox[..i]
  }

  /** Every swap handed on comes after the bootload of its password. */
  predicate BootsFirst(outbox: seq<Tasks.In>) {
    forall i | 0 <= i < |outbox| :: BootedBefore(outbox, i)
  }

  /** No password is bootloaded twice. */
  predicate BootsOnce(outbox: seq<Tasks.In>) {
    forall i | 0 <= i < |outbox| && outbox[i].Boot? :: outbox[i] !in outbox[..i]
  }

  function HashOf(h: Host, password: string): string {
    h.encode(h.sha3(password))
  }

  predicate BootWith(h: Host, outbox: seq<Tasks.In>, hash: string) {
    exists i | 0 <= i < |outbox| :: outbox[i].Boot? && HashOf(h, outbox[i].password) == hash
  }

  lemma BootWithKept(h: Host, outbox: seq<Tasks.In>, msg: Tasks.In, hash: string)
    ensures BootWith(h, outbox + [msg], hash)
        <==> BootWith(h, outbox, hash) || (msg.Boot? && HashOf(h, msg.password) == hash)
  {
    var all := outbox + [msg];
    assert all[|outbox|] == msg;
    if BootWith(h, outbox, hash) {
      var i :| 0 <= i < |outbox| && outbox[i].Boot? && HashOf(h, outbox[i].password) == hash;
      assert all[i] == outbox[i];
    }
  }

  /** The bootloads in the outbox all have different password hashes. */
  predicate HashesOnce(h: Host, outbox: seq<Tasks.In>) {
    forall i, j | 0 <= i < j < |outbox| && outbox[i].Boot? && outbox[j].Boot? ::
      HashOf(h, outbox[i].password) != HashOf(h, outbox[j].password)
  }

  /** No other bootloaded password has the SHA-3 hash of this one. */
  predicate Unmistakable(h: Host, outbox: seq<Tasks.In>, password: string) {
    forall i | 0 <= i < |outbox| && outbox[i].Boot? && h.sha3(outbox[i].password) == h.sha3(password) ::
      outbox[i].password == password
  }

  /** Passwords are told apart by their hashes: encoded, two hashes are the same exactly when they were. */
  lemma HashOfExact(h: Host, password: string, password': string)
    requires Sane(h)
    ensures HashOf(h, password) == HashOf(h, password') <==> h.sha3(password) == h.sha3(password')
  {
    assert h.tools.decode(h.encode(h.sha3(password))) == Some(h.sha3(password));
    assert h.tools.decode(h.encode(h.sha3(password'))) == Some(h.sha3(password'));
  }

  class RequestHandler {
    const host: Host
    /** Keyed by the hash of the password. */
    var bootloaded: map<string, bool>
    /** What has been handed to the swapper since the process started. */
    var outbox: seq<Tasks.In>

    function PasswordHash(password: string): string {
      HashOf(host, password)
    }

    /** The map knows exactly the hashes of the passwords whose bootload was delivered, each of them once. */
    ghost predicate Valid()
      reads this
    {
      && HashesOnce(host, outbox)
      && forall hash :: hash in bootloaded && bootloaded[hash] <==> BootWith(host, outbox, hash)
    }

    predicate Known(password: string)
      reads this
    {
      PasswordHash(password) in bootloaded && bootloaded[PasswordHash(password)]
    }

    constructor (host: Host)
      ensures Valid() && this.host == host && outbox == []
    {
      this.host, bootloaded, outbox := host, map[], [];
    }

    /** No password is bootloaded twice; and one that shares its hash with no other is known exactly when it was. */
    lemma KnownExact(password: string)
      requires Valid()
      ensures BootsOnce(outbox)
      ensures Sane(host) && Unmistakable(host, outbox, password)
              ==> (Known(password) <==> Tasks.Boot(password) in outbox)
    {
      if Sane(host) {
        forall i | 0 <= i < |outbox| && outbox[i].Boot?
          ensures HashOf(host, outbox[i].password) == PasswordHash(password)
                  <==> host.sha3(outbox[i].password) == host.sha3(password)
        {
          HashOfExact(host, outbox[i].password, password);
        }
      }
      if Tasks.Boot(password) in outbox {
        var i :| 0 <= i < |outbox| && outbox[i] == Tasks.Boot(password);
        assert BootWith(host, outbox, PasswordHash(password));
      }
    }

    method Deliver(msg: Tasks.In, fails: bool) returns (ok: bool)
      modifies this`outbox
      ensures ok == !fails
      ensures outbox == if ok then old(outbox) + [msg] else old(outbox)
      ensures old(Valid()) && msg.Submit? ==> Valid()
    {
      ok := !fails;
      if ok {
        forall hash
          ensures BootWith(host, outbox + [msg], hash)
              <==> BootWith(host, outbox, hash) || (msg.Boot? && HashOf(host, msg.password) == hash) {
          BootWithKept(host, outbox, msg, hash);
        }
        outbox := outbox + [msg];
      }
    }

    /** Only the first call for a password that gets through sends anything. */
    method Bootload(password: string, fails: bool)
      requires Valid()
      modifies this
      ensures Valid()
      ensures outbox == if old(Known(password)) || fails then old(outbox) else old(outbox) + [Tasks.Boot(password)]
    {
      if PasswordHash(password) !in bootloaded || !bootloaded[PasswordHash(password)] {
        ghost var before := outbox;
        var ok := Deliver(Tasks.Boot(password), fails);
        if !ok {
          return;
        }
        bootloaded := bootloaded[PasswordHash(password) := true];
        forall hash
          ensures BootWith(host, outbox, hash) <==> BootWith(host, before, hash) || PasswordHash(password) == hash {
          BootWithKept(host, before, Tasks.Boot(password), hash);
        }
      }
    }

    /**
     A request without an acceptable swap hands nothing on but its bootload. The swap follows
     its bootload unless that one delivery failed, which the handler does not notice.
     */
    method PostSwaps(request: SwapBlob, id: SwapID, now: int, bootFails: bool, swapFails: bool)
      returns (r: Result<SwapBlob, PostError>)
      requires Valid()
      modifies this
      ensures Valid()
      ensures PatchSwap(host, request, id, now).Err? ==> r == Err(PatchSwap(host, request, id, now).error)
      ensures PatchSwap(host, request, id, now).Ok? && swapFails ==> r == Err(NotDelivered)
      ensures PatchSwap(host, request, id, now).Ok? && !swapFails
          ==> r == BuildSwapResponse(host, PatchSwap(host, request, id, now).value)
      ensures outbox == old(outbox)
              + (if old(Known(request.password)) || bootFails then [] else [Tasks.Boot(request.password)])
              + (if PatchSwap(host, request, id, now).Err? || swapFails then []
                 else [Tasks.Submit(PatchSwap(host, request, id, now).value)])
    {
      Bootload(request.password, bootFails);
      var patched := PatchSwap(host, request, id, now);
      if patched.Err? {
        return Err(patched.error);
      }
      var ok := Deliver(Tasks.Submit(patched.value), swapFails);
      if !ok {
        return Err(NotDelivered);
      }
      return BuildSwapResponse(host, patched.value);
    }

    /** `signed` is the delay information after signing, if the wallet could sign it. */
    method PostDelayedSwaps(request: SwapBlob, id: SwapID, now: int, signed: Option<string>, bootFails: bool,
        swapFails: bool)
      returns (r: Option<PostError>)
      requires Valid()
      modifies this
      ensures Valid()
      ensures r.None? <==> PatchDelayedSwap(host, request, id, now).Ok? && signed.Some? && !swapFails
      ensures outbox == old(outbox)
              + (if old(Known(request.password)) || bootFails then [] else [Tasks.Boot(request.password)])
              + (if r.Some? then []
                else [Tasks.Submit(PatchDelayedSwap(host, request, id, now).value.(delayInfo := signed.value))])
    {
      Bootload(request.password, bootFails);
      var patched := PatchDelayedSwap(host, request, id, now);
      if patched.Err? {
        return Some(patched.error);
      }
      if signed.None? {
        return Some(NotSigned);
      }
      var ok := Deliver(Tasks.Submit(patched.value.(delayInfo := signed.value)), swapFails);
      return if ok then None else Some(NotDelivered);
    }
  }

  /** The order of bootload and swap is kept by a request exactly when its bootload is known to have been delivered. */
  lemma OrderKept(outbox: seq<Tasks.In>, blob: SwapBlob, booting: bool)
    requires BootsFirst(outbox)
    ensures var boots := if booting then [Tasks.Boot(blob.password)] else [];
            BootsFirst(outbox + boots + [Tasks.Submit(blob)]) <==> booting || Tasks.Boot(blob.password) in outbox
  {
    var boots := if booting then [Tasks.Boot(blob.password)] else [];
    var after := outbox + boots + [Tasks.Submit(blob)];
    var n := |outbox + boots|;
    assert after[..n] == outbox + boots;
    if booting || Tasks.Boot(blob.password) in outbox {
      forall i | 0 <= i < |after| ensures BootedBefore(after, i) {
        if i < |outbox| {
          assert BootedBefore(outbox, i) && after[..i] == outbox[..i];
        }
      }
    } else {
      assert !BootedBefore(after, n);
    }
  }

  // ---------------------------------------------------------------- what the task system makes of the outbox

  function Replay(outbox: seq<Tasks.In>): seq<TaskSystem.Action> {
    seq(|outbox|, i requires 0 <= i < |outbox| =>
      match outbox[i]
      case Submit(blob) => TaskSystem.PostSwap(blob)
      case Boot(password) => TaskSystem.PostBoot(password)
      case Tick => TaskSystem.PostTick)
  }

  /** Fresh IDs, and each swap with a hash of its own password, which is what the server puts in. */
  ghost predicate Proper(outbox: seq<Tasks.In>, matches: (string, string) -> bool) {
    && (forall i, j | 0 <= i < j < |outbox| && outbox[i].Submit? && outbox[j].Submit? ::
         outbox[i].blob.id != outbox[j].blob.id)
    && (forall i | 0 <= i < |outbox| && outbox[i].Submit? ::
          outbox[i].blob.passwordHash != "" && matches(outbox[i].blob.passwordHash, outbox[i].blob.password))
  }

  predicate Posts(outbox: seq<Tasks.In>, id: SwapID) {
    exists i | 0 <= i < |outbox| :: outbox[i].Submit? && outbox[i].blob.id == id
  }

  /** What the task system has taken in of an outbox. */
  ghost predicate Took(r: TaskSystem.Sys, outbox: seq<Tasks.In>) {
    && (r.inbox == outbox || |r.inbox| < |outbox|)
    && (forall p :: p in r.booted <==> Tasks.Boot(p) in outbox)
    && (forall id | id in r.posted :: Posts(outbox, id))
  }

  lemma TookOne(r: TaskSystem.Sys, pre: seq<Tasks.In>, msg: Tasks.In)
    requires Took(r, pre) && BootsOnce(pre + [msg]) && Proper(pre + [msg], r.matches)
    ensures var r' := TaskSystem.Step(r, Replay([msg])[0]);
            && Took(r', pre + [msg]) && r'.matches == r.matches
            && (r'.inbox == pre + [msg] <==> r.inbox == pre && (msg.Submit? ==> Tasks.Boot(msg.blob.password) in pre))
  {
    var all := pre + [msg];
    assert all[..|pre|] == pre && all[|pre|] == msg;
    forall id | Posts(pre, id) ensures Posts(all, id) {
      var i :| 0 <= i < |pre| && pre[i].Submit? && pre[i].blob.id == id;
      assert all[i] == pre[i];
    }
    match msg
    case Submit(blob) => assert !Posts(pre, blob.id);
    case Boot(password) => assert msg !in pre;
    case Tick =>
  }

  lemma ReplaySnoc(s: TaskSystem.Sys, pre: seq<Tasks.In>, msg: Tasks.In)
    ensures TaskSystem.Run(s, Replay(pre + [msg])) == TaskSystem.Step(TaskSystem.Run(s, Replay(pre)), Replay([msg])[0])
  {
    assert Replay(pre + [msg]) == Replay(pre) + Replay([msg]);
    Recovery.RunAppend(s, Replay(pre), Replay([msg]));
    var r := TaskSystem.Run(s, Replay(pre));
    assert Replay([msg])[1..] == [];
    assert TaskSystem.Run(r, Replay([msg])) == TaskSystem.Step(r, Replay([msg])[0]);
  }

  lemma ProperPart(pre: seq<Tasks.In>, msg: Tasks.In, matches: (string, string) -> bool)
    requires BootsOnce(pre + [msg]) && Proper(pre + [msg], matches)
    ensures BootsOnce(pre) && Proper(pre, matches)
  {
    var all := pre + [msg];
    assert forall i | 0 <= i < |pre| :: pre[i] == all[i] && pre[..i] == all[..i];
  }

  lemma {:induction false} ReplayTook(s: TaskSystem.Sys, outbox: seq<Tasks.In>)
    requires TaskSystem.Initial(s) && BootsOnce(outbox) && Proper(outbox, s.matches)
    ensures var r := TaskSystem.Run(s, Replay(outbox));
            Took(r, outbox) && r.matches == s.matches && (r.inbox == outbox <==> BootsFirst(outbox))
    decreases |outbox|
  {
    if outbox != [] {
      var n := |outbox| - 1;
      var pre, msg := outbox[..n], outbox[n];
      assert pre + [msg] == outbox;
      ProperPart(pre, msg, s.matches);
      ReplayTook(s, pre);
      TookOne(TaskSystem.Run(s, Replay(pre)), pre, msg);
      ReplaySnoc(s, pre, msg);
      BootsFirstSnoc(pre, msg);
    }
  }

  lemma BootsFirstSnoc(pre: seq<Tasks.In>, msg: Tasks.In)
    ensures BootsFirst(pre + [msg]) <==> BootsFirst(pre) && (msg.Submit? ==> Tasks.Boot(msg.blob.password) in pre)
  {
    var all := pre + [msg];
    assert all[..|pre|] == pre && all[|pre|] == msg;
    assert forall i | 0 <= i < |pre| :: all[i] == pre[i] && all[..i] == pre[..i];
    if BootsFirst(all) {
      assert BootedBefore(all, |pre|);
      forall i | 0 <= i < |pre| ensures BootedBefore(pre, i) {
        assert BootedBefore(all, i);
      }
    } else if BootsFirst(pre) && (msg.Submit? ==> Tasks.Boot(msg.blob.password) in pre) {
      forall i | 0 <= i < |all| ensures BootedBefore(all, i) {
        assert i < |pre| ==> BootedBefore(pre, i);
      }
    }
  }

  /**
   The task system's condition on posting, on which single ownership rests, is met by an outbox
   exactly when every swap in it follows the bootload of its password.
   */
  lemma OutboxAccepted(s: TaskSystem.Sys, outbox: seq<Tasks.In>)
    requires TaskSystem.Initial(s) && BootsOnce(outbox) && Proper(outbox, s.matches)
    ensures TaskSystem.Run(s, Replay(outbox)).inbox == outbox <==> BootsFirst(outbox)
  {
    ReplayTook(s, outbox);
  }
}
