/**
 From a stored swap to the two contracts it stands for: the native one this daemon funds and
 the foreign one it is paid from.
 */
module Binder {
  import opened Common
  import opened Swaps
  import opened Amounts
  import Costs
  import Decimal
  import HtlcScript
  import BtcContract
  import Spending
  import ScriptNum

  /** The wallet and codec functions the binder and the handler call. */
  datatype Tools = Tools(
    patchToken: string -> Option<Token>,
    getAddress: (string, Blockchain) -> Option<string>,
    verifyAddress: (Blockchain, string) -> bool,
    decode: string -> Option<Bytes>)

  datatype BindError = UnsupportedToken | NoAddress | CorruptedValue | CorruptedBroker | CorruptedHash

  function UnmarshalSecretHash(tools: Tools, secretHash: string): (r: Option<Bytes>)
    ensures r.Some? ==> |r.value| == 32
  {
    match tools.decode(secretHash)
    case None => None
    case Some(hash) => if |hash| == 32 then Some(hash) else None
  }

  /** A fee that does not parse is replaced by the chain's default. */
  function FeeOf(token: Token, fee: string): int {
    match Decimal.Parse(fee)
    case Some(n) => n
    case None => Costs.BlockchainTxFees(token.blockchain)
  }

  function BuildNativeSwap(tools: Tools, blob: SwapBlob, fundingAddress: string): Result<Swap, BindError> {
    match tools.patchToken(blob.sendToken)
    case None => Err(UnsupportedToken)
    case Some(token) =>
      match Decimal.Parse(blob.sendAmount)
      case None => Err(CorruptedValue)
      case Some(value) =>
        if blob.brokerFee != 0 && !tools.verifyAddress(token.blockchain, blob.brokerSendTokenAddr)
          then Err(CorruptedBroker)
        else
          match UnmarshalSecretHash(tools, blob.secretHash)
          case None => Err(CorruptedHash)
          case Some(hash) =>
            Ok(Swap(blob.id, token, value, FeeOf(token, blob.sendFee), BrokerFee(value, blob.brokerFee), hash,
              blob.timeLock, blob.sendTo, "", fundingAddress, blob.brokerSendTokenAddr))
  }

  function BuildForeignSwap(tools: Tools, blob: SwapBlob, spendingAddress: string): Result<Swap, BindError> {
    match tools.patchToken(blob.receiveToken)
    case None => Err(UnsupportedToken)
    case Some(token) =>
      match Decimal.Parse(blob.receiveAmount)
      case None => Err(CorruptedValue)
      case Some(value) =>
        if blob.brokerFee != 0 && !tools.verifyAddress(token.blockchain, blob.brokerReceiveTokenAddr)
          then Err(CorruptedBroker)
        else
          match UnmarshalSecretHash(tools, blob.secretHash)
          case None => Err(CorruptedHash)
          case Some(hash) =>
            var withdraw := if blob.withdrawAddress != "" then blob.withdrawAddress else spendingAddress;
            Ok(Swap(blob.id, token, value, FeeOf(token, blob.receiveFee), BrokerFee(value, blob.brokerFee), hash,
              blob.timeLock, spendingAddress, withdraw, blob.receiveFrom, blob.brokerReceiveTokenAddr))
  }

  /** The staggered time locks that are computed for the two sides, and then not used. */
  function CalculateTimeLocks(blob: SwapBlob): (int, int) {
    if blob.shouldInitiateFirst then (blob.timeLock, blob.timeLock - 24 * 60 * 60)
    else (blob.timeLock - 24 * 60 * 60, blob.timeLock)
  }

  function AddressOf(tools: Tools, password: string, tokenName: string): Result<string, BindError> {
    match tools.patchToken(tokenName)
    case None => Err(UnsupportedToken)
    case Some(token) =>
      match tools.getAddress(password, token.blockchain)
      case None => Err(NoAddress)
      case Some(address) => Ok(address)
  }

  function BuildComplementarySwaps(tools: Tools, blob: SwapBlob): Result<(Swap, Swap), BindError> {
    match AddressOf(tools, blob.password, blob.sendToken)
    case Err(e) => Err(e)
    case Ok(funding) =>
      match AddressOf(tools, blob.password, blob.receiveToken)
      case Err(e) => Err(e)
      case Ok(spending) =>
        match BuildNativeSwap(tools, blob, funding)
        case Err(e) => Err(e)
        case Ok(native) =>
          match BuildForeignSwap(tools, blob, spending)
          case Err(e) => Err(e)
          case Ok(foreign) => Ok((native, foreign))
  }

  /**
   Both contracts of a swap are locked until the same moment, the blob's own time lock, and
   under the same hash; the day between the computed locks of the two sides is lost.
   */
  lemma OneTimeLock(tools: Tools, blob: SwapBlob)
    requires BuildComplementarySwaps(tools, blob).Ok?
    ensures var (native, foreign) := BuildComplementarySwaps(tools, blob).value;
            && native.timeLock == foreign.timeLock == blob.timeLock && native.secretHash == foreign.secretHash
            && (native.timeLock, foreign.timeLock) != CalculateTimeLocks(blob)
  {
  }

  /** The fee is the one the text spells; a text that spells none leaves the chain's default. */
  predicate Charges(chain: Blockchain, text: string, fee: int) {
    match Decimal.Parse(text)
    case Some(n) => fee == n
    case None => fee == if chain.Bitcoin? then 10000 else 12000000000
  }

  /**
   The daemon funds the native contract and claims the foreign one from its own addresses, and is
   paid there unless the user names another; each side pays the miner fee the blob names for it.
   */
  lemma OwnSides(tools: Tools, blob: SwapBlob)
    requires BuildComplementarySwaps(tools, blob).Ok?
    ensures var (native, foreign) := BuildComplementarySwaps(tools, blob).value;
            && tools.getAddress(blob.password, native.token.blockchain) == Some(native.fundingAddress)
            && tools.getAddress(blob.password, foreign.token.blockchain) == Some(foreign.spendingAddress)
            && native.spendingAddress == blob.sendTo && foreign.fundingAddress == blob.receiveFrom
            && foreign.withdrawAddress
                 == (if blob.withdrawAddress == "" then foreign.spendingAddress else blob.withdrawAddress)
            && Charges(native.token.blockchain, blob.sendFee, native.fee)
            && Charges(foreign.token.blockchain, blob.receiveFee, foreign.fee)
            && (blob.brokerFee != 0 ==> tools.verifyAddress(native.token.blockchain, native.brokerAddress)
                                        && tools.verifyAddress(foreign.token.blockchain, foreign.brokerAddress))
  {
  }

  predicate Readable(tools: Tools, blob: SwapBlob, tokenName: string, amount: string, broker: string) {
    && tools.patchToken(tokenName).Some? && Decimal.Parse(amount).Some?
    && (blob.brokerFee == 0 || tools.verifyAddress(tools.patchToken(tokenName).value.blockchain, broker))
    && tools.decode(blob.secretHash).Some? && |tools.decode(blob.secretHash).value| == 32
  }

  /** When the contracts can be built: both sides can be read, and the wallet has an address on each chain. */
  lemma BuildExact(tools: Tools, blob: SwapBlob)
    ensures BuildComplementarySwaps(tools, blob).Ok? <==>
              && Readable(tools, blob, blob.sendToken, blob.sendAmount, blob.brokerSendTokenAddr)
              && Readable(tools, blob, blob.receiveToken, blob.receiveAmount, blob.brokerReceiveTokenAddr)
              && tools.getAddress(blob.password, tools.patchToken(blob.sendToken).value.blockchain).Some?
              && tools.getAddress(blob.password, tools.patchToken(blob.receiveToken).value.blockchain).Some?
  {
  }

  /** A contract is built in the blob's token, for its amount and its broker's share, under its ID and hash. */
  lemma AgreedTerms(tools: Tools, blob: SwapBlob, funding: string, spending: string)
    ensures var native := BuildNativeSwap(tools, blob, funding);
            native.Ok? ==>
              && native.value.id == blob.id && Some(native.value.token) == tools.patchToken(blob.sendToken)
              && Some(native.value.value) == Decimal.Parse(blob.sendAmount)
              && native.value.brokerFee == (native.value.value * blob.brokerFee) / 10000
              && Some(native.value.secretHash) == tools.decode(blob.secretHash) && |native.value.secretHash| == 32
              && native.value.timeLock == blob.timeLock && native.value.spendingAddress == blob.sendTo
              && native.value.brokerAddress == blob.brokerSendTokenAddr
    ensures var foreign := BuildForeignSwap(tools, blob, spending);
            foreign.Ok? ==>
              && foreign.value.id == blob.id && Some(foreign.value.token) == tools.patchToken(blob.receiveToken)
              && Some(foreign.value.value) == Decimal.Parse(blob.receiveAmount)
              && foreign.value.brokerFee == (foreign.value.value * blob.brokerFee) / 10000
              && Some(foreign.value.secretHash) == tools.decode(blob.secretHash) && |foreign.value.secretHash| == 32
              && foreign.value.timeLock == blob.timeLock && foreign.value.fundingAddress == blob.receiveFrom
              && foreign.value.brokerAddress == blob.brokerReceiveTokenAddr
  {
  }

  // ---------------------------------------------------------------- the two views of one contract

  /** Two records describe the same contract; ID, miner fee and withdraw address are private to a daemon. */
  predicate SameContract(s: Swap, t: Swap) {
    && s.token == t.token && s.value == t.value && s.brokerFee == t.brokerFee
    && s.secretHash == t.secretHash && s.timeLock == t.timeLock
    && s.spendingAddress == t.spendingAddress && s.fundingAddress == t.fundingAddress
    && s.brokerAddress == t.brokerAddress
  }

  /** The terms of a Bitcoin contract; `pkh` decodes pay-to-pubkey-hash addresses and no others. */
  function ScriptTerms(pkh: string -> Option<Bytes>, swap: Swap): Option<HtlcScript.Terms> {
    match pkh(swap.fundingAddress)
    case None => None
    case Some(me) =>
      match pkh(swap.spendingAddress)
      case None => None
      case Some(them) => Some(HtlcScript.Terms(me, them, swap.timeLock, swap.secretHash))
  }

  /** Addresses decode to 20 bytes, and the time lock is a 64-bit integer. */
  predicate Encodable(pkh: string -> Option<Bytes>, swap: Swap) {
    ScriptTerms(pkh, swap).Some? && HtlcScript.WellFormed(ScriptTerms(pkh, swap).value)
  }

  method BuildInitiateScript(pkh: string -> Option<Bytes>, swap: Swap) returns (r: Option<Bytes>)
    requires ScriptTerms(pkh, swap).Some? ==> Encodable(pkh, swap)
    ensures r.Some? <==> pkh(swap.fundingAddress).Some? && pkh(swap.spendingAddress).Some?
    ensures r.Some? ==> r.value == BtcContract.ContractScript(ScriptTerms(pkh, swap).value)
  {
    var me := pkh(swap.fundingAddress);
    var them := pkh(swap.spendingAddress);
    if me.None? || them.None? {
      return None;
    }
    var script := BtcContract.NewInitiateScript(me.value, them.value, swap.timeLock, swap.secretHash);
    return Some(script);
  }

  lemma IntInstrInjective(m: int, n: int)
    requires HtlcScript.IntInstr(m) == HtlcScript.IntInstr(n)
    ensures m == n
  {
    ScriptNum.RoundTrip(m);
    ScriptNum.RoundTrip(n);
  }

  /** A contract script gives away all its terms: two contracts share a script exactly when they agree on everything. */
  lemma ScriptDeterminesTerms(t: HtlcScript.Terms, u: HtlcScript.Terms)
    requires HtlcScript.WellFormed(t) && HtlcScript.WellFormed(u)
    ensures BtcContract.ContractScript(t) == BtcContract.ContractScript(u) <==> t == u
  {
    Spending.ContractScriptParses(t);
    Spending.ContractScriptParses(u);
    if BtcContract.ContractScript(t) == BtcContract.ContractScript(u) {
      BtcContract.FlatProgram(t);
      BtcContract.FlatProgram(u);
      IntInstrInjective(t.lockTime, u.lockTime);
    }
  }
}
