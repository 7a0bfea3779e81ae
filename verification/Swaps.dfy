/** The swap records: what a user posts, what is stored, and what a contract binder is built from. */
module Swaps {
  import opened Common

  /** The receipt statuses, in the order of the repository's enumeration. */
  datatype Status =
    | Inactive | Initiated | Audited | AuditPending | AuditFailed | Redeemed
    | AuditedSecret | Refunded | RefundFailed | Cancelled | Expiration

  datatype Blockchain = Bitcoin | Ethereum | Erc20

  datatype Token = Token(name: string, decimals: nat, blockchain: Blockchain)

  const BTC := "BTC"
  const ETH := "ETH"
  const DGX := "DGX"

  const TokenBTC := Token(BTC, 8, Bitcoin)
  const TokenETH := Token(ETH, 18, Ethereum)
  const TokenDGX := Token(DGX, 9, Erc20)

  type SwapID = string

  type Cost = map<string, int>

  type CostBlob = map<string, string>

  /** A swap as it is posted and stored; amounts and fees are decimal strings. */
  datatype SwapBlob = SwapBlob(
    id: SwapID, sendToken: string, receiveToken: string,
    sendFee: string, sendAmount: string,
    receiveFee: string, receiveAmount: string, minimumReceiveAmount: string,
    sendTo: string, receiveFrom: string,
    timeLock: int, secretHash: string, shouldInitiateFirst: bool,
    delay: bool, delayInfo: string, delayCallbackUrl: string,
    brokerFee: int, brokerSendTokenAddr: string, brokerReceiveTokenAddr: string,
    withdrawAddress: string, responseUrl: string,
    password: string, passwordHash: string)

  const EmptyBlob := SwapBlob(
    "", "", "", "", "", "", "", "", "", "", 0, "", false, false, "", "", 0, "", "", "", "", "", "")

  /** One side of a swap, as a contract binder receives it. */
  datatype Swap = Swap(
    id: SwapID, token: Token, value: int, fee: int, brokerFee: int,
    secretHash: Bytes, timeLock: int,
    spendingAddress: string, withdrawAddress: string, fundingAddress: string, brokerAddress: string)

  datatype SwapReceipt = SwapReceipt(
    id: SwapID, sendToken: string, receiveToken: string, sendAmount: string, receiveAmount: string,
    sendCost: CostBlob, receiveCost: CostBlob, timestamp: int, timeLock: int,
    status: Status, delay: bool, delayInfo: string, active: bool, passwordHash: string)
}
