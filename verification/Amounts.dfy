/**
 Broker fees, the amounts a contract locks, and the balance checks made before a swap is
 accepted. Token amounts are unbounded integers.
 */
module Amounts {
  import opened Common
  import opened Swaps
  import opened Decimal
  import opened Costs

  /** The broker fee a binder computes from the amount, in hundredths of a percent. */
  function BrokerFee(value: int, bips: int): int {
    if bips != 0 then (value * bips) / 10000 else 0
  }

  /** The amount the handler checks the balance for. */
  function WithFees(amount: int, bips: int): int {
    (amount * (bips + 10000)) / 10000
  }

  const DustLimit := 600

  /** A Bitcoin output below the dust limit cannot be sent, so a small broker fee is raised to it. */
  function DustBump(brokerFee: int): int {
    if brokerFee != 0 && brokerFee < DustLimit then DustLimit else brokerFee
  }

  /** What the binder of `token` puts into the contract; only DGX charges on transfer. */
  function Locked(token: Token, value: int, bips: int): int {
    match token.blockchain
    case Bitcoin => value + DustBump(BrokerFee(value, bips))
    case Ethereum => value + BrokerFee(value, bips)
    case Erc20 =>
      var total := value + BrokerFee(value, bips);
      if token == TokenDGX then total + CalculateFeesFromBips(total, 13) else total
  }

  lemma WithFeesIsValuePlusBrokerFee(value: int, bips: int)
    ensures WithFees(value, bips) == value + BrokerFee(value, bips)
  {
    var q := (value * bips) / 10000;
    assert value * (bips + 10000) == value * bips + 10000 * value;
    assert (value * bips + 10000 * value) / 10000 == q + value;
  }

  /** What the dust limit adds to the locked amount; a negative broker fee is raised to the limit as well. */
  function Bump(token: Token, value: int, bips: int): nat {
    var fee := BrokerFee(value, bips);
    if token.blockchain.Bitcoin? && fee != 0 && fee < DustLimit then DustLimit - fee else 0
  }

  /**
   What is locked is what the handler checked, but for the dust bump on Bitcoin, which stays
   below the dust limit exactly when the broker fee is not negative.
   */
  lemma LockedExact(token: Token, value: int, bips: int)
    requires token != TokenDGX
    ensures Locked(token, value, bips) == WithFees(value, bips) + Bump(token, value, bips)
    ensures token.blockchain.Bitcoin? ==> (Bump(token, value, bips) <= DustLimit <==> BrokerFee(value, bips) >= 0)
  {
    WithFeesIsValuePlusBrokerFee(value, bips);
  }

  lemma WithFeesMonotone(small: int, large: int, bips: int)
    requires small <= large && bips >= -10000
    ensures WithFees(small, bips) <= WithFees(large, bips)
  {
    assert small * (bips + 10000) <= large * (bips + 10000);
  }

  /** Sending less never costs more, unless the broker pays out more than the whole amount. */
  lemma SmallerFillsCostNoMore(send: nat, bips: int)
    ensures (forall fill | 0 <= fill <= send :: WithFees(fill, bips) <= WithFees(send, bips))
        <==> bips >= -10000 || send == 0
  {
    if bips >= -10000 {
      forall fill | 0 <= fill <= send ensures WithFees(fill, bips) <= WithFees(send, bips) {
        WithFeesMonotone(fill, send, bips);
      }
    } else if send > 0 {
      assert send * (bips + 10000) < 0;
      assert WithFees(0, bips) == 0;
    }
  }

  // ---------------------------------------------------------------- balance checks

  datatype BalanceError =
    | Unavailable | Corrupted | BelowMinimum | InsufficientEther | InsufficientToken | InsufficientBitcoin

  /** A balance query answers with a decimal string, or fails. */
  function ReadBalance(answer: Option<string>): Result<int, BalanceError> {
    match answer
    case None => Err(Unavailable)
    case Some(text) => if Parse(text).Some? then Ok(Parse(text).value) else Err(Corrupted)
  }

  function VerifyEthereumBalance(ether: Option<string>, amount: Option<int>): Result<(), BalanceError> {
    match ReadBalance(ether)
    case Err(e) => Err(e)
    case Ok(balance) =>
      var left := if amount.Some? then balance - amount.value else balance;
      if left < EthereumTransactionCost then Err(InsufficientEther) else Ok(())
  }

  /**
   The fee the check adds for a token. All Ethereum tokens share one table of transaction costs,
   in which an earlier computation for DGX may have left its fee; `entry` is what it left.
   */
  function TableFee(token: Token, entry: Option<int>): int {
    if token == TokenDGX && entry.Some? then entry.value else 0
  }

  /** What computing the transaction cost of `amount` leaves in the shared table for DGX. */
  function EntryAfter(token: Token, amount: int, entry: Option<int>): Option<int> {
    if token == TokenDGX then Some(CalculateFeesFromBips(amount, 13)) else entry
  }

  function VerifyErc20Balance(token: Token, entry: Option<int>,
                              ether: Option<string>, tokens: Option<string>, amount: Option<int>)
    : Result<(), BalanceError>
  {
    match ReadBalance(ether)
    case Err(e) => Err(e)
    case Ok(balance) =>
      var held := if amount.Some? then ReadBalance(tokens) else Ok(0);
      match held
      case Err(e) => Err(e)
      case Ok(have) =>
        if amount.Some? && have < amount.value + TableFee(token, entry) then Err(InsufficientToken)
        else if balance < EthereumTransactionCost then Err(InsufficientEther)
        else Ok(())
  }

  function VerifyBitcoinBalance(bitcoin: Option<string>, amount: Option<int>): Result<(), BalanceError> {
    if amount.None? then Ok(())
    else if amount.value < 20000 then Err(BelowMinimum)
    else
      match ReadBalance(bitcoin)
      case Err(e) => Err(e)
      case Ok(balance) =>
        if balance - amount.value < BitcoinTransactionCost + DustLimit then Err(InsufficientBitcoin) else Ok(())
  }

  /** `own` answers for the token itself and `ether` for the gas an ERC20 transaction needs. */
  function VerifyBalance(token: Token, entry: Option<int>, own: Option<string>, ether: Option<string>,
      amount: Option<int>)
    : Result<(), BalanceError>
  {
    match token.blockchain
    case Ethereum => VerifyEthereumBalance(own, amount)
    case Erc20 => VerifyErc20Balance(token, entry, ether, own, amount)
    case Bitcoin => VerifyBitcoinBalance(own, amount)
  }

  /** The wallet can fund a contract of `locked` and pay the fixed transaction cost. */
  predicate Covers(token: Token, own: Option<string>, ether: Option<string>, locked: int) {
    match token.blockchain
    case Ethereum => ReadBalance(own).Ok? && ReadBalance(own).value >= locked + EthereumTransactionCost
    case Bitcoin => ReadBalance(own).Ok? && ReadBalance(own).value >= locked + BitcoinTransactionCost
    case Erc20 =>
      && ReadBalance(own).Ok? && ReadBalance(own).value >= locked
      && ReadBalance(ether).Ok? && ReadBalance(ether).value >= EthereumTransactionCost
  }

  /**
   When the check of this amount can be trusted: on Bitcoin for a broker fee that is not
   negative, and on DGX when the shared table happens to hold a fee that is high enough.
   */
  predicate Trustworthy(token: Token, entry: Option<int>, value: int, bips: int) {
    match token.blockchain
    case Ethereum => true
    case Bitcoin => BrokerFee(value, bips) >= 0
    case Erc20 =>
      token == TokenDGX ==> TableFee(token, entry) >= CalculateFeesFromBips(WithFees(value, bips), 13)
  }

  lemma LockedAtMost(token: Token, entry: Option<int>, value: int, bips: int)
    requires Trustworthy(token, entry, value, bips)
    ensures Locked(token, value, bips) <= WithFees(value, bips) + TableFee(token, entry)
                                          + (if token.blockchain.Bitcoin? then DustLimit else 0)
  {
    WithFeesIsValuePlusBrokerFee(value, bips);
    if token != TokenDGX {
      LockedExact(token, value, bips);
    }
  }

  /**
   A passed check covers what the swap locks plus its transaction, and also what any later fill
   that costs no more locks.
   */
  lemma Solvency(token: Token, entry: Option<int>, own: Option<string>, ether: Option<string>, send: int, bips: int,
      fill: int)
    requires VerifyBalance(token, entry, own, ether, Some(WithFees(send, bips))).Ok?
    requires WithFees(fill, bips) <= WithFees(send, bips) && Trustworthy(token, entry, fill, bips)
    ensures Covers(token, own, ether, Locked(token, fill, bips))
  {
    LockedAtMost(token, entry, fill, bips);
  }

  /**
   For every token, amount and broker fee: passing the check means being able to pay, whatever
   the wallet holds, exactly when the check can be trusted or turns the amount down anyway.
   */
  lemma SolvencyExact(token: Token, entry: Option<int>, send: int, bips: int)
    ensures (forall own, ether ::
               VerifyBalance(token, entry, own, ether, Some(WithFees(send, bips))).Ok?
               ==> Covers(token, own, ether, Locked(token, send, bips)))
            <==> Trustworthy(token, entry, send, bips) || (token.blockchain.Bitcoin? && WithFees(send, bips) < 20000)
  {
    if Trustworthy(token, entry, send, bips) {
      forall own, ether | VerifyBalance(token, entry, own, ether, Some(WithFees(send, bips))).Ok?
        ensures Covers(token, own, ether, Locked(token, send, bips))
      {
        Solvency(token, entry, own, ether, send, bips, send);
      }
    } else if token.blockchain.Erc20? || WithFees(send, bips) >= 20000 {
      JustEnough(token, entry, send, bips);
    }
  }

  /** Where the check cannot be trusted, a wallet that just passes it cannot pay. */
  lemma JustEnough(token: Token, entry: Option<int>, send: int, bips: int)
    requires !Trustworthy(token, entry, send, bips)
    requires token.blockchain.Bitcoin? ==> WithFees(send, bips) >= 20000
    ensures exists own, ether ::
              && VerifyBalance(token, entry, own, ether, Some(WithFees(send, bips))).Ok?
              && !Covers(token, own, ether, Locked(token, send, bips))
  {
    WithFeesIsValuePlusBrokerFee(send, bips);
    var least := WithFees(send, bips) + TableFee(token, entry)
                 + (if token.blockchain.Bitcoin? then BitcoinTransactionCost + DustLimit else 0);
    var own, ether := Some(Print(least)), Some(Print(EthereumTransactionCost));
    ParsePrint(least);
    ParsePrint(EthereumTransactionCost);
    assert VerifyBalance(token, entry, own, ether, Some(WithFees(send, bips))).Ok?;
    assert !Covers(token, own, ether, Locked(token, send, bips));
  }

  /**
   On Ethereum and on every token but DGX the check is also no stricter than it must be:
   it passes exactly when the wallet covers the swap.
   */
  lemma CheckIsExact(token: Token, entry: Option<int>, own: Option<string>, ether: Option<string>, send: int, bips: int)
    requires token != TokenDGX && !token.blockchain.Bitcoin?
    ensures VerifyBalance(token, entry, own, ether, Some(WithFees(send, bips))).Ok?
            <==> Covers(token, own, ether, Locked(token, send, bips))
  {
    LockedExact(token, send, bips);
  }

  /** On Bitcoin it also asks for a minimum, and for the dust limit on top. */
  lemma BitcoinCheckIsExact(entry: Option<int>, own: Option<string>, ether: Option<string>, send: int, bips: int)
    ensures VerifyBalance(TokenBTC, entry, own, ether, Some(WithFees(send, bips))).Ok?
            <==> && WithFees(send, bips) >= 20000
                 && Covers(TokenBTC, own, ether, Locked(TokenBTC, send, bips) + DustLimit - Bump(TokenBTC, send, bips))
  {
    LockedExact(TokenBTC, send, bips);
  }

  /** DGX: what its contract pulls in exceeds the amount with fees once the transfer fee rounds to a unit. */
  lemma DgxLocksMore(value: int, bips: int)
    requires value >= 0 && bips >= 0
    ensures Locked(TokenDGX, value, bips) >= WithFees(value, bips)
    ensures Locked(TokenDGX, value, bips) > WithFees(value, bips) <==> WithFees(value, bips) >= 769
    ensures AfterTransferFee(Locked(TokenDGX, value, bips), 13) == WithFees(value, bips)
  {
    WithFeesIsValuePlusBrokerFee(value, bips);
    assert value * bips >= 0;
    var total := WithFees(value, bips);
    GrossUpExact(total, 13);
  }

  /** The balance was answered, can be read, and is at least `least`. */
  predicate Shows(answer: Option<string>, least: int) {
    answer.Some? && Parse(answer.value).Some? && Parse(answer.value).value >= least
  }

  /**
   The check without an amount asks for the gas of one Ethereum transaction, in ether, and on
   Bitcoin, where a claim pays for itself, for nothing.
   */
  lemma ReceiveCheckExact(token: Token, entry: Option<int>, own: Option<string>, ether: Option<string>)
    ensures VerifyBalance(token, entry, own, ether, None).Ok? <==>
              match token.blockchain
              case Bitcoin => true
              case Ethereum => Shows(own, 12000000000000000)
              case Erc20 => Shows(ether, 12000000000000000)
  {
  }

  /** The check with an amount, in the smallest units of each chain. */
  lemma SendCheckExact(token: Token, entry: Option<int>, own: Option<string>, ether: Option<string>, amount: int)
    ensures VerifyBalance(token, entry, own, ether, Some(amount)).Ok? <==>
              match token.blockchain
              case Bitcoin => amount >= 20000 && Shows(own, amount + 10000 + 600)
              case Ethereum => Shows(own, amount + 12000000000000000)
              case Erc20 =>
                && Shows(own, amount + (if token == TokenDGX && entry.Some? then entry.value else 0))
                && Shows(ether, 12000000000000000)
  {
  }

  // ---------------------------------------------------------------- fills in another token

  /** The check of `send` in one token passes on these balances. */
  predicate PassesCheck(token: Token, entry: Option<int>, balance: Token -> Option<string>, send: int, bips: int) {
    VerifyBalance(token, entry, balance(token), balance(TokenETH), Some(WithFees(send, bips))).Ok?
  }

  predicate Pays(token: Token, balance: Token -> Option<string>, amount: int, bips: int) {
    Covers(token, balance(token), balance(TokenETH), Locked(token, amount, bips))
  }

  /** Passing the check in `asked` means being able to pay `fill` in `given`, whatever the wallet holds. */
  ghost predicate CheckCovers(asked: Token, given: Token, entry: Option<int>, send: int, fill: int, bips: int) {
    forall balance: Token -> Option<string> ::
      PassesCheck(asked, entry, balance, send, bips) ==> Pays(given, balance, fill, bips)
  }

  /** A wallet with what the check asks for and not one unit of any other token. */
  function JustAsked(asked: Token, amount: int): Token -> Option<string> {
    (t: Token) =>
      if t == asked then Some(Print(amount))
      else if t == TokenETH then Some(Print(EthereumTransactionCost))
      else Some(Print(0))
  }

  /** The least balance with which the check passes. */
  function Least(token: Token, entry: Option<int>, amount: int): int {
    match token.blockchain
    case Ethereum => amount + EthereumTransactionCost
    case Bitcoin => amount + BitcoinTransactionCost + DustLimit
    case Erc20 => amount + TableFee(token, entry)
  }

  lemma AskedAlone(asked: Token, given: Token, entry: Option<int>, send: int, fill: int, bips: int)
    requires asked != given && Locked(given, fill, bips) > 0
    requires asked.blockchain.Bitcoin? ==> WithFees(send, bips) >= 20000
    requires (asked.blockchain.Ethereum? ==> asked == TokenETH) && (given.blockchain.Ethereum? ==> given == TokenETH)
    ensures var balance := JustAsked(asked, Least(asked, entry, WithFees(send, bips)));
            PassesCheck(asked, entry, balance, send, bips) && !Pays(given, balance, fill, bips)
  {
    ParsePrint(Least(asked, entry, WithFees(send, bips)));
    ParsePrint(EthereumTransactionCost);
    ParsePrint(0);
  }

  /**
   The check made when an offer is posted covers a fill that costs no more exactly when the fill
   is in the token that was checked. Tokens are the supported ones: only ether is on Ethereum
   itself; the fill locks something, and the offer is not turned down for being too small.
   */
  lemma FillTokenExact(asked: Token, given: Token, entry: Option<int>, send: int, fill: int, bips: int)
    requires (asked.blockchain.Ethereum? ==> asked == TokenETH) && (given.blockchain.Ethereum? ==> given == TokenETH)
    requires asked.blockchain.Bitcoin? ==> WithFees(send, bips) >= 20000
    requires WithFees(fill, bips) <= WithFees(send, bips) && Locked(given, fill, bips) > 0
    requires Trustworthy(given, entry, fill, bips)
    ensures CheckCovers(asked, given, entry, send, fill, bips) <==> asked == given
  {
    if asked == given {
      forall balance: Token -> Option<string> | PassesCheck(asked, entry, balance, send, bips)
        ensures Pays(given, balance, fill, bips)
      {
        Solvency(asked, entry, balance(asked), balance(TokenETH), send, bips, fill);
      }
    } else {
      AskedAlone(asked, given, entry, send, fill, bips);
    }
  }

  lemma FeesMonotone(x: int, y: int)
    requires x <= y
    ensures CalculateFeesFromBips(x, 13) <= CalculateFeesFromBips(y, 13)
  {
  }

  /** A check of DGX that follows a cost computation for at least as much can be trusted. */
  lemma RecentEntryIsEnough(entry: Option<int>, amount: int, value: int, bips: int)
    requires amount >= WithFees(value, bips)
    ensures Trustworthy(TokenDGX, EntryAfter(TokenDGX, amount, entry), value, bips)
  {
    FeesMonotone(WithFees(value, bips), amount);
  }
}
