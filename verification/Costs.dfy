/** Costs and their stored form, the fixed transaction costs, and the fee gross-up. */
module Costs {
  import opened Common
  import opened Swaps
  import opened Decimal

  function ToBlob(cost: Cost): CostBlob {
    map name | name in cost :: Print(cost[name])
  }

  /** A stored amount that does not parse comes back as no amount at all. */
  function FromBlob(blob: CostBlob): map<string, Option<int>> {
    map name | name in blob :: Parse(blob[name])
  }

  method CostToCostBlob(cost: Cost) returns (blob: CostBlob)
    ensures blob == ToBlob(cost)
  {
    blob := map[];
    var todo := cost.Keys;
    while todo != {}
      invariant todo <= cost.Keys
      invariant blob == map name | name in cost && name !in todo :: Print(cost[name])
      decreases |todo|
    {
      var name :| name in todo;
      blob := blob[name := Print(cost[name])];
      todo := todo - {name};
    }
  }

  method CostBlobToCost(blob: CostBlob) returns (cost: map<string, Option<int>>)
    ensures cost == FromBlob(blob)
  {
    cost := map[];
    var todo := blob.Keys;
    while todo != {}
      invariant todo <= blob.Keys
      invariant cost == map name | name in blob && name !in todo :: Parse(blob[name])
      decreases |todo|
    {
      var name :| name in todo;
      cost := cost[name := Parse(blob[name])];
      todo := todo - {name};
    }
  }

  /** What a receipt stores about a cost is read back without loss, token by token. */
  lemma CostBlobRoundTrip(cost: Cost)
    ensures FromBlob(ToBlob(cost)) == map name | name in cost :: Some(cost[name])
  {
    forall name | name in cost ensures Parse(Print(cost[name])) == Some(cost[name]) {
      ParsePrint(cost[name]);
    }
  }

  // ---------------------------------------------------------------- fixed costs

  const EthereumTransactionCost := 12000000000000000
  const BitcoinTransactionCost := 10000

  function BlockchainTxFees(chain: Blockchain): int {
    match chain
    case Ethereum => 12000000000
    case Erc20 => 12000000000
    case Bitcoin => 10000
  }

  // ---------------------------------------------------------------- gross-up

  function CalculateFeesFromBips(value: int, bips: int): int
    requires bips != 10000
  {
    (value * bips) / (10000 - bips)
  }

  /** What is left of `t` once a token charges `bips` on the transfer. */
  function AfterTransferFee(t: int, bips: int): int {
    t - (t * bips) / 10000
  }

  lemma TransferFeeBounds(t: int, bips: int)
    requires 0 <= bips < 10000
    ensures t * (10000 - bips) <= 10000 * AfterTransferFee(t, bips) < t * (10000 - bips) + 10000
  {
    var r := (t * bips) / 10000;
    assert r * 10000 <= t * bips < r * 10000 + 10000;
    assert t * (10000 - bips) == 10000 * t - t * bips;
  }

  /** The gross amount is the largest one whose net, rounded, does not pass `v`. */
  lemma GrossBounds(v: int, bips: int)
    requires 0 <= v && 0 <= bips < 10000
    ensures var t := v + CalculateFeesFromBips(v, bips);
            t * (10000 - bips) <= 10000 * v < (t + 1) * (10000 - bips)
  {
    var d := 10000 - bips;
    var q := (v * bips) / d;
    assert q * d <= v * bips < q * d + d;
    assert v * d + v * bips == 10000 * v;
    assert (v + q) * d == v * d + q * d;
    assert (v + q + 1) * d == v * d + q * d + d;
  }

  lemma MulMono(x: int, y: int, m: nat)
    requires x <= y
    ensures x * m <= y * m
  {
  }

  /** Grossing up is exact: `t` nets exactly `v`, and every larger amount nets more. */
  lemma GrossUpExact(v: int, bips: int)
    requires 0 <= v && 0 <= bips < 10000
    ensures var t := v + CalculateFeesFromBips(v, bips);
            && AfterTransferFee(t, bips) == v
            && forall u | u > t :: AfterTransferFee(u, bips) > v
  {
    var t := v + CalculateFeesFromBips(v, bips);
    GrossBounds(v, bips);
    TransferFeeBounds(t, bips);
    assert (t + 1) * (10000 - bips) == t * (10000 - bips) + (10000 - bips);
    forall u | u > t ensures AfterTransferFee(u, bips) > v {
      TransferFeeBounds(u, bips);
      MulMono(t + 1, u, 10000 - bips);
    }
  }
}
