/**
 The storage object the daemon works with. Every operation is specified on the four maps of
 `Store`: it changes the map it names and leaves the other three alone.
 */
module Database {
  import opened Common
  import opened Swaps
  import opened LexOrder
  import opened Store
  import Costs
  import Hex

  type LoadedCost = map<string, Option<int>>

  /** A transaction hash without its `0x`; nothing but `0x` is left as it is. */
  function Digits(txHash: string): string {
    if |txHash| > 2 && txHash[..2] == "0x" then txHash[2..] else txHash
  }

  /** The identifier of a transfer: its transaction hash, with or without the `0x`. */
  function TxHashToBytes(txHash: string): Option<Bytes> {
    match Hex.Decode(Digits(txHash))
    case None => None
    case Some(bytes) => if |bytes| == 32 then Some(bytes) else None
  }

  /** A transaction hash names the row whose 32 bytes its digits spell, and no other. */
  lemma TxHashExact(txHash: string, id: Bytes)
    ensures TxHashToBytes(txHash) == Some(id) <==> |id| == 32 && Hex.LowerAll(Digits(txHash)) == Hex.Encode(id)
  {
    Hex.DecodeExact(Digits(txHash), id);
  }

  /** Both spellings of a transaction hash name the same row. */
  lemma BothSpellings(id: Bytes)
    requires |id| == 32
    ensures TxHashToBytes(Hex.Encode(id)) == Some(id) == TxHashToBytes("0x" + Hex.Encode(id))
  {
    var digits := Hex.Encode(id);
    Hex.RoundTrip(id);
    assert digits[1] != 'x';
    assert ("0x" + digits)[..2] == "0x" && ("0x" + digits)[2..] == digits;
  }

  function CostsIn(receipts: map<Bytes, Value>, id: Bytes): (LoadedCost, LoadedCost) {
    if id in receipts && receipts[id].ReceiptRow? then
      (Costs.FromBlob(receipts[id].receipt.sendCost), Costs.FromBlob(receipts[id].receipt.receiveCost))
    else (map[], map[])
  }

  /** Costs written into a receipt are loaded back, token by token, after a restart. */
  lemma CostsSurvive(receipts: map<Bytes, Value>, id: Bytes, receipt: SwapReceipt, send: Cost, receive: Cost)
    requires receipt.sendCost == Costs.ToBlob(send) && receipt.receiveCost == Costs.ToBlob(receive)
    ensures CostsIn(receipts[id := ReceiptRow(receipt)], id) ==
            ((map name | name in send :: Some(send[name])), (map name | name in receive :: Some(receive[name])))
  {
    Costs.CostBlobRoundTrip(send);
    Costs.CostBlobRoundTrip(receive);
  }

  /** A scan sees the whole table exactly when the last identifier is not in it. */
  lemma ScanIsComplete(ids: seq<Bytes>, table: map<Bytes, Value>)
    requires ScanOrder(ids, table)
    ensures (forall id | id in table :: id in ids) <==> LastId !in table
  {
  }

  lemma {:induction false} Least(keys: set<Bytes>) returns (least: Bytes)
    requires keys != {}
    ensures least in keys && forall key | key in keys && key != least :: LexLess(least, key)
    decreases |keys|
  {
    var some :| some in keys;
    var others := keys - {some};
    least := some;
    if others != {} {
      var best := Least(others);
      LexTotal(some, best);
      if LexLess(best, some) {
        least := best;
      } else {
        forall key | key in others && key != best ensures LexLess(some, key) {
          LexTransitive(some, best, key);
        }
      }
    }
  }

  class Db {
    const decode: SwapID -> Option<Bytes>
    var db: Contents

    /** Either the ID does not decode, or it decodes to 32 bytes. */
    predicate Canonical(swapID: SwapID) {
      decode(swapID).Some? ==> |decode(swapID).value| == 32
    }

    ghost predicate Valid()
      reads this
    {
      WellFormed(db)
    }

    ghost function Table(table: Bytes): map<Bytes, Value>
      requires |table| == 8
      reads this
    {
      TableOf(db, table)
    }

    constructor (decode: SwapID -> Option<Bytes>)
      ensures Valid() && db == map[] && this.decode == decode
    {
      this.decode, db := decode, map[];
    }

    // -------------------------------------------------------------- one row

    method Put(table: Bytes, id: Bytes, value: Value, fails: bool) returns (e: Option<Error>)
      requires Valid() && table in Tables && |id| == 32 && RightKind(table, value)
      modifies this
      ensures Valid() && e == if fails then Some(WriteFailed) else None
      ensures Table(table) == if fails then old(Table(table)) else old(Table(table))[id := value]
      ensures forall other: Bytes | |other| == 8 && other != table :: Table(other) == old(Table(other))
    {
      if fails {
        return Some(WriteFailed);
      }
      PutWellFormed(db, table, id, value);
      PutTables(db, table, id, value);
      db := db[table + id := value];
      return None;
    }

    method Get(table: Bytes, id: Bytes) returns (r: Result<Value, Error>)
      requires Valid() && table in Tables && |id| == 32
      ensures r == if id in Table(table) then Ok(Table(table)[id]) else Err(NotFound)
      ensures r.Ok? ==> RightKind(table, r.value)
    {
      TableLookup(db, table, id);
      assert (table + id)[..8] == table;
      return if table + id in db then Ok(db[table + id]) else Err(NotFound);
    }

    // -------------------------------------------------------------- swaps

    /** The pending row is written first; neither row ever holds a password. */
    method PutSwap(blob: SwapBlob, firstFails: bool, secondFails: bool) returns (e: Option<Error>)
      requires Valid() && Canonical(blob.id)
      modifies this
      ensures Valid()
      ensures decode(blob.id).None? ==> e == Some(BadId) && db == old(db)
      ensures decode(blob.id).Some? ==>
                var id, row := decode(blob.id).value, SwapRow(blob.(password := ""));
                && (e.None? <==> !firstFails && !secondFails)
                && Table(TablePendingSwaps) ==
                   (if firstFails then old(Table(TablePendingSwaps)) else old(Table(TablePendingSwaps))[id := row])
                && Table(TableSwaps) ==
                   (if firstFails || secondFails then old(Table(TableSwaps)) else old(Table(TableSwaps))[id := row])
      ensures Table(TableSwapReceipts) == old(Table(TableSwapReceipts))
      ensures Table(TableTransfer) == old(Table(TableTransfer))
    {
      var row := SwapRow(blob.(password := ""));
      match decode(blob.id)
      case None =>
        return Some(BadId);
      case Some(id) =>
        e := Put(TablePendingSwaps, id, row, firstFails);
        if e.Some? {
          return;
        }
        e := Put(TableSwaps, id, row, secondFails);
    }

    method DeletePendingSwap(swapID: SwapID, fails: bool) returns (e: Option<Error>)
      requires Valid() && Canonical(swapID)
      modifies this
      ensures Valid()
      ensures e == if decode(swapID).None? then Some(BadId) else if fails then Some(WriteFailed) else None
      ensures Table(TablePendingSwaps) ==
              if e.Some? then old(Table(TablePendingSwaps)) else old(Table(TablePendingSwaps)) - {decode(swapID).value}
      ensures Table(TableSwaps) == old(Table(TableSwaps))
      ensures Table(TableSwapReceipts) == old(Table(TableSwapReceipts))
      ensures Table(TableTransfer) == old(Table(TableTransfer))
    {
      match decode(swapID)
      case None =>
        return Some(BadId);
      case Some(id) =>
        if fails {
          return Some(WriteFailed);
        }
        DeleteTables(db, TablePendingSwaps, id);
        db := db - {TablePendingSwaps + id};
        return None;
    }

    method PendingSwap(swapID: SwapID) returns (r: Result<SwapBlob, Error>)
      requires Valid() && Canonical(swapID)
      ensures r == match decode(swapID)
                   case None => Err(BadId)
                   case Some(id) =>
                     if id in Table(TablePendingSwaps) && Table(TablePendingSwaps)[id].SwapRow?
                     then Ok(Table(TablePendingSwaps)[id].blob) else Err(NotFound)
      ensures r.Ok? ==> r.value.password == ""
    {
      match decode(swapID)
      case None =>
        return Err(BadId);
      case Some(id) =>
        var row := Get(TablePendingSwaps, id);
        return match row case Ok(value) => Ok(value.blob) case Err(error) => Err(error);
    }

    // -------------------------------------------------------------- scans

    /** What an iterator has yielded so far are rows of the table, in ascending order. */
    ghost predicate Yielded(table: Bytes, ids: seq<Bytes>, values: seq<Value>)
      requires |table| == 8
      reads this
    {
      && |values| == |ids| && Ascending(ids)
      && (forall i | 0 <= i < |ids| :: ids[i] in Table(table) && ids[i] != LastId && values[i] == Table(table)[ids[i]])
    }

    /** The keys still ahead of it belong to the table and lie beyond what it has yielded. */
    ghost predicate Ahead(table: Bytes, ids: seq<Bytes>, todo: set<Bytes>)
      requires |table| == 8
      reads this
    {
      && (forall key | key in todo :: key in db && IsKey(key) && key[..8] == table && key[8..] != LastId)
      && (forall i, key | 0 <= i < |ids| && key in todo :: LexLess(ids[i], key[8..]))
    }

    ghost predicate Scanning(table: Bytes, ids: seq<Bytes>, values: seq<Value>, todo: set<Bytes>)
      requires |table| == 8
      reads this
    {
      && Yielded(table, ids, values) && Ahead(table, ids, todo)
      && (forall id | id in Table(table) && id != LastId :: id in ids || table + id in todo)
    }

    lemma ScanStart(table: Bytes, todo: set<Bytes>)
      requires Valid() && table in Tables
      requires todo == set key | key in db && InRange(key, RangeStart(table), RangeLimit(table))
      ensures Scanning(table, [], [], todo)
    {
      forall key | key in db
        ensures IsKey(key) && (key in todo <==> key[..8] == table && key[8..] != LastId)
      {
        RangeExact(table, key);
      }
      forall id | id in Table(table) && id != LastId ensures table + id in todo {
        TableLookup(db, table, id);
        assert (table + id)[..8] == table && (table + id)[8..] == id;
      }
    }

    lemma AheadNext(table: Bytes, ids: seq<Bytes>, todo: set<Bytes>, key: Bytes)
      requires |table| == 8 && Ahead(table, ids, todo)
      requires key in todo && forall k | k in todo && k != key :: LexLess(key, k)
      ensures Ahead(table, ids + [key[8..]], todo - {key})
    {
      var id := key[8..];
      assert key == table + id;
      forall k | k in todo - {key} ensures LexLess(id, k[8..]) {
        assert k == table + k[8..];
        LexSamePrefix(table, id, k[8..]);
      }
    }

    lemma YieldedNext(table: Bytes, ids: seq<Bytes>, values: seq<Value>, todo: set<Bytes>, key: Bytes)
      requires |table| == 8 && Yielded(table, ids, values) && Ahead(table, ids, todo) && key in todo
      ensures Yielded(table, ids + [key[8..]], values + [db[key]])
    {
      assert key == table + key[8..];
      TableLookup(db, table, key[8..]);
    }

    lemma ScanNext(table: Bytes, ids: seq<Bytes>, values: seq<Value>, todo: set<Bytes>, key: Bytes)
      requires |table| == 8 && Scanning(table, ids, values, todo)
      requires key in todo && forall k | k in todo && k != key :: LexLess(key, k)
      ensures Scanning(table, ids + [key[8..]], values + [db[key]], todo - {key})
    {
      AheadNext(table, ids, todo, key);
      YieldedNext(table, ids, values, todo, key);
      assert key == table + key[8..];
    }

    lemma ScanEnd(table: Bytes, ids: seq<Bytes>, values: seq<Value>)
      requires |table| == 8 && Scanning(table, ids, values, {})
      ensures ScanOrder(ids, Table(table))
    {
    }

    /** The iterator yields the rows of one table in ascending order of their identifiers. */
    method Scan(table: Bytes) returns (values: seq<Value>, ghost ids: seq<Bytes>)
      requires Valid() && table in Tables
      ensures ScanOrder(ids, Table(table)) && |values| == |ids|
      ensures forall i | 0 <= i < |ids| :: values[i] == Table(table)[ids[i]] && RightKind(table, values[i])
    {
      var todo := set key | key in db && InRange(key, RangeStart(table), RangeLimit(table));
      values, ids := [], [];
      ScanStart(table, todo);
      while todo != {}
        invariant Scanning(table, ids, values, todo)
        invariant forall i | 0 <= i < |values| :: RightKind(table, values[i])
        decreases |todo|
      {
        ghost var least := Least(todo);
        var key :| key in todo && forall k | k in todo && k != key :: LexLess(key, k);
        ScanNext(table, ids, values, todo, key);
        values, ids := values + [db[key]], ids + [key[8..]];
        todo := todo - {key};
      }
      ScanEnd(table, ids, values);
    }

    method PendingSwaps(fails: bool) returns (r: Result<seq<SwapBlob>, Error>, ghost ids: seq<Bytes>)
      requires Valid()
      ensures r.Err? <==> fails
      ensures r.Ok? ==>
                && ScanOrder(ids, Table(TablePendingSwaps)) && |r.value| == |ids|
                && forall i | 0 <= i < |ids| :: Table(TablePendingSwaps)[ids[i]] == SwapRow(r.value[i])
    {
      if fails {
        return Err(ReadFailed), [];
      }
      var values;
      values, ids := Scan(TablePendingSwaps);
      var blobs := [];
      for i := 0 to |values|
        invariant |blobs| == i && forall j | 0 <= j < i :: values[j] == SwapRow(blobs[j])
      {
        blobs := blobs + [values[i].blob];
      }
      r := Ok(blobs);
    }

    // -------------------------------------------------------------- receipts

    method PutReceipt(receipt: SwapReceipt, fails: bool) returns (e: Option<Error>)
      requires Valid() && Canonical(receipt.id)
      modifies this
      ensures Valid()
      ensures e == if decode(receipt.id).None? then Some(BadId) else if fails then Some(WriteFailed) else None
      ensures Table(TableSwapReceipts) ==
              if e.Some? then old(Table(TableSwapReceipts))
              else old(Table(TableSwapReceipts))[decode(receipt.id).value := ReceiptRow(receipt)]
      ensures Table(TableSwaps) == old(Table(TableSwaps))
      ensures Table(TablePendingSwaps) == old(Table(TablePendingSwaps))
      ensures Table(TableTransfer) == old(Table(TableTransfer))
    {
      match decode(receipt.id)
      case None => return Some(BadId);
      case Some(id) => e := Put(TableSwapReceipts, id, ReceiptRow(receipt), fails);
    }

    method Receipt(swapID: SwapID) returns (r: Result<SwapReceipt, Error>)
      requires Valid() && Canonical(swapID)
      ensures r == match decode(swapID)
                   case None => Err(BadId)
                   case Some(id) =>
                     if id in Table(TableSwapReceipts) && Table(TableSwapReceipts)[id].ReceiptRow?
                     then Ok(Table(TableSwapReceipts)[id].receipt) else Err(NotFound)
    {
      match decode(swapID)
      case None =>
        return Err(BadId);
      case Some(id) =>
        var row := Get(TableSwapReceipts, id);
        return match row case Ok(value) => Ok(value.receipt) case Err(error) => Err(error);
    }

    /** Reads, updates and writes back one receipt; an unknown swap is an error and changes nothing. */
    method UpdateReceipt(swapID: SwapID, update: SwapReceipt -> SwapReceipt, fails: bool) returns (e: Option<Error>)
      requires Valid() && Canonical(swapID)
      modifies this
      ensures Valid()
      ensures e == match decode(swapID)
                   case None => Some(BadId)
                   case Some(id) =>
                     if id !in old(Table(TableSwapReceipts)) then Some(NotFound)
                     else if fails then Some(WriteFailed) else None
      ensures e.Some? ==> Table(TableSwapReceipts) == old(Table(TableSwapReceipts))
      ensures e.None? ==>
                var id := decode(swapID).value;
                && old(Table(TableSwapReceipts)[id].ReceiptRow?)
                && Table(TableSwapReceipts) ==
                   old(Table(TableSwapReceipts))[id := ReceiptRow(update(old(Table(TableSwapReceipts)[id].receipt)))]
      ensures Table(TableSwaps) == old(Table(TableSwaps))
      ensures Table(TablePendingSwaps) == old(Table(TablePendingSwaps))
      ensures Table(TableTransfer) == old(Table(TableTransfer))
    {
      match decode(swapID)
      case None =>
        return Some(BadId);
      case Some(id) =>
        var row := Get(TableSwapReceipts, id);
        if row.Err? {
          return Some(row.error);
        }
        e := Put(TableSwapReceipts, id, ReceiptRow(update(row.value.receipt)), fails);
    }

    method Receipts(fails: bool) returns (r: Result<seq<SwapReceipt>, Error>, ghost ids: seq<Bytes>)
      requires Valid()
      ensures r.Err? <==> fails
      ensures r.Ok? ==>
                && ScanOrder(ids, Table(TableSwapReceipts)) && |r.value| == |ids|
                && forall i | 0 <= i < |ids| :: Table(TableSwapReceipts)[ids[i]] == ReceiptRow(r.value[i])
    {
      if fails {
        return Err(ReadFailed), [];
      }
      var values;
      values, ids := Scan(TableSwapReceipts);
      var receipts := [];
      for i := 0 to |values|
        invariant |receipts| == i && forall j | 0 <= j < i :: values[j] == ReceiptRow(receipts[j])
      {
        receipts := receipts + [values[i].receipt];
      }
      r := Ok(receipts);
    }

    /** A swap without a readable receipt starts from no recorded costs. */
    method LoadCosts(swapID: SwapID) returns (send: LoadedCost, receive: LoadedCost)
      requires Valid() && Canonical(swapID)
      ensures (send, receive) == match decode(swapID)
                                 case None => (map[], map[])
                                 case Some(id) => CostsIn(Table(TableSwapReceipts), id)
    {
      var receipt := Receipt(swapID);
      if receipt.Err? {
        return map[], map[];
      }
      send := Costs.CostBlobToCost(receipt.value.sendCost);
      receive := Costs.CostBlobToCost(receipt.value.receiveCost);
    }

    // -------------------------------------------------------------- transfers

    method PutTransfer(transfer: TransferReceipt, fails: bool) returns (e: Option<Error>)
      requires Valid()
      modifies this
      ensures Valid()
      ensures e == if TxHashToBytes(transfer.txHash).None? then Some(BadId)
                   else if fails then Some(WriteFailed) else None
      ensures Table(TableTransfer) ==
              if e.Some? then old(Table(TableTransfer))
              else old(Table(TableTransfer))[TxHashToBytes(transfer.txHash).value := TransferRow(transfer)]
      ensures Table(TableSwaps) == old(Table(TableSwaps))
      ensures Table(TablePendingSwaps) == old(Table(TablePendingSwaps))
      ensures Table(TableSwapReceipts) == old(Table(TableSwapReceipts))
    {
      match TxHashToBytes(transfer.txHash)
      case None => return Some(BadId);
      case Some(id) => e := Put(TableTransfer, id, TransferRow(transfer), fails);
    }

    method UpdateTransferReceipt(txHash: string, update: TransferReceipt -> TransferReceipt, fails: bool)
      returns (e: Option<Error>)
      requires Valid()
      modifies this
      ensures Valid()
      ensures e == match TxHashToBytes(txHash)
                   case None => Some(BadId)
                   case Some(id) =>
                     if id !in old(Table(TableTransfer)) then Some(NotFound)
                     else if fails then Some(WriteFailed) else None
      ensures e.Some? ==> Table(TableTransfer) == old(Table(TableTransfer))
      ensures e.None? ==>
                var id := TxHashToBytes(txHash).value;
                && old(Table(TableTransfer)[id].TransferRow?)
                && Table(TableTransfer) ==
                   old(Table(TableTransfer))[id := TransferRow(update(old(Table(TableTransfer)[id].transfer)))]
      ensures Table(TableSwaps) == old(Table(TableSwaps))
      ensures Table(TablePendingSwaps) == old(Table(TablePendingSwaps))
      ensures Table(TableSwapReceipts) == old(Table(TableSwapReceipts))
    {
      match TxHashToBytes(txHash)
      case None =>
        return Some(BadId);
      case Some(id) =>
        var row := Get(TableTransfer, id);
        if row.Err? {
          return Some(row.error);
        }
        e := Put(TableTransfer, id, TransferRow(update(row.value.transfer)), fails);
    }

    method Transfers(fails: bool) returns (r: Result<seq<TransferReceipt>, Error>, ghost ids: seq<Bytes>)
      requires Valid()
      ensures r.Err? <==> fails
      ensures r.Ok? ==>
                && ScanOrder(ids, Table(TableTransfer)) && |r.value| == |ids|
                && forall i | 0 <= i < |ids| :: Table(TableTransfer)[ids[i]] == TransferRow(r.value[i])
    {
      if fails {
        return Err(ReadFailed), [];
      }
      var values;
      values, ids := Scan(TableTransfer);
      var transfers := [];
      for i := 0 to |values|
        invariant |transfers| == i && forall j | 0 <= j < i :: values[j] == TransferRow(transfers[j])
      {
        transfers := transfers + [values[i].transfer];
      }
      r := Ok(transfers);
    }
  }
}
