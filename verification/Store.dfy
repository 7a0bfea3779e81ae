/**
 The daemon's storage: four tables kept side by side in one ordered key-value store, told
 apart by an eight-byte prefix, shown to behave as four independent maps.
 */
module Store {
  import opened Common
  import opened Swaps
  import opened LexOrder

  datatype TransferReceipt = TransferReceipt(
    confirmations: int, timestamp: int, passwordHash: string,
    to: string, from: string, token: Token, amount: string, txCost: CostBlob, txHash: string)

  /** A stored value, in the form it is written in and read back. */
  datatype Value = SwapRow(blob: SwapBlob) | ReceiptRow(receipt: SwapReceipt) | TransferRow(transfer: TransferReceipt)

  datatype Error = BadId | NotFound | ReadFailed | WriteFailed

  const TableSwaps: Bytes := [0, 0, 0, 0, 0, 0, 0, 0]
  const TablePendingSwaps: Bytes := [0, 0, 0, 0, 0, 0, 0, 1]
  const TableSwapReceipts: Bytes := [0, 0, 0, 0, 0, 0, 0, 2]
  const TableTransfer: Bytes := [0, 0, 0, 0, 0, 0, 0, 3]

  const Tables: set<Bytes> := {TableSwaps, TablePendingSwaps, TableSwapReceipts, TableTransfer}

  const LastId: Bytes := Repeat(0xff, 32)

  /** Keys are a table prefix followed by a 32-byte identifier. */
  predicate IsKey(key: Bytes) {
    |key| == 40 && key[..8] in Tables
  }

  predicate RightKind(table: Bytes, value: Value) {
    if table == TableSwapReceipts then value.ReceiptRow?
    else if table == TableTransfer then value.TransferRow?
    else value.SwapRow? && value.blob.password == ""
  }

  type Contents = map<Bytes, Value>

  predicate WellFormed(db: Contents) {
    forall key | key in db :: IsKey(key) && RightKind(key[..8], db[key])
  }

  // ---------------------------------------------------------------- the four maps

  function Ids(db: Contents, table: Bytes): set<Bytes> {
    set key | key in db && |key| == 40 && key[..8] == table :: key[8..]
  }

  /** One table of the store, as a map of its own. */
  ghost function TableOf(db: Contents, table: Bytes): map<Bytes, Value>
    requires |table| == 8
  {
    map id | id in Ids(db, table) && table + id in db :: db[table + id]
  }

  lemma TableLookup(db: Contents, table: Bytes, id: Bytes)
    requires |table| == 8 && |id| == 32
    ensures id in TableOf(db, table) <==> table + id in db
    ensures id in TableOf(db, table) ==> TableOf(db, table)[id] == db[table + id]
  {
  }

  lemma KeysApart(p: Bytes, q: Bytes, a: Bytes, b: Bytes)
    requires |p| == |q|
    ensures p + a == q + b <==> p == q && a == b
  {
    if p + a == q + b {
      assert (p + a)[..|p|] == p && (q + b)[..|p|] == q;
      assert (p + a)[|p|..] == a && (q + b)[|p|..] == b;
    }
  }

  lemma PutLookup(db: Contents, table: Bytes, id: Bytes, value: Value, other: Bytes, x: Bytes)
    requires |table| == 8 && |other| == 8 && |id| == 32 && |x| == 32
    ensures var t := TableOf(db[table + id := value], other);
            if other == table && x == id then x in t && t[x] == value
            else (x in t <==> x in TableOf(db, other)) && (x in t ==> t[x] == TableOf(db, other)[x])
  {
    KeysApart(table, other, id, x);
    TableLookup(db[table + id := value], other, x);
    TableLookup(db, other, x);
  }

  lemma DeleteLookup(db: Contents, table: Bytes, id: Bytes, other: Bytes, x: Bytes)
    requires |table| == 8 && |other| == 8 && |id| == 32 && |x| == 32
    ensures var t := TableOf(db - {table + id}, other);
            if other == table && x == id then x !in t
            else (x in t <==> x in TableOf(db, other)) && (x in t ==> t[x] == TableOf(db, other)[x])
  {
    KeysApart(table, other, id, x);
    TableLookup(db - {table + id}, other, x);
    TableLookup(db, other, x);
  }

  /** Two maps over identifiers are equal when they agree on each 32-byte one. */
  lemma SameTable(t: map<Bytes, Value>, u: map<Bytes, Value>)
    requires forall x | x in t || x in u :: |x| == 32
    requires forall x: Bytes | |x| == 32 :: (x in t <==> x in u) && (x in t ==> t[x] == u[x])
    ensures t == u
  {
  }

  /** Writing one table writes that map and no other. */
  lemma PutRefines(db: Contents, table: Bytes, id: Bytes, value: Value, other: Bytes)
    requires |table| == 8 && |other| == 8 && |id| == 32
    ensures TableOf(db[table + id := value], other) ==
            if other == table then TableOf(db, table)[id := value] else TableOf(db, other)
  {
    forall x: Bytes | |x| == 32 {
      PutLookup(db, table, id, value, other, x);
    }
    SameTable(TableOf(db[table + id := value], other),
              if other == table then TableOf(db, table)[id := value] else TableOf(db, other));
  }

  /** Deleting from one table deletes from that map and no other. */
  lemma DeleteRefines(db: Contents, table: Bytes, id: Bytes, other: Bytes)
    requires |table| == 8 && |other| == 8 && |id| == 32
    ensures TableOf(db - {table + id}, other) ==
            if other == table then TableOf(db, table) - {id} else TableOf(db, other)
  {
    forall x: Bytes | |x| == 32 {
      DeleteLookup(db, table, id, other, x);
    }
    SameTable(TableOf(db - {table + id}, other),
              if other == table then TableOf(db, table) - {id} else TableOf(db, other));
  }

  lemma PutTables(db: Contents, table: Bytes, id: Bytes, value: Value)
    requires |table| == 8 && |id| == 32
    ensures TableOf(db[table + id := value], table) == TableOf(db, table)[id := value]
    ensures forall other: Bytes | |other| == 8 && other != table ::
              TableOf(db[table + id := value], other) == TableOf(db, other)
  {
    PutRefines(db, table, id, value, table);
    forall other: Bytes | |other| == 8 && other != table
      ensures TableOf(db[table + id := value], other) == TableOf(db, other)
    {
      PutRefines(db, table, id, value, other);
    }
  }

  lemma DeleteTables(db: Contents, table: Bytes, id: Bytes)
    requires |table| == 8 && |id| == 32
    ensures TableOf(db - {table + id}, table) == TableOf(db, table) - {id}
    ensures forall other: Bytes | |other| == 8 && other != table ::
              TableOf(db - {table + id}, other) == TableOf(db, other)
  {
    DeleteRefines(db, table, id, table);
    forall other: Bytes | |other| == 8 && other != table
      ensures TableOf(db - {table + id}, other) == TableOf(db, other)
    {
      DeleteRefines(db, table, id, other);
    }
  }

  lemma PutWellFormed(db: Contents, table: Bytes, id: Bytes, value: Value)
    requires WellFormed(db) && table in Tables && |id| == 32 && RightKind(table, value)
    ensures WellFormed(db[table + id := value])
  {
  }

  // ---------------------------------------------------------------- range scans

  function RangeStart(table: Bytes): Bytes {
    table + Repeat(0, 32)
  }

  function RangeLimit(table: Bytes): Bytes {
    table + Repeat(0xff, 32)
  }

  predicate InRange(key: Bytes, start: Bytes, limit: Bytes) {
    !LexLess(key, start) && LexLess(key, limit)
  }

  /** A table's range holds exactly the keys of that table, but for the one with the last identifier. */
  lemma RangeExact(table: Bytes, key: Bytes)
    requires table in Tables && IsKey(key)
    ensures InRange(key, RangeStart(table), RangeLimit(table)) <==> key[..8] == table && key[8..] != LastId
  {
    var p, id := key[..8], key[8..];
    assert key == p + id;
    if p == table {
      LexSamePrefix(table, id, Repeat(0, 32));
      LexSamePrefix(table, id, Repeat(0xff, 32));
      NothingBelowZeros(id);
      BelowTheTop(id);
    } else {
      LexOtherPrefix(p, table, id, Repeat(0, 32));
      LexOtherPrefix(p, table, id, Repeat(0xff, 32));
      LexTotal(p, table);
      if LexLess(p, table) && LexLess(table, p) {
        LexTransitive(p, table, p);
        LexIrreflexive(p);
      }
    }
  }

  predicate Ascending(keys: seq<Bytes>) {
    forall i, j | 0 <= i < j < |keys| :: LexLess(keys[i], keys[j])
  }

  /** The identifiers a scan of one table visits, in order: every one but the last possible. */
  ghost predicate ScanOrder(ids: seq<Bytes>, table: map<Bytes, Value>) {
    Ascending(ids) && (forall id :: id in ids <==> id in table && id != LastId)
  }
}
