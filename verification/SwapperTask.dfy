/**
 The parent swapper: it stores swaps, routes them to its two children, resends the pending
 ones on a bootload, and forgets the finished ones. Its methods work on the byte-level store
 and are shown to be the parent's steps of the task system.
 */
module SwapperTask {
  import opened Common
  import opened Swaps
  import opened Tasks
  import opened TaskSystem
  import opened Store
  import opened Database

  /** What the immediate child is sent: a swap together with the costs recorded for it so far. */
  datatype Outgoing = SwapRequest(blob: SwapBlob, sendCost: LoadedCost, receiveCost: LoadedCost) | TickRequest

  function ToDown(m: Outgoing): Down {
    match m
    case SwapRequest(blob, _, _) => Request(blob)
    case TickRequest => TickDown
  }

  function ToDowns(ms: seq<Outgoing>): seq<Down> {
    seq(|ms|, i requires 0 <= i < |ms| => ToDown(ms[i]))
  }

  // ---------------------------------------------------------------- rows by swap ID

  /** Every pending row is stored under the identifier its own ID decodes to. */
  ghost predicate NamedRows(decode: SwapID -> Option<Bytes>, table: map<Bytes, Value>) {
    forall id | id in table :: table[id].SwapRow? && decode(table[id].blob.id) == Some(id)
  }

  function Names(table: map<Bytes, Value>): set<SwapID> {
    set id | id in table && table[id].SwapRow? :: table[id].blob.id
  }

  ghost function Rows(decode: SwapID -> Option<Bytes>, table: map<Bytes, Value>): map<SwapID, SwapBlob>
    requires NamedRows(decode, table)
  {
    map name | name in Names(table) && decode(name).Some? && decode(name).value in table ::
      table[decode(name).value].blob
  }

  /** An ID decodes to 32 bytes, if at all, and is the spelling the row stored under them has. */
  predicate Spelled(decode: SwapID -> Option<Bytes>, table: map<Bytes, Value>, name: SwapID) {
    decode(name).Some? ==>
      && |decode(name).value| == 32
      && (decode(name).value in table ==>
           table[decode(name).value].SwapRow? && table[decode(name).value].blob.id == name)
  }

  lemma RowLookup(decode: SwapID -> Option<Bytes>, table: map<Bytes, Value>, name: SwapID)
    requires NamedRows(decode, table)
    ensures name in Rows(decode, table) <==> name in Names(table)
    ensures name in Rows(decode, table) ==>
              && decode(name).Some? && decode(name).value in table
              && Rows(decode, table)[name] == table[decode(name).value].blob && Rows(decode, table)[name].id == name
  {
  }

  lemma RowsPut(decode: SwapID -> Option<Bytes>, table: map<Bytes, Value>, row: SwapBlob)
    requires NamedRows(decode, table) && Spelled(decode, table, row.id) && decode(row.id).Some?
    ensures var table' := table[decode(row.id).value := SwapRow(row)];
            NamedRows(decode, table') && Rows(decode, table') == Rows(decode, table)[row.id := row]
  {
    var key := decode(row.id).value;
    var table' := table[key := SwapRow(row)];
    assert key in table';
    forall name: SwapID
      ensures name in Rows(decode, table') <==> name in Rows(decode, table)[row.id := row]
      ensures name in Rows(decode, table') ==> Rows(decode, table')[name] == Rows(decode, table)[row.id := row][name]
    {
      RowLookup(decode, table', name);
      RowLookup(decode, table, name);
      if name in Names(table) && name != row.id {
        assert decode(name).value in table';
      }
    }
  }

  lemma RowsDelete(decode: SwapID -> Option<Bytes>, table: map<Bytes, Value>, name: SwapID)
    requires NamedRows(decode, table) && Spelled(decode, table, name) && decode(name).Some?
    ensures var table' := table - {decode(name).value};
            NamedRows(decode, table') && Rows(decode, table') == Rows(decode, table) - {name}
  {
    var table' := table - {decode(name).value};
    forall other: SwapID
      ensures other in Rows(decode, table') <==> other in Rows(decode, table) - {name}
      ensures other in Rows(decode, table') ==> Rows(decode, table')[other] == Rows(decode, table)[other]
    {
      RowLookup(decode, table', other);
      RowLookup(decode, table, other);
      if other in Names(table) && other != name {
        assert decode(other).value in table';
      }
    }
  }

  // ---------------------------------------------------------------- bootload

  function RowIds(rows: seq<SwapBlob>): seq<SwapID> {
    seq(|rows|, i requires 0 <= i < |rows| => rows[i].id)
  }

  lemma {:induction false} ResendSnoc(s: Sys, order: seq<SwapID>, id: SwapID, password: string)
    ensures var r := Resend(s, order, password);
            r.pending == s.pending && r.matches == s.matches
            && Resend(s, order + [id], password) ==
               if id in s.pending then SendMine(r, s.pending[id], password) else r
    decreases |order|
  {
    if order == [] {
      assert order + [id] == [id];
      assert [id][1..] == [];
    } else {
      assert (order + [id])[1..] == order[1..] + [id];
      var s' := if order[0] in s.pending then SendMine(s, s.pending[order[0]], password) else s;
      ResendSnoc(s', order[1..], id, password);
    }
  }

  /** The swaps whose receipts a bootload marks active: the owner's, in the order of the scan. */
  function MineIds(s: Sys, order: seq<SwapID>, password: string): seq<SwapID> {
    if order == [] then []
    else
      var n := |order| - 1;
      MineIds(s, order[..n], password)
      + if order[n] in s.pending && Mine(s, s.pending[order[n]], password) then [order[n]] else []
  }

  /** A row is the owner's when its hash matches the password, and anybody's when it has none. */
  predicate Owns(s: Sys, password: string, id: SwapID) {
    id in s.pending && (s.pending[id].passwordHash == "" || s.matches(s.pending[id].passwordHash, password))
  }

  ghost predicate ActivatesOwners(s: Sys, order: seq<SwapID>, password: string, activated: seq<SwapID>) {
    forall id :: id in activated <==> id in order && Owns(s, password, id)
  }

  lemma {:induction false} MineIdsExact(s: Sys, order: seq<SwapID>, password: string)
    ensures ActivatesOwners(s, order, password, MineIds(s, order, password))
    decreases |order|
  {
    if order != [] {
      var n := |order| - 1;
      MineIdsExact(s, order[..n], password);
      assert order == order[..n] + [order[n]];
    }
  }

  lemma BootloadStep(s: Sys, order: seq<SwapID>, i: nat, password: string)
    requires i < |order| && order[i] in s.pending
    ensures var r := Resend(s, order[..i], password);
            var row := s.pending[order[i]];
            && Mine(r, row, password) == Mine(s, row, password)
            && Resend(s, order[..i + 1], password) == SendMine(r, row, password)
            && MineIds(s, order[..i + 1], password) ==
               MineIds(s, order[..i], password) + if Mine(s, row, password) then [order[i]] else []
  {
    ResendSnoc(s, order[..i], order[i], password);
    assert order[..i + 1] == order[..i] + [order[i]];
    assert order[..i + 1][..i] == order[..i];
  }

  /** The scan names every pending row once, the last possible identifier aside. */
  lemma ScanNames(decode: SwapID -> Option<Bytes>, table: map<Bytes, Value>, ids: seq<Bytes>, rows: seq<SwapBlob>)
    requires NamedRows(decode, table)
    requires ScanOrder(ids, table) && |rows| == |ids|
    requires forall i | 0 <= i < |ids| :: table[ids[i]] == SwapRow(rows[i])
    ensures forall i | 0 <= i < |rows| ::
        rows[i].id in Rows(decode, table) && Rows(decode, table)[rows[i].id] == rows[i]
    ensures forall i | 0 <= i < |rows| :: decode(rows[i].id) == Some(ids[i])
    ensures TaskSystem.Scan(RowIds(rows), Rows(decode, table)) <==> LastId !in table
  {
    var order := RowIds(rows);
    forall i | 0 <= i < |rows|
      ensures order[i] in Rows(decode, table) && Rows(decode, table)[order[i]] == rows[i]
      ensures decode(order[i]) == Some(ids[i])
    {
      assert ids[i] in table;
      RowLookup(decode, table, order[i]);
    }
    forall i, j | 0 <= i < j < |rows| ensures order[i] != order[j] {
      LexOrder.LexIrreflexive(ids[i]);
      assert decode(order[i]) == Some(ids[i]) && decode(order[j]) == Some(ids[j]);
    }
    if LastId !in table {
      forall name | name in Rows(decode, table) ensures name in order {
        RowLookup(decode, table, name);
        var i :| 0 <= i < |ids| && ids[i] == decode(name).value;
        assert decode(order[i]) == decode(name);
      }
    } else {
      var name := table[LastId].blob.id;
      RowLookup(decode, table, name);
    }
  }

  class Parent {
    const matches: (string, string) -> bool
    const storage: Db
    var toDelayed: seq<Down>
    var toImmediate: seq<Outgoing>

    ghost predicate Valid()
      reads this, storage
    {
      storage.Valid() && NamedRows(storage.decode, storage.Table(TablePendingSwaps))
    }

    /** The task system `s` as this object sees it: its own queues and rows put in place of those of `s`. */
    ghost function On(s: Sys): Sys
      requires Valid()
      reads this, storage
    {
      s.(matches := matches, pending := Pending(),
         delayed := s.delayed.(queue := toDelayed), immediate := s.immediate.(queue := ToDowns(toImmediate)))
    }

    constructor (matches: (string, string) -> bool, storage: Db)
      requires storage.Valid() && NamedRows(storage.decode, storage.Table(TablePendingSwaps))
      ensures Valid() && this.storage == storage && this.matches == matches && toDelayed == [] && toImmediate == []
    {
      this.matches, this.storage, toDelayed, toImmediate := matches, storage, [], [];
    }

    /** From position `start` on, every request carries the costs its receipt records. */
    ghost predicate CostsFrom(start: nat)
      requires Valid()
      reads this, storage
    {
      forall i | start <= i < |toImmediate| && toImmediate[i].SwapRequest? ::
        var id := storage.decode(toImmediate[i].blob.id);
        id.Some? ==>
          (toImmediate[i].sendCost, toImmediate[i].receiveCost) == CostsIn(storage.Table(TableSwapReceipts), id.value)
    }

    /** The ID is one of the spellings the store may be asked about. */
    ghost predicate Plain(id: SwapID)
      reads this, storage
    {
      Spelled(storage.decode, storage.Table(TablePendingSwaps), id)
    }

    function FaultOf(blob: SwapBlob, firstFails: bool, secondFails: bool): Fault {
      if storage.decode(blob.id).None? || firstFails then FirstWriteFails
      else if secondFails then SecondWriteFails
      else NoFault
    }

    /** Hands one swap to the child its delay flag names. */
    method Route(blob: SwapBlob, ghost s: Sys, ghost from: nat)
      requires Valid() && from <= |toImmediate| && CostsFrom(from) && storage.Canonical(blob.id)
      modifies this
      ensures Valid() && On(s) == Send(old(On(s)), blob)
      ensures from <= |toImmediate| && CostsFrom(from)
    {
      if blob.delay {
        toDelayed := toDelayed + [Request(blob)];
      } else {
        var send, receive := storage.LoadCosts(blob.id);
        Enqueue(SwapRequest(blob, send, receive), s, from);
      }
    }

    method Enqueue(m: Outgoing, ghost s: Sys, ghost from: nat)
      requires Valid() && from <= |toImmediate| && CostsFrom(from)
      requires m.SwapRequest? && storage.decode(m.blob.id).Some? ==>
                 (m.sendCost, m.receiveCost)
                   == CostsIn(storage.Table(TableSwapReceipts), storage.decode(m.blob.id).value)
      modifies this
      ensures Valid() && from <= |toImmediate| && CostsFrom(from)
      ensures toDelayed == old(toDelayed) && toImmediate == old(toImmediate) + [m]
    {
      toImmediate := toImmediate + [m];
    }

    method Persist(blob: SwapBlob, firstFails: bool, secondFails: bool) returns (e: Option<Error>)
      requires Valid() && Plain(blob.id)
      modifies storage
      ensures Valid() && (e.None? <==> FaultOf(blob, firstFails, secondFails).NoFault?)
      ensures Pending() == if FaultOf(blob, firstFails, secondFails).FirstWriteFails? then old(Pending())
                           else PutSwap(old(Pending()), blob)
    {
      if storage.decode(blob.id).Some? {
        RowsPut(storage.decode, storage.Table(TablePendingSwaps), blob.(password := ""));
      }
      e := storage.PutSwap(blob, firstFails, secondFails);
    }

    method HandleSwapRequest(blob: SwapBlob, firstFails: bool, secondFails: bool, ghost s: Sys)
        returns (e: Option<Error>)
      requires Valid() && Plain(blob.id)
      modifies this, storage
      ensures Valid()
      ensures On(s) == TaskSystem.HandleSwapRequest(old(On(s)), blob, FaultOf(blob, firstFails, secondFails))
      ensures e.None? <==> FaultOf(blob, firstFails, secondFails).NoFault?
      ensures old(|toImmediate|) <= |toImmediate| && CostsFrom(old(|toImmediate|))
    {
      e := Persist(blob, firstFails, secondFails);
      if e.None? {
        Route(blob, s, |toImmediate|);
      }
    }

    ghost function Pending(): map<SwapID, SwapBlob>
      requires Valid()
      reads this, storage
    {
      Rows(storage.decode, storage.Table(TablePendingSwaps))
    }

    method Forget(id: SwapID, fails: bool) returns (e: Option<Error>)
      requires Valid() && Plain(id)
      modifies storage
      ensures Valid() && (e.Some? <==> fails || storage.decode(id).None?)
      ensures Pending() == if e.Some? then old(Pending()) else old(Pending()) - {id}
    {
      if fails || storage.decode(id).None? {
        e := storage.DeletePendingSwap(id, fails);
        return;
      }
      RowsDelete(storage.decode, storage.Table(TablePendingSwaps), id);
      e := storage.DeletePendingSwap(id, false);
    }

    method HandleDeleteSwap(id: SwapID, fails: bool, ghost s: Sys) returns (e: Option<Error>)
      requires Valid() && Plain(id)
      modifies storage
      ensures Valid() && (e.Some? <==> fails || storage.decode(id).None?)
      ensures On(s) == TaskSystem.HandleDelete(old(On(s)), id, if e.None? then NoFault else FirstWriteFails)
    {
      e := Forget(id, fails);
    }

    method HandleTick(ghost s: Sys)
      requires Valid()
      modifies this
      ensures Valid() && On(s) == TaskSystem.HandleTick(old(On(s)))
      ensures toDelayed == old(toDelayed) + [TickDown] && toImmediate == old(toImmediate) + [TickRequest]
    {
      toImmediate := toImmediate + [TickRequest];
      toDelayed := toDelayed + [TickDown];
    }

    /** One row of a bootload: sent with the password put back if it is the owner's. */
    method ResendRow(row: SwapBlob, password: string, ghost s: Sys, ghost from: nat) returns (mine: bool)
      requires Valid() && from <= |toImmediate| && CostsFrom(from) && storage.Canonical(row.id)
      modifies this
      ensures Valid() && from <= |toImmediate| && CostsFrom(from)
      ensures mine == Mine(old(On(s)), row, password)
      ensures On(s) == SendMine(old(On(s)), row, password)
    {
      mine := row.passwordHash == "" || matches(row.passwordHash, password);
      if mine {
        Route(row.(password := password), s, from);
      }
    }

    /** The first `i` rows of `order` have been handled, and `activated` names the owner's among them. */
    ghost predicate Resent(s: Sys, was: Sys, order: seq<SwapID>, i: nat, password: string, activated: seq<SwapID>)
      requires i <= |order|
      reads this, storage
    {
      && Valid() && On(s) == Resend(was, order[..i], password)
      && activated == MineIds(was, order[..i], password)
    }

    /** One turn of the walk. */
    method ResendNext(row: SwapBlob, password: string, activated: seq<SwapID>,
                      ghost s: Sys, ghost was: Sys, ghost order: seq<SwapID>, ghost i: nat, ghost from: nat)
      returns (more: seq<SwapID>)
      requires i < |order| && Resent(s, was, order, i, password, activated)
      requires order[i] == row.id && row.id in was.pending && was.pending[row.id] == row && storage.Canonical(row.id)
      requires from <= |toImmediate| && CostsFrom(from)
      modifies this
      ensures Resent(s, was, order, i + 1, password, more)
      ensures from <= |toImmediate| && CostsFrom(from)
    {
      BootloadStep(was, order, i, password);
      var mine := ResendRow(row, password, s, from);
      more := if mine then activated + [row.id] else activated;
    }

    method ResendRows(rows: seq<SwapBlob>, password: string, ghost s: Sys, ghost was: Sys)
      returns (activated: seq<SwapID>)
      requires Valid() && was == On(s)
      requires forall i | 0 <= i < |rows| :: rows[i].id in was.pending && was.pending[rows[i].id] == rows[i]
      requires forall i | 0 <= i < |rows| :: storage.Canonical(rows[i].id)
      modifies this
      ensures Resent(s, was, RowIds(rows), |rows|, password, activated)
      ensures old(|toImmediate|) <= |toImmediate| && CostsFrom(old(|toImmediate|))
    {
      ghost var order, from := RowIds(rows), |toImmediate|;
      activated := [];
      for i := 0 to |rows|
        invariant Resent(s, was, order, i, password, activated)
        invariant from <= |toImmediate| && CostsFrom(from)
      {
        activated := ResendNext(rows[i], password, activated, s, was, order, i, from);
      }
    }

    /**
     One walk over the pending rows in the order of the store. Every row of the owner is sent
     to its child with the password put back, and its receipt is marked active; the walk is a
     full scan exactly when no swap has the last possible identifier.
     */
    method HandleBootload(password: string, fails: bool, ghost s: Sys)
      returns (e: Option<Error>, activated: seq<SwapID>, ghost order: seq<SwapID>)
      requires Valid()
      modifies this
      ensures Valid() && (e.Some? <==> fails)
      ensures e.Some? ==> On(s) == old(On(s))
      ensures e.None? ==>
                && On(s) == Resend(old(On(s)), order, password)
                && activated == MineIds(old(On(s)), order, password)
                && ActivatesOwners(old(On(s)), order, password, activated)
                && (TaskSystem.Scan(order, old(On(s)).pending) <==> LastId !in storage.Table(TablePendingSwaps))
      ensures old(|toImmediate|) <= |toImmediate| && CostsFrom(old(|toImmediate|))
    {
      var rows, ids := storage.PendingSwaps(fails);
      if rows.Err? {
        return Some(rows.error), [], [];
      }
      ScanNames(storage.decode, storage.Table(TablePendingSwaps), ids, rows.value);
      e, order := None, RowIds(rows.value);
      ghost var was := On(s);
      activated := ResendRows(rows.value, password, s, was);
      assert order[..|rows.value|] == order;
      MineIdsExact(was, order, password);
    }

    predicate Named(msg: Up) {
      match msg
      case Filled(blob) => storage.decode(blob.id).Some?
      case Delete(id) => storage.decode(id).Some?
      case _ => true
    }

    /** A message from a child. Receipts and errors are passed on, and so are the errors of the store. */
    method ReduceUp(msg: Up, firstFails: bool, secondFails: bool, ghost s: Sys)
      returns (out: seq<Up>, ghost fault: Fault)
      requires Valid() && (msg.Filled? ==> Plain(msg.blob.id)) && (msg.Delete? ==> Plain(msg.id))
      modifies this, storage
      ensures Valid() && On(s) == HandleUp(old(On(s)), msg, fault)
      ensures firstFails || secondFails || fault.NoFault? || !Named(msg)
      ensures out == if msg.Receipt? || msg.Failure? then [msg] else if fault.NoFault? then [] else [Failure]
    {
      match msg
      case Filled(blob) =>
        fault := FaultOf(blob, firstFails, secondFails);
        var e := HandleSwapRequest(blob, firstFails, secondFails, s);
        out := if e.None? then [] else [Failure];
      case Delete(id) =>
        var e := HandleDeleteSwap(id, firstFails, s);
        fault := if e.None? then NoFault else FirstWriteFails;
        out := if e.None? then [] else [Failure];
      case _ =>
        out, fault := [msg], NoFault;
    }
  }
}
