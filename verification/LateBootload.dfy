/**
 What depends on the handler's promise that a password is bootloaded before its first swap:
 without it, and only without it, a swap can end up with two live requests.
 */
module LateBootload {
  import opened Swaps
  import opened Tasks
  import opened TaskSystem
  import opened Recovery

  lemma {:induction false} ResendAbsent(s: Sys, order: seq<SwapID>, password: string, id: SwapID)
    requires RowsOk(s) && id !in order
    ensures Tokens(Resend(s, order, password), id) == Tokens(s, id)
    decreases |order|
  {
    if order != [] {
      var s' := if order[0] in s.pending then SendMine(s, s.pending[order[0]], password) else s;
      if order[0] in s.pending && Mine(s, s.pending[order[0]], password) {
        SendTokens(s, s.pending[order[0]].(password := password));
      }
      ResendAbsent(s', order[1..], password, id);
    }
  }

  lemma {:induction false} ResendFinds(s: Sys, order: seq<SwapID>, password: string, id: SwapID)
    requires RowsOk(s) && id in s.pending && Mine(s, s.pending[id], password)
    requires id in order && forall i, j | 0 <= i < j < |order| :: order[i] != order[j]
    ensures Tokens(Resend(s, order, password), id) == Tokens(s, id) + 1
    decreases |order|
  {
    var first := order[0];
    var s' := if first in s.pending then SendMine(s, s.pending[first], password) else s;
    if first in s.pending && Mine(s, s.pending[first], password) {
      SendTokens(s, s.pending[first].(password := password));
    }
    if first == id {
      ResendAbsent(s', order[1..], password, id);
    } else {
      ResendFinds(s', order[1..], password, id);
    }
  }

  lemma {:induction false} Enumerate(keys: set<SwapID>) returns (order: seq<SwapID>)
    ensures forall id :: id in order <==> id in keys
    ensures forall i, j | 0 <= i < j < |order| :: order[i] != order[j]
    decreases |keys|
  {
    order := [];
    if keys != {} {
      var first :| first in keys;
      var rest := Enumerate(keys - {first});
      order := [first] + rest;
    }
  }

  /** `t` is `s` with a shorter inbox; nothing that matters to the swap `id` has changed. */
  ghost predicate SameFor(t: Sys, s: Sys, id: SwapID) {
    && t.matches == s.matches && t.pending == s.pending && t.posted == s.posted && t.passwords == s.passwords
    && t.booted == s.booted
    && ChildTokens(t.delayed, id) == ChildTokens(s.delayed, id)
    && ChildTokens(t.immediate, id) == ChildTokens(s.immediate, id)
  }

  /** Whatever the message, its first write failing makes it go without a trace. */
  lemma LoseNext(s: Sys, id: SwapID)
    requires s.inbox != []
    ensures var s' := Step(s, ParentInbox(FirstWriteFails, []));
            s'.inbox == s.inbox[1..] && SameFor(s', s, id)
  {
    if s.inbox[0].Tick? {
      TickTokens(s.(inbox := s.inbox[1..]), id);
    }
  }

  /** Storage errors empty the inbox up to its last message without any effect on the rows. */
  lemma {:induction false} Drain(s: Sys, last: In, id: SwapID) returns (acts: seq<Action>)
    requires s.inbox != [] && s.inbox[|s.inbox| - 1] == last
    ensures Run(s, acts).inbox == [last] && SameFor(Run(s, acts), s, id)
    decreases |s.inbox|
  {
    acts := [];
    if |s.inbox| > 1 {
      var lost := ParentInbox(FirstWriteFails, []);
      var s' := Step(s, lost);
      LoseNext(s, id);
      var rest := Drain(s', last, id);
      acts := [lost] + rest;
      assert acts[1..] == rest;
    }
  }

  /** Rows and history are the same, and so is who has been bootloaded. */
  ghost predicate SameHistory(t: Sys, s: Sys) {
    t.matches == s.matches && t.posted == s.posted && t.passwords == s.passwords
  }

  /** The swap is stored and sent to its child. */
  lemma SentOnce(s: Sys, blob: SwapBlob)
    requires s.inbox == [Submit(blob)] && RowsOk(s) && Owned(s, blob)
    requires ChildTokens(s.delayed, blob.id) == 0 && ChildTokens(s.immediate, blob.id) == 0
    ensures var r := Step(s, ParentInbox(NoFault, []));
            && r.inbox == [] && Tokens(r, blob.id) == 1 && RowsOk(r) && r.booted == s.booted && SameHistory(r, s)
            && blob.id in r.pending && r.pending[blob.id] == blob.(password := "")
  {
    var s0 := s.(inbox := []);
    assert s.inbox[1..] == [];
    HandleSwapRequestTokens(s0, blob, NoFault, blob.id);
  }

  /** Then its owner is bootloaded, and it is sent again. */
  lemma SentAgain(s: Sys, blob: SwapBlob) returns (acts: seq<Action>)
    requires s.inbox == [] && RowsOk(s) && blob.password !in s.booted && s.matches(blob.passwordHash, blob.password)
    requires blob.id in s.pending && s.pending[blob.id] == blob.(password := "") && Tokens(s, blob.id) == 1
    ensures Tokens(Run(s, acts), blob.id) == 2 && Run(s, acts).posted == s.posted && Run(s, acts).matches == s.matches
    ensures blob.password in s.passwords ==> SameHistory(Run(s, acts), s)
  {
    var booted := Step(s, PostBoot(blob.password));
    assert booted.inbox == [Boot(blob.password)] && booted.inbox[1..] == [];
    var t := booted.(inbox := []);
    assert Tokens(t, blob.id) == Tokens(s, blob.id);
    var order := Enumerate(s.pending.Keys);
    ResendFinds(t, order, blob.password, blob.id);
    ResendHistory(t, order, blob.password);
    acts := [PostBoot(blob.password), ParentInbox(NoFault, order)];
    RunTwo(s, acts[0], acts[1]);
  }

  lemma RunTwo(s: Sys, x: Action, y: Action)
    ensures Run(s, [x, y]) == Step(Step(s, x), y)
  {
    assert [x, y][1..] == [y];
    assert [y][1..] == [];
    assert Run(Step(s, x), [y]) == Step(Step(s, x), y);
  }

  lemma UnbootedPostDoubles(s: Sys, blob: SwapBlob) returns (acts: seq<Action>)
    requires Inv(s) && blob.id !in s.posted && s.matches(blob.passwordHash, blob.password) && blob.password !in s.booted
    ensures var r := Run(Posted(s, blob), acts);
            && Tokens(r, blob.id) == 2 && r.matches == s.matches
            && r.posted == Posted(s, blob).posted && r.passwords == Posted(s, blob).passwords
  {
    var u := Posted(s, blob);
    assert Tokens(s, blob.id) == 0;
    var drain := Drain(u, Submit(blob), blob.id);
    var d := Run(u, drain);
    assert RowsOk(d);
    var store := [ParentInbox(NoFault, [])];
    assert store[1..] == [];
    SentOnce(d, blob);
    var again := SentAgain(Run(d, store), blob);
    RunAppend(d, store, again);
    RunAppend(u, drain, store + again);
    acts := drain + (store + again);
  }

  /**
   Posting a fresh swap, in any reachable state and whether or not its owner has been bootloaded,
   leaves every swap with at most one live request in all futures exactly when the owner's
   bootload was delivered before. The handler does post without it when that delivery failed.
   */
  lemma LateBootloadExact(s: Sys, before: seq<Action>, blob: SwapBlob)
    requires Initial(s) && blob.id !in Run(s, before).posted
    requires blob.passwordHash != "" && s.matches(blob.passwordHash, blob.password)
    requires SingleOwner(Posted(Run(s, before), blob))
    ensures var u := Posted(Run(s, before), blob);
            (forall acts, id | SingleOwner(Run(u, acts)) :: Tokens(Run(u, acts), id) <= 1)
            <==> blob.password in Run(s, before).booted
  {
    var v := Run(s, before);
    var u := Posted(v, blob);
    RunHistory(s, before);
    assert SingleOwner(v) by {
      assert forall id | id in v.posted :: id in u.posted && u.posted[id] == v.posted[id];
    }
    RunInv(s, before);
    if blob.password in v.booted {
      assert Step(v, PostSwap(blob)) == u;
      StepInv(v, PostSwap(blob));
      forall acts, id | SingleOwner(Run(u, acts)) ensures Tokens(Run(u, acts), id) <= 1 {
        RunInv(u, acts);
      }
    } else {
      var acts := UnbootedPostDoubles(v, blob);
      assert SingleOwner(Run(u, acts));
    }
  }
}
