/** What walking a child's map during a tick amounts to, whatever the order of the walk. */
module TickLoops {
  import opened Swaps
  import opened Tasks

  predicate Keyed(live: map<SwapID, SwapBlob>) {
    forall id | id in live :: live[id].id == id
  }

  predicate Distinct(walk: seq<SwapID>) {
    forall i, j | 0 <= i < j < |walk| :: walk[i] != walk[j]
  }

  /** An order in which the map may be walked: every key once. */
  ghost predicate Walks(walk: seq<SwapID>, live: map<SwapID, SwapBlob>) {
    Distinct(walk) && (forall id :: id in walk <==> id in live)
  }

  function AllUps(live: map<SwapID, SwapBlob>, walk: seq<SwapID>, effect: SwapBlob -> Effect): seq<Up>
    requires forall id | id in walk :: id in live
  {
    if walk == [] then [] else effect(live[walk[0]]).ups + AllUps(live, walk[1..], effect)
  }

  /** What is left of the map once the requests of `walk` have been handled. */
  function Left(live: map<SwapID, SwapBlob>, walk: seq<SwapID>, effect: SwapBlob -> Effect): map<SwapID, SwapBlob> {
    map id | id in live && !(id in walk && effect(live[id]).fate.Released?) :: live[id]
  }

  lemma Remaining(c: Child, walk: seq<SwapID>, effect: SwapBlob -> Effect)
    requires walk != [] && Keyed(c.live) && walk[0] in c.live && walk[0] !in walk[1..]
    ensures var c' := Handle(c, c.live[walk[0]], effect(c.live[walk[0]]));
            Left(c'.live, walk[1..], effect) == Left(c.live, walk, effect)
  {
  }

  lemma {:induction false} WalkPart(c: Child, walk: seq<SwapID>, effect: SwapBlob -> Effect,
      live: map<SwapID, SwapBlob>)
    requires Keyed(c.live) && Distinct(walk)
    requires forall id | id in walk :: id in c.live && id in live && c.live[id] == live[id]
    ensures var r := HandleAll(c, walk, effect);
            && r.queue == c.queue
            && r.live == Left(c.live, walk, effect)
            && r.up == c.up + AllUps(live, walk, effect)
    decreases |walk|
  {
    if walk == [] {
      assert c.up + [] == c.up;
    } else {
      var id := walk[0];
      var e := effect(c.live[id]);
      var c' := Handle(c, c.live[id], e);
      assert id !in walk[1..];
      WalkPart(c', walk[1..], effect, live);
      Remaining(c, walk, effect);
      assert c.up + AllUps(live, walk, effect) == c'.up + AllUps(live, walk[1..], effect);
    }
  }

  /**
   Although entries are rewritten and deleted during the walk, every request present at the
   start is handled exactly once, and the map afterwards holds exactly those that were not
   released, unchanged and under their own ID.
   */
  lemma EveryRequestOnce(c: Child, walk: seq<SwapID>, effect: SwapBlob -> Effect)
    requires Keyed(c.live) && Walks(walk, c.live)
    ensures var r := HandleAll(c, walk, effect);
            && r.live == (map id | id in c.live && !effect(c.live[id]).fate.Released? :: c.live[id])
            && r.up == c.up + AllUps(c.live, walk, effect)
            && |walk| == |c.live| && Keyed(r.live)
  {
    WalkPart(c, walk, effect, c.live);
    WalkLength(walk, c.live.Keys);
  }

  lemma {:induction false} WalkLength(walk: seq<SwapID>, keys: set<SwapID>)
    requires Distinct(walk) && forall id :: id in walk <==> id in keys
    ensures |walk| == |keys|
    decreases |walk|
  {
    if walk == [] {
      assert keys == {};
    } else {
      WalkLength(walk[1..], keys - {walk[0]});
    }
  }

  lemma {:induction false} HandleAllSnoc(c: Child, walk: seq<SwapID>, id: SwapID, effect: SwapBlob -> Effect)
    ensures var r := HandleAll(c, walk, effect);
            HandleAll(c, walk + [id], effect) == if id in r.live then Handle(r, r.live[id], effect(r.live[id])) else r
    decreases |walk|
  {
    if walk == [] {
      assert walk + [id] == [id];
      assert [id][1..] == [];
    } else {
      assert (walk + [id])[1..] == walk[1..] + [id];
      var c' := if walk[0] in c.live then Handle(c, c.live[walk[0]], effect(c.live[walk[0]])) else c;
      HandleAllSnoc(c', walk[1..], id, effect);
    }
  }

  /** A walk in progress: `walk` is done, `todo` is left, and together they are the keys at the start. */
  ghost predicate Walking(start: Child, todo: set<SwapID>, walk: seq<SwapID>) {
    && Keyed(start.live) && Distinct(walk) && todo <= start.live.Keys
    && (forall id :: id in walk <==> id in start.live && id !in todo)
  }

  lemma WalkStep(start: Child, todo: set<SwapID>, walk: seq<SwapID>, id: SwapID, effect: SwapBlob -> Effect)
    requires Walking(start, todo, walk) && id in todo
    ensures var c := HandleAll(start, walk, effect);
            && id in c.live && c.live[id] == start.live[id]
            && HandleAll(start, walk + [id], effect) == Handle(c, c.live[id], effect(c.live[id]))
    ensures Walking(start, todo - {id}, walk + [id])
  {
    WalkPart(start, walk, effect, start.live);
    HandleAllSnoc(start, walk, id, effect);
  }

  lemma WalkEnd(start: Child, walk: seq<SwapID>)
    requires Walking(start, {}, walk)
    ensures Walks(walk, start.live)
  {
  }
}
