/** The delayed swapper: requests wait in its map until the broker fills or cancels them. */
module Delayed {
  import opened Common
  import opened Swaps
  import opened Tasks
  import opened TickLoops
  import TaskSystem

  /** The requests the broker had nothing final to say about. */
  function StillWaiting(requests: map<SwapID, SwapBlob>, answers: SwapID -> Answer): map<SwapID, SwapBlob> {
    map id | id in requests && (answers(id).Unavailable? || answers(id).Broken?) :: requests[id]
  }

  lemma TickKeepsWaiting(c: Child, walk: seq<SwapID>, answers: SwapID -> Answer)
    requires Keyed(c.live) && Walks(walk, c.live)
    ensures HandleAll(c, walk, DelayedEffects(answers)).live == StillWaiting(c.live, answers)
  {
    EveryRequestOnce(c, walk, DelayedEffects(answers));
  }

  class DelayedSwapper {
    var swapMap: map<SwapID, SwapBlob>

    ghost function State(up: seq<Up>): Child
      reads this
    {
      Child([], swapMap, up)
    }

    constructor ()
      ensures swapMap == map[]
    {
      swapMap := map[];
    }

    /** `answer` is the broker's reply to the request with its password blanked out. */
    method HandleDelayedSwapRequest(request: SwapBlob, answer: Answer) returns (messages: seq<Up>)
      modifies this
      ensures swapMap == Handle(old(State([])), request, DelayedEffect(request, answer)).live
      ensures messages == DelayedEffect(request, answer).ups
      ensures answer.FilledIn? && answer.terms.id == request.id && answer.terms.passwordHash == request.passwordHash
              ==> |messages| == 2 && messages[1] == Filled(answer.terms.(delay := false, password := request.password))
    {
      var password := request.password;
      var blob := request.(password := "");
      match answer {
        case FilledIn(terms) =>
          var filled := Fill(blob, terms).(password := password);
          messages := HandleUpdateSwap(filled);
        case CancelledSwap =>
          messages := HandleCancelSwap(blob.id);
        case Unavailable =>
          blob := blob.(password := password);
          swapMap := swapMap[blob.id := blob];
          messages := [];
        case Broken =>
          blob := blob.(password := password);
          swapMap := swapMap[blob.id := blob];
          messages := [Failure];
      }
    }

    method HandleCancelSwap(id: SwapID) returns (messages: seq<Up>)
      modifies this
      ensures swapMap == old(swapMap) - {id}
      ensures messages == [Receipt(id, Became(Cancelled)), Delete(id)]
    {
      swapMap := swapMap - {id};
      return [Receipt(id, Became(Cancelled)), Delete(id)];
    }

    method HandleUpdateSwap(filled: SwapBlob) returns (messages: seq<Up>)
      modifies this
      ensures swapMap == old(swapMap) - {filled.id}
      ensures messages == [Receipt(filled.id, FilledWith(filled.sendAmount, filled.receiveAmount, filled.timeLock)),
                           Filled(filled)]
    {
      swapMap := swapMap - {filled.id};
      return [Receipt(filled.id, FilledWith(filled.sendAmount, filled.receiveAmount, filled.timeLock)),
              Filled(filled)];
    }

    /** Walks the map in an arbitrary order while entries are deleted and rewritten. */
    method HandleTick(answers: SwapID -> Answer) returns (messages: seq<Up>, ghost walk: seq<SwapID>)
      requires Keyed(swapMap)
      modifies this
      ensures Walks(walk, old(swapMap)) && Keyed(swapMap)
      ensures State(messages) ==
              HandleAll(old(State([])), walk, DelayedEffects(answers))
      ensures swapMap == StillWaiting(old(swapMap), answers)
    {
      ghost var start := State([]);
      ghost var effect := DelayedEffects(answers);
      var todo := swapMap.Keys;
      messages, walk := [], [];
      while todo != {}
        invariant Walking(start, todo, walk)
        invariant State(messages) == HandleAll(start, walk, effect)
        decreases |todo|
      {
        var id :| id in todo;
        WalkStep(start, todo, walk, id, effect);
        var more := HandleDelayedSwapRequest(swapMap[id], answers(id));
        assert swapMap == HandleAll(start, walk + [id], effect).live;
        assert messages + more == HandleAll(start, walk + [id], effect).up;
        messages := messages + more;
        todo, walk := todo - {id}, walk + [id];
      }
      WalkEnd(start, walk);
      TickKeepsWaiting(start, walk, answers);
    }

    /** One message from the parent: a turn of the delayed child in the task system. */
    method Reduce(msg: Down, answers: SwapID -> Answer) returns (messages: seq<Up>, ghost walk: seq<SwapID>)
      requires Keyed(swapMap)
      modifies this
      ensures Keyed(swapMap)
      ensures msg.TickDown? ==> Walks(walk, old(swapMap))
      ensures State(messages) == TaskSystem.RunChild(Child([msg], old(swapMap), []), DelayedEffects(answers), walk)
    {
      assert [msg][1..] == [];
      match msg
      case Request(request) =>
        messages := HandleDelayedSwapRequest(request, answers(request.id));
        walk := [];
      case TickDown => messages, walk := HandleTick(answers);
    }
  }
}
