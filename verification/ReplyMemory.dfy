// The worker's own record of answered actions (runtime/runtime.go, remember),
// by which it recognises stale replies: a map and a FIFO of 1024 entries. The
// same ID may be remembered twice, so unlike the Router's window the map can
// lose an ID that the FIFO still holds.
module ReplyMemory {

  const MEMORY_LIMIT: nat := 1024

  datatype Memory = Memory(resolved: set<string>, fifo: seq<string>)

  const EMPTY_MEMORY := Memory({}, [])

  function Remember(m: Memory, actionID: string): Memory {
    var resolved := m.resolved + {actionID};
    var fifo := m.fifo + [actionID];
    if |fifo| > MEMORY_LIMIT then Memory(resolved - {fifo[0]}, fifo[1..]) else Memory(resolved, fifo)
  }

  // The memory after a history of IDs, oldest first.
  function RememberAll(ids: seq<string>): Memory {
    if ids == [] then EMPTY_MEMORY else Remember(RememberAll(ids[..|ids| - 1]), ids[|ids| - 1])
  }

  function Evicted(ids: seq<string>): (n: nat)
    ensures n <= |ids|
  {
    if |ids| <= MEMORY_LIMIT then 0 else |ids| - MEMORY_LIMIT
  }

  // Position k still vouches for its ID: since ids[k] was put in the map, no
  // equal ID has been evicted.
  ghost predicate Holds(ids: seq<string>, k: nat)
    requires k < |ids|
  {
    forall i :: 0 <= i < Evicted(ids) && i + MEMORY_LIMIT >= k ==> ids[i] != ids[k]
  }

  ghost predicate Known(ids: seq<string>, id: string) {
    exists k :: 0 <= k < |ids| && ids[k] == id && Holds(ids, k)
  }

  lemma {:induction false} FifoIsRecent(ids: seq<string>)
    ensures RememberAll(ids).fifo == ids[Evicted(ids)..]
  {
    if ids != [] {
      var init := ids[..|ids| - 1];
      FifoIsRecent(init);
      assert init[Evicted(init)..] + [ids[|ids| - 1]] == ids[Evicted(init)..];
      if |ids| > MEMORY_LIMIT {
        assert ids[Evicted(init)..][1..] == ids[Evicted(ids)..];
      }
    }
  }

  lemma HoldsAfterOne(ids: seq<string>, y: string, k: nat)
    requires k < |ids|
    ensures Holds(ids + [y], k) <==>
              Holds(ids, k) && !(|ids| >= MEMORY_LIMIT && ids[|ids| - MEMORY_LIMIT] == ids[k])
  {
    var next := ids + [y];
    assert forall i :: 0 <= i < |ids| ==> next[i] == ids[i];
    assert |ids| >= MEMORY_LIMIT ==> Evicted(next) == Evicted(ids) + 1 == |ids| - MEMORY_LIMIT + 1;
    assert |ids| < MEMORY_LIMIT ==> Evicted(next) == Evicted(ids) == 0;
  }

  lemma HoldsLast(ids: seq<string>, y: string)
    ensures Holds(ids + [y], |ids|) <==> !(|ids| >= MEMORY_LIMIT && ids[|ids| - MEMORY_LIMIT] == y)
  {
    var next := ids + [y];
    assert next[|ids|] == y;
    assert forall i :: 0 <= i < |ids| ==> next[i] == ids[i];
  }

  // The ID evicted by one more push, if any, is lost; every other keeps its standing.
  lemma KnownAfterOne(ids: seq<string>, y: string, id: string)
    ensures Known(ids + [y], id) <==>
              && (Known(ids, id) || id == y)
              && !(|ids| >= MEMORY_LIMIT && ids[|ids| - MEMORY_LIMIT] == id)
  {
    var next := ids + [y];
    HoldsLast(ids, y);
    if Known(next, id) {
      var k :| 0 <= k < |next| && next[k] == id && Holds(next, k);
      if k < |ids| {
        HoldsAfterOne(ids, y, k);
        assert ids[k] == id;
      }
    }
    if id == y {
      assert next[|ids|] == id;
    } else if Known(ids, id) {
      var k :| 0 <= k < |ids| && ids[k] == id && Holds(ids, k);
      HoldsAfterOne(ids, y, k);
      assert next[k] == id;
    }
  }

  // What the map holds after any history: exactly the IDs with a position
  // that no later eviction of an equal ID has undone.
  lemma {:induction false} RememberedIffKnown(ids: seq<string>, id: string)
    ensures id in RememberAll(ids).resolved <==> Known(ids, id)
  {
    if ids != [] {
      var init := ids[..|ids| - 1];
      var y := ids[|ids| - 1];
      RememberedIffKnown(init, id);
      FifoIsRecent(init);
      KnownAfterOne(init, y, id);
      assert init + [y] == ids;
      if |init| >= MEMORY_LIMIT {
        assert (RememberAll(init).fifo + [y])[0] == init[|init| - MEMORY_LIMIT];
      }
    }
  }

  // Without any assumption on the history, the map never exceeds the FIFO, and the
  // FIFO is the last 1024 IDs of it.
  lemma {:induction false} MemoryIsBounded(ids: seq<string>)
    ensures RememberAll(ids).fifo == if |ids| <= 1024 then ids else ids[|ids| - 1024..]
    ensures forall id :: id in RememberAll(ids).resolved ==> id in RememberAll(ids).fifo
  {
    FifoIsRecent(ids);
    forall id | id in RememberAll(ids).resolved ensures id in RememberAll(ids).fifo {
      RememberedIffKnown(ids, id);
      var k :| 0 <= k < |ids| && ids[k] == id && Holds(ids, k);
      assert k >= Evicted(ids);
      assert ids[Evicted(ids)..][k - Evicted(ids)] == id;
    }
  }

  // The map equals the FIFO's contents exactly when no ID still in the FIFO
  // was evicted after its last occurrence was remembered.
  lemma MapEqualsFifoIff(ids: seq<string>)
    ensures (forall id :: id in RememberAll(ids).fifo ==> id in RememberAll(ids).resolved)
       <==> (forall k :: Evicted(ids) <= k < |ids| ==> Known(ids, ids[k]))
  {
    hide RememberAll, Known;
    FifoIsRecent(ids);
    var fifo := RememberAll(ids).fifo;
    forall k | Evicted(ids) <= k < |ids|
      ensures ids[k] in fifo && (ids[k] in RememberAll(ids).resolved <==> Known(ids, ids[k]))
    {
      assert fifo[k - Evicted(ids)] == ids[k];
      RememberedIffKnown(ids, ids[k]);
    }
    forall id | id in fifo ensures exists k :: Evicted(ids) <= k < |ids| && ids[k] == id {
      var j :| 0 <= j < |fifo| && fifo[j] == id;
      assert ids[j + Evicted(ids)] == id;
    }
  }

  ghost predicate FarApart(ids: seq<string>) {
    forall i, j :: 0 <= i < j < |ids| && ids[i] == ids[j] ==> j - i > MEMORY_LIMIT
  }

  lemma SpacedApart(ids: seq<string>, i: nat, j: nat)
    requires FarApart(ids) && i < j < |ids| && j - i <= MEMORY_LIMIT
    ensures ids[i] != ids[j]
  {
  }

  lemma SpacedIsHeld(ids: seq<string>, k: nat)
    requires FarApart(ids) && Evicted(ids) <= k < |ids|
    ensures Holds(ids, k)
  {
    hide FarApart;
    forall i | 0 <= i < Evicted(ids) && i + MEMORY_LIMIT >= k ensures ids[i] != ids[k] {
      SpacedApart(ids, i, k);
    }
  }

  // If equal IDs are more than MEMORY_LIMIT apart, nothing is lost.
  lemma SpacedHistoryLosesNothing(ids: seq<string>, id: string)
    requires FarApart(ids)
    ensures id in RememberAll(ids).fifo <==> id in RememberAll(ids).resolved
  {
    hide RememberAll;
    MemoryIsBounded(ids);
    FifoIsRecent(ids);
    if id in RememberAll(ids).fifo {
      var j :| 0 <= j < |RememberAll(ids).fifo| && RememberAll(ids).fifo[j] == id;
      var k := j + Evicted(ids);
      assert ids[k] == id;
      SpacedIsHeld(ids, k);
      RememberedIffKnown(ids, id);
    }
  }

  // An entry vouches for nothing once an equal one, not long before it, was evicted.
  lemma TwinEvicted(ids: seq<string>, k: nat)
    requires 0 < Evicted(ids) && k <= MEMORY_LIMIT && k < |ids| && ids[0] == ids[k]
    ensures !Holds(ids, k)
  {
  }

  // An action remembered twice in a row is forgotten when its first entry is
  // evicted, while its second entry is still in the FIFO.
  lemma RepeatedIDIsForgotten(id: string, others: seq<string>)
    requires |others| == MEMORY_LIMIT - 1 && id !in others
    ensures id in RememberAll([id, id] + others).fifo
    ensures id !in RememberAll([id, id] + others).resolved
  {
    hide RememberAll, Holds;
    var ids := [id, id] + others;
    FifoIsRecent(ids);
    assert RememberAll(ids).fifo[0] == ids[1];
    RememberedIffKnown(ids, id);
    assert forall k :: 2 <= k < |ids| ==> ids[k] == others[k - 2];
    forall k | 0 <= k < |ids| && ids[k] == id ensures !Holds(ids, k) {
      TwinEvicted(ids, k);
    }
  }

  // The fields of controllerWorker that `remember` updates.
  class ControllerWorker {
    var resolved: set<string>
    var resolvedFIFO: seq<string>
    ghost var history: seq<string>

    ghost predicate Valid()
      reads this
    {
      Memory(resolved, resolvedFIFO) == RememberAll(history)
    }

    constructor ()
      ensures Valid() && history == []
    {
      resolved, resolvedFIFO, history := {}, [], [];
    }

    method Remember(actionID: string)
      requires Valid()
      modifies this
      ensures Valid() && history == old(history) + [actionID]
    {
      history := history + [actionID];
      assert history[..|history| - 1] == old(history);
      resolved := resolved + {actionID};
      resolvedFIFO := resolvedFIFO + [actionID];
      if |resolvedFIFO| > MEMORY_LIMIT {
        resolved := resolved - {resolvedFIFO[0]};
        resolvedFIFO := resolvedFIFO[1..];
      }
    }
  }
}
