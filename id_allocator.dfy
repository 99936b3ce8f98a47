/**
 * A recycling pool of 32-bit ids: ids handed back are reused first,
 * otherwise a bump counter issues 1, 2, ... up to a fixed maximum, and 0
 * means the pool is exhausted.
 */
module IdAllocator {
  import opened Types

  /** The size of every pool. */
  const MaxIds: U32 := 65536

  /** What successive draws from a new pool yield when nothing is handed back. */
  function FreshDraws(n: nat): seq<U32>
  {
    seq(n, (i: int) requires 0 <= i < n => if i < MaxIds then (i + 1) as U32 else 0)
  }

  class IDAllocator {
    /** The next id the bump counter issues. */
    var curAvaId: U32
    /** Ids handed back and not yet reissued. */
    var ids: set<U32>
    const maxIds: U32

    ghost predicate Valid()
      reads this
    {
      && maxIds == MaxIds
      && 1 <= curAvaId <= maxIds + 1
      && forall id | id in ids :: 1 <= id <= maxIds
    }

    constructor ()
      ensures Valid()
      ensures curAvaId == 1 && ids == {} && maxIds == 65536
    {
      curAvaId := 1;
      ids := {};
      maxIds := MaxIds;
    }

    /**
     * Reissues some id that was handed back if there is one; otherwise
     * issues the counter's id while it is in range; otherwise yields 0 and
     * changes nothing.
     */
    method GetId() returns (id: U32)
      requires Valid()
      modifies this
      ensures Valid()
      ensures id == 0 || 1 <= id <= maxIds
      ensures old(ids) != {} ==>
        id in old(ids) && ids == old(ids) - {id} && curAvaId == old(curAvaId)
      ensures old(ids) == {} && old(curAvaId) <= maxIds ==>
        id == old(curAvaId) && curAvaId == old(curAvaId) + 1 && ids == {}
      ensures old(ids) == {} && old(curAvaId) > maxIds ==>
        id == 0 && curAvaId == old(curAvaId) && ids == {}
    {
      if ids != {} {
        id :| id in ids;
        ids := ids - {id};
        return;
      }
      if curAvaId <= maxIds {
        id := curAvaId;
        curAvaId := curAvaId + 1;
        return;
      }
      id := 0;
    }

    /**
     * Hands an id back to the pool. Ids outside 1..maxIds are ignored;
     * handing the same id back twice leaves the same free set as once.
     */
    method PutId(id: U32)
      requires Valid()
      modifies this
      ensures Valid()
      ensures ids == if 1 <= id <= maxIds then old(ids) + {id} else old(ids)
      ensures curAvaId == old(curAvaId)
    {
      if id < 1 || id > maxIds {
        return;
      }
      ids := ids + {id};
    }
  }

  /**
   * Draws n ids from a new pool without handing any back: the draws are
   * 1, 2, ..., 65536 and then 0 for every further draw.
   */
  method DrawFromNewPool(n: nat) returns (draws: seq<U32>)
    ensures draws == FreshDraws(n)
  {
    var pool := new IDAllocator();
    draws := [];
    while |draws| < n
      invariant pool.Valid() && pool.ids == {}
      invariant |draws| <= n
      invariant pool.curAvaId == if |draws| < MaxIds then |draws| + 1 else MaxIds + 1
      invariant forall i | 0 <= i < |draws| :: draws[i] == if i < MaxIds then i + 1 else 0
    {
      var id := pool.GetId();
      draws := draws + [id];
    }
  }

  /** A handed-back id is the very next one drawn when the free set was empty. */
  method RecycleThenDraw(pool: IDAllocator, id: U32) returns (again: U32)
    requires pool.Valid() && pool.ids == {} && 1 <= id <= pool.maxIds
    modifies pool
    ensures again == id
    ensures pool.Valid() && pool.ids == {} && pool.curAvaId == old(pool.curAvaId)
  {
    pool.PutId(id);
    again := pool.GetId();
  }
}
