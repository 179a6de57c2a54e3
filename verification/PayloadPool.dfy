/** SoCMM: the pool of recycled transaction objects (tlm/soc_common.h). */
module PayloadPool {
  import opened Words
  import opened Tlm

  /** The object allocate returns: the last one pooled, or the next new one. */
  function Taken<T>(pool: seq<T>, next: T): T {
    if pool == [] then next else pool[|pool| - 1]
  }

  function AfterTake<T>(pool: seq<T>): seq<T> {
    if pool == [] then [] else pool[..|pool| - 1]
  }

  function Returned<T>(pool: seq<T>, p: T): seq<T> {
    pool + [p]
  }

  /** What is freed next is taken next. */
  lemma ReturnThenTake<T>(pool: seq<T>, p: T, next: T)
    ensures Taken(Returned(pool, p), next) == p && AfterTake(Returned(pool, p)) == pool
  {
    assert Returned(pool, p)[..|pool|] == pool;
  }

  /** The memory manager: a stack of free objects. */
  class SoCMM {
    var pool: seq<GenericPayload>

    /** The objects in the pool are distinct and unreferenced. */
    ghost predicate Valid()
      reads this, pool
    {
      && (forall i, j | 0 <= i < j < |pool| :: pool[i] != pool[j])
      && forall i | 0 <= i < |pool| :: pool[i].refs == 0
    }

    constructor ()
      ensures Valid() && pool == []
    {
      pool := [];
    }

    /** A recycled object, or a new one if there is none; a recycled one keeps its hop context. */
    method Allocate() returns (gp: GenericPayload)
      requires Valid()
      modifies this`pool
      ensures Valid() && pool == AfterTake(old(pool)) && gp == Taken(old(pool), gp)
      ensures old(pool) == [] ==> fresh(gp) && gp.hop == None
      ensures gp !in pool && gp.refs == 0
    {
      if |pool| == 0 {
        var data := new byte[0];
        gp := new GenericPayload(Ignore, 0, data, 0, 0);
        return;
      }
      gp := pool[|pool| - 1];
      pool := pool[..|pool| - 1];
    }

    method Free(gp: GenericPayload)
      requires Valid() && gp !in pool && gp.refs == 0
      modifies this`pool, gp`response
      ensures Valid() && pool == Returned(old(pool), gp) && gp.response == Incomplete
    {
      gp.response := Incomplete;
      pool := pool + [gp];
    }

    /** release() of the payload: the last reference frees it. */
    method Release(gp: GenericPayload)
      requires Valid() && gp !in pool && gp.refs > 0
      modifies this`pool, gp`refs, gp`response
      ensures Valid() && gp.refs == old(gp.refs) - 1
      ensures pool == if gp.refs == 0 then Returned(old(pool), gp) else old(pool)
    {
      gp.refs := gp.refs - 1;
      if gp.refs == 0 {
        Free(gp);
      }
    }
  }
}
