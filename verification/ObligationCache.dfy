/** CObligationCache (nxrmeng/inc/policyserv.hpp): a list of the most recent obligations, newest first. */
module ObligationCache {
  import opened Wrappers

  const CAPACITY: nat := 256

  /** The most recent of the last n insertions is at position i, and has the id. */
  predicate MostRecent<T>(history: seq<(int, T)>, n: nat, id: int, i: nat) {
    && |history| - n <= i < |history| && history[i].0 == id
    && forall j :: i < j < |history| ==> history[j].0 != id
  }

  class Cache<T> {
    var list: seq<(int, T)>
    /** Everything inserted since the cache was last cleared, oldest first. */
    ghost var history: seq<(int, T)>

    /** The cache holds exactly the last 256 insertions, or all of them if there are fewer, newest first. */
    ghost predicate Valid()
      reads this
    {
      && |list| == Min(CAPACITY, |history|)
      && forall k :: 0 <= k < |list| ==> list[k] == history[|history| - 1 - k]
    }

    constructor ()
      ensures Valid() && history == []
    {
      list, history := [], [];
    }

    method Insert(id: int, obs: T)
      requires Valid()
      modifies this
      ensures Valid() && history == old(history) + [(id, obs)]
    {
      while |list| >= CAPACITY
        invariant history == old(history) && |list| <= |old(list)| && list == old(list)[..|list|]
        invariant |old(list)| >= CAPACITY ==> |list| >= CAPACITY - 1
        invariant |old(list)| < CAPACITY ==> list == old(list)
        decreases |list|
      {
        list := list[..|list| - 1];
      }
      list := [(id, obs)] + list;
      history := history + [(id, obs)];
    }

    /** Finds the most recent of the held insertions with the id, and fails only if there is none. */
    method Find(id: int) returns (obs: Option<T>)
      requires Valid()
      ensures obs.Some? <==> exists i: nat :: MostRecent(history, Min(CAPACITY, |history|), id, i)
      ensures obs.Some? ==> exists i: nat ::
        MostRecent(history, Min(CAPACITY, |history|), id, i) && history[i].1 == obs.value
      ensures obs.None? ==> forall i :: |history| - CAPACITY <= i < |history| && i >= 0 ==> history[i].0 != id
    {
      for k := 0 to |list|
        invariant forall j :: |history| - k <= j < |history| ==> history[j].0 != id
      {
        if list[k].0 == id {
          assert MostRecent(history, |list|, id, |history| - 1 - k);
          return Some(list[k].1);
        }
        assert history[|history| - 1 - k].0 != id;
      }
      obs := None;
    }

    method Clear()
      modifies this
      ensures Valid() && history == []
    {
      list, history := [], [];
    }
  }
}
