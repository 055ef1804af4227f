/** The query shape every listing in the commands uses: keep the entries that
    match a filter, order them by creation time, keep the first `limit`.
    The store leaves entries with equal creation times in no particular
    order; the model breaks such ties by primary key, one of the orders the
    store may produce. */
module EntryQuery {
  import opened Basics
  import opened ArtModels

  /** `a` comes strictly before `b`: by creation time, newest or oldest first,
      then by key in the same direction. */
  predicate Before(store: Store, a: nat, b: nat, newestFirst: bool)
    requires a in store && b in store
  {
    var ca := store[a].createdAt;
    var cb := store[b].createdAt;
    if newestFirst then ca > cb || (ca == cb && a > b)
    else ca < cb || (ca == cb && a < b)
  }

  /** The listing respects the `created_at` ordering requested. */
  predicate OrderedByCreation(store: Store, ids: seq<nat>, newestFirst: bool)
    requires forall i :: 0 <= i < |ids| ==> ids[i] in store
  {
    forall i, j :: 0 <= i < j < |ids| ==>
      if newestFirst then store[ids[i]].createdAt >= store[ids[j]].createdAt
      else store[ids[i]].createdAt <= store[ids[j]].createdAt
  }

  /** The first key of `cands` in the requested order. */
  method FindFirst(store: Store, cands: set<nat>, newestFirst: bool) returns (best: nat)
    requires cands != {} && cands <= store.Keys
    ensures best in cands
    ensures forall k :: k in cands && k != best ==> Before(store, best, k, newestFirst)
  {
    best :| best in cands;
    var todo := cands - {best};
    while todo != {}
      invariant todo <= cands && best in cands && best !in todo
      invariant forall k :: k in cands && k !in todo && k != best ==> Before(store, best, k, newestFirst)
      decreases |todo|
    {
      var k :| k in todo;
      if Before(store, k, best, newestFirst) {
        best := k;
      }
      todo := todo - {k};
    }
  }

  /** `filter(...).order_by(...)[:limit]` over the keys in `matching`: the
      result lists distinct matching keys in order, as many as the limit and
      the matches allow, and no match left out comes before any listed one. */
  method SelectOrdered(store: Store, matching: set<nat>, newestFirst: bool, limit: nat)
    returns (ids: seq<nat>)
    requires matching <= store.Keys
    ensures forall i :: 0 <= i < |ids| ==> ids[i] in matching && ids[i] in store
    ensures forall i, j :: 0 <= i < j < |ids| ==> Before(store, ids[i], ids[j], newestFirst)
    ensures OrderedByCreation(store, ids, newestFirst)
    ensures |ids| == Min(limit, |matching|)
    ensures forall k, i :: k in matching && k !in ids && 0 <= i < |ids| ==> Before(store, ids[i], k, newestFirst)
  {
    ids := [];
    var rest := matching;
    while |ids| < limit && rest != {}
      invariant rest <= matching
      invariant forall i :: 0 <= i < |ids| ==> ids[i] in matching && ids[i] !in rest
      invariant forall k :: k in matching && k !in rest ==> k in ids
      invariant |ids| + |rest| == |matching|
      invariant |ids| <= limit
      invariant forall i, j :: 0 <= i < j < |ids| ==> Before(store, ids[i], ids[j], newestFirst)
      invariant forall k, i :: k in rest && 0 <= i < |ids| ==> Before(store, ids[i], k, newestFirst)
      decreases |rest|
    {
      var best := FindFirst(store, rest, newestFirst);
      ids := ids + [best];
      rest := rest - {best};
    }
  }
}
