/** Pruning the thread cache: one thread at a time, and all orphans at once (transforms.rs). */
module CachePrune {
  import opened Basics
  import opened KeyOrder

  type ThreadId = string

  datatype ThreadCache<M, C> = ThreadCache(
    messages: map<ThreadId, seq<M>>,
    contexts: map<ThreadId, C>,
    running: seq<ThreadId>,
    updatedAt: Option<nat>)

  /** Every thread the cache says anything about. */
  function Mentioned<M, C>(cache: ThreadCache<M, C>): set<ThreadId> {
    cache.messages.Keys + cache.contexts.Keys + Members(cache.running)
  }

  function Members(ids: seq<ThreadId>): set<ThreadId> {
    set id | id in ids
  }

  /** retain: the entries outside a set, in their order. */
  function Without(ids: seq<ThreadId>, gone: set<ThreadId>): (kept: seq<ThreadId>)
    ensures forall id :: id in kept <==> id in ids && id !in gone
    ensures |kept| <= |ids| && (|kept| == |ids| <==> kept == ids)
  {
    if ids == [] then []
    else if ids[0] in gone then
      var kept := Without(ids[1..], gone);
      assert |kept| < |ids|;
      kept
    else
      assert ids == [ids[0]] + ids[1..];
      [ids[0]] + Without(ids[1..], gone)
  }

  /** The cache without a set of threads. */
  function Removed<M, C>(cache: ThreadCache<M, C>, gone: set<ThreadId>): ThreadCache<M, C> {
    cache.(messages := cache.messages - gone,
           contexts := cache.contexts - gone,
           running := Without(cache.running, gone))
  }

  /** The threads the cache mentions that no longer live. */
  function Orphans<M, C>(cache: ThreadCache<M, C>, live: set<ThreadId>): set<ThreadId> {
    Mentioned(cache) - live
  }

  lemma {:induction false} WithoutUnion(ids: seq<ThreadId>, a: set<ThreadId>, b: set<ThreadId>)
    ensures Without(Without(ids, a), b) == Without(ids, a + b)
  {
    if ids != [] {
      WithoutUnion(ids[1..], a, b);
      if ids[0] !in a {
        assert ([ids[0]] + Without(ids[1..], a))[1..] == Without(ids[1..], a);
      }
    }
  }

  /** Only the members of the list that are in the set matter. */
  lemma {:induction false} WithoutMentioned(ids: seq<ThreadId>, a: set<ThreadId>, b: set<ThreadId>)
    requires forall id :: id in ids ==> (id in a <==> id in b)
    ensures Without(ids, a) == Without(ids, b)
  {
    if ids != [] {
      assert ids[0] in ids && forall id :: id in ids[1..] ==> id in ids;
      WithoutMentioned(ids[1..], a, b);
    }
  }

  lemma RemovedUnion<M, C>(cache: ThreadCache<M, C>, a: set<ThreadId>, b: set<ThreadId>)
    ensures Removed(Removed(cache, a), b) == Removed(cache, a + b)
  {
    WithoutUnion(cache.running, a, b);
    assert cache.messages - a - b == cache.messages - (a + b);
    assert cache.contexts - a - b == cache.contexts - (a + b);
  }

  /** Removing two sets gives the same cache exactly when they agree on every thread it mentions. */
  lemma RemovedAgrees<M, C>(cache: ThreadCache<M, C>, a: set<ThreadId>, b: set<ThreadId>)
    ensures Removed(cache, a) == Removed(cache, b)
      <==> forall id :: id in Mentioned(cache) ==> (id in a <==> id in b)
  {
    var x, y := Removed(cache, a), Removed(cache, b);
    if forall id :: id in Mentioned(cache) ==> (id in a <==> id in b) {
      WithoutMentioned(cache.running, a, b);
      assert x.messages == y.messages;
      assert x.contexts == y.contexts;
    }
    if x == y {
      forall id | id in Mentioned(cache)
        ensures id in a <==> id in b
      {
        assert id in Mentioned(x) <==> id !in a;
        assert id in Mentioned(y) <==> id !in b;
      }
    }
  }

  /** A removal leaves the cache as it was exactly when it mentions none of the threads. */
  lemma RemovedNothing<M, C>(cache: ThreadCache<M, C>, gone: set<ThreadId>)
    ensures Removed(cache, gone) == cache <==> Mentioned(cache) !! gone
    ensures Removed(cache, gone) == cache
      <==> (|Removed(cache, gone).running| == |cache.running|
            && cache.messages.Keys !! gone && cache.contexts.Keys !! gone)
  {
    RemovedAgrees(cache, gone, {});
    assert Removed(cache, {}) == cache by {
      NothingWithout(cache.running);
      assert cache.messages - {} == cache.messages;
      assert cache.contexts - {} == cache.contexts;
    }
    if Removed(cache, gone) == cache {
      assert Removed(cache, gone).messages.Keys == cache.messages.Keys;
      assert Removed(cache, gone).contexts.Keys == cache.contexts.Keys;
    }
    if |Removed(cache, gone).running| == |cache.running| && cache.messages.Keys !! gone && cache.contexts.Keys !! gone {
      assert Removed(cache, gone).messages == cache.messages;
      assert Removed(cache, gone).contexts == cache.contexts;
    }
  }

  lemma NothingWithout(ids: seq<ThreadId>)
    ensures Without(ids, {}) == ids
  {
    if ids != [] {
      NothingWithout(ids[1..]);
    }
  }

  /** Pruning single threads, one after the other. */
  function PrunedEach<M, C>(cache: ThreadCache<M, C>, ids: seq<ThreadId>): ThreadCache<M, C>
    decreases |ids|
  {
    if ids == [] then cache else PrunedEach(Removed(cache, {ids[0]}), ids[1..])
  }

  lemma {:induction false} PrunedEachIsRemoved<M, C>(cache: ThreadCache<M, C>, ids: seq<ThreadId>)
    ensures PrunedEach(cache, ids) == Removed(cache, Members(ids))
    decreases |ids|
  {
    if ids == [] {
      RemovedNothing(cache, {});
      assert Members(ids) == {};
    } else {
      PrunedEachIsRemoved(Removed(cache, {ids[0]}), ids[1..]);
      RemovedUnion(cache, {ids[0]}, Members(ids[1..]));
      assert ids == [ids[0]] + ids[1..];
      assert Members(ids) == {ids[0]} + Members(ids[1..]);
    }
  }

  /**
   * Pruning all orphans is pruning single threads, in any order and however often, exactly when
   * the list holds every orphan of the cache and no live thread that it mentions.
   */
  lemma OrphansOneByOne<M, C>(cache: ThreadCache<M, C>, live: set<ThreadId>, ids: seq<ThreadId>)
    ensures PrunedEach(cache, ids) == Removed(cache, Orphans(cache, live))
      <==> forall id :: id in Mentioned(cache) ==> (id in ids <==> id !in live)
  {
    PrunedEachIsRemoved(cache, ids);
    RemovedAgrees(cache, Members(ids), Orphans(cache, live));
  }

  /** After a prune nothing is orphaned, nothing live is lost, and a second prune does nothing. */
  lemma PrunedIsClean<M, C>(cache: ThreadCache<M, C>, live: set<ThreadId>)
    ensures var pruned := Removed(cache, Orphans(cache, live));
      && Mentioned(pruned) == Mentioned(cache) * live
      && Orphans(pruned, live) == {}
      && Removed(pruned, Orphans(pruned, live)) == pruned
      && (forall id :: id in live && id in cache.messages ==>
            id in pruned.messages && pruned.messages[id] == cache.messages[id])
      && (forall id :: id in live && id in cache.contexts ==>
            id in pruned.contexts && pruned.contexts[id] == cache.contexts[id])
  {
    var pruned := Removed(cache, Orphans(cache, live));
    assert Mentioned(pruned) == Mentioned(cache) * live;
    assert Orphans(pruned, live) == {};
    RemovedNothing(pruned, {});
  }

  predicate Distinct(ids: seq<ThreadId>) {
    forall i, j :: 0 <= i < j < |ids| ==> ids[i] != ids[j]
  }

  /** prune_thread_cache_payload */
  method PruneThread<M, C>(cache: ThreadCache<M, C>, id: ThreadId)
    returns (payload: ThreadCache<M, C>, changed: bool, pruned: seq<ThreadId>)
    ensures payload == Removed(cache, {id})
    ensures payload.messages == cache.messages - {id} && payload.contexts == cache.contexts - {id}
    ensures payload.running == Without(cache.running, {id}) && payload.updatedAt == cache.updatedAt
    ensures changed <==> payload != cache
    ensures pruned == [id]
  {
    payload, changed := cache, false;
    changed := changed || id in payload.messages;
    payload := payload.(messages := payload.messages - {id});
    changed := changed || id in payload.contexts;
    payload := payload.(contexts := payload.contexts - {id});
    var originalRunning := |payload.running|;
    payload := payload.(running := Without(payload.running, {id}));
    changed := changed || |payload.running| != originalRunning;
    RemovedNothing(cache, {id});
    pruned := [id];
  }

  /** The members of a set, in the order in which a sorted map has them as keys. */
  ghost function Sorted(ids: set<ThreadId>): seq<ThreadId>
    decreases |ids|
  {
    if ids == {} then []
    else
      StringsAreOrdered();
      Least(Strings(), ids);
      var least :| IsLeast(Strings(), least, ids);
      [least] + Sorted(ids - {least})
  }

  lemma SortedFirst(ids: set<ThreadId>, least: ThreadId)
    requires IsLeast(Strings(), least, ids)
    ensures Sorted(ids) == [least] + Sorted(ids - {least})
  {
    StringsAreOrdered();
  }

  lemma {:induction false} SortedIsAscending(ids: set<ThreadId>)
    ensures Members(Sorted(ids)) == ids && Ascending(Strings(), Sorted(ids)) && Distinct(Sorted(ids))
    decreases |ids|
  {
    if ids != {} {
      StringsAreOrdered();
      Least(Strings(), ids);
      var least :| IsLeast(Strings(), least, ids);
      SortedFirst(ids, least);
      var rest := Sorted(ids - {least});
      SortedIsAscending(ids - {least});
      hide Sorted, IsOrder, Ascending, Distinct;
      InFront(least, rest);
    }
  }

  lemma InFront(id: ThreadId, ids: seq<ThreadId>)
    requires Ascending(Strings(), ids) && IsLeast(Strings(), id, {id} + Members(ids)) && id !in Members(ids)
    ensures Members([id] + ids) == {id} + Members(ids)
    ensures Ascending(Strings(), [id] + ids) && Distinct([id] + ids)
  {
    forall i | 0 <= i < |ids|
      ensures ids[i] in Members(ids) && Strings()(id, ids[i]) && ids[i] != id
    {
    }
    hide StringBelow;
  }

  /** Dropping ids from a sorted list sorts the others. */
  lemma {:induction false} SortedWithout(ids: set<ThreadId>, gone: set<ThreadId>)
    ensures Without(Sorted(ids), gone) == Sorted(ids - gone)
    decreases |ids|
  {
    if ids == {} {
      assert ids - gone == {};
    } else {
      StringsAreOrdered();
      Least(Strings(), ids);
      var least :| IsLeast(Strings(), least, ids);
      SortedFirst(ids, least);
      var rest := ids - {least};
      SortedWithout(rest, gone);
      assert ([least] + Sorted(rest))[1..] == Sorted(rest);
      if least in gone {
        assert rest - gone == ids - gone;
      } else {
        SortedFirst(ids - gone, least);
        assert rest - gone == ids - gone - {least};
      }
    }
  }

  /** The keys that do not live, collected before anything is removed. */
  method DeadKeys(keys: set<ThreadId>, live: set<ThreadId>) returns (dead: seq<ThreadId>)
    ensures dead == Sorted(keys - live)
  {
    dead := [];
    var rest := keys - live;
    StringsAreOrdered();
    while rest != {}
      invariant dead + Sorted(rest) == Sorted(keys - live)
      decreases |rest|
    {
      Least(Strings(), rest);
      var id :| id in rest && IsLeast(Strings(), id, rest);
      SortedFirst(rest, id);
      ConcatAssoc(dead, [id], Sorted(rest - {id}));
      dead := dead + [id];
      rest := rest - {id};
    }
  }

  /** Retaining looks at one entry after the other. */
  lemma {:induction false} WithoutPush(ids: seq<ThreadId>, id: ThreadId, gone: set<ThreadId>)
    ensures Without(ids + [id], gone) == Without(ids, gone) + (if id in gone then [] else [id])
  {
    if ids == [] {
      assert ids + [id] == [id] && [id][1..] == [];
    } else {
      assert (ids + [id])[1..] == ids[1..] + [id];
      WithoutPush(ids[1..], id, gone);
    }
  }

  lemma MembersPush(ids: seq<ThreadId>, id: ThreadId)
    ensures Members(ids + [id]) == Members(ids) + {id}
    ensures id in ids <==> id in Members(ids)
    ensures Distinct(ids) && id !in Members(ids) ==> Distinct(ids + [id])
  {
    assert id in ids + [id] by { assert (ids + [id])[|ids|] == id; }
    forall i | 0 <= i < |ids|
      ensures ids[i] in Members(ids) && ids[i] in Members(ids + [id])
    {
      assert (ids + [id])[i] == ids[i];
      assert ids[i] in ids && ids[i] in ids + [id];
    }
  }

  /** prune_orphaned_thread_cache_payload */
  method PruneOrphaned<M, C>(cache: ThreadCache<M, C>, liveIds: seq<ThreadId>)
    returns (payload: ThreadCache<M, C>, changed: bool, pruned: seq<ThreadId>)
    ensures payload == Removed(cache, Orphans(cache, Members(liveIds)))
    ensures payload.messages == map id | id in cache.messages && id in liveIds :: cache.messages[id]
    ensures payload.contexts == map id | id in cache.contexts && id in liveIds :: cache.contexts[id]
    ensures payload.running == Without(cache.running, (set id | id in cache.running && id !in liveIds))
    ensures payload.updatedAt == cache.updatedAt
    ensures changed <==> payload != cache
    ensures pruned == Sorted(cache.messages.Keys - Members(liveIds))
                    + Sorted(cache.contexts.Keys - Members(liveIds) - cache.messages.Keys)
    ensures Distinct(pruned)
    ensures Members(pruned) == cache.messages.Keys + cache.contexts.Keys - Members(liveIds)
  {
    hide Members, Distinct, Without, Orphans, Removed, Sorted, Ascending;
    var live := Members(liveIds);
    payload, pruned := cache, [];
    NoMembers();
    assert cache.messages - {} == cache.messages && cache.contexts - {} == cache.contexts;
    var dead := DeadKeys(payload.messages.Keys, live);
    SortedIsAscending(payload.messages.Keys - live);
    var i := 0;
    while i < |dead|
      invariant 0 <= i <= |dead|
      invariant pruned == dead[..i]
      invariant payload == cache.(messages := cache.messages - Members(dead[..i]))
    {
      OneMoreDropped(cache.messages, dead, i);
      payload := payload.(messages := payload.messages - {dead[i]});
      pruned := pruned + [dead[i]];
      i := i + 1;
    }
    assert dead[..i] == dead;
    ghost var first := dead;
    ghost var messages := payload.messages;
    dead := DeadKeys(payload.contexts.Keys, live);
    SortedIsAscending(payload.contexts.Keys - live);
    i := 0;
    assert first + [] == first;
    while i < |dead|
      invariant 0 <= i <= |dead|
      invariant pruned == first + Without(dead[..i], Members(first))
      invariant Distinct(pruned) && Members(pruned) == Members(first) + Members(dead[..i])
      invariant payload == cache.(messages := messages, contexts := cache.contexts - Members(dead[..i]))
    {
      PushUnlessThere(first, dead, i, pruned);
      OneMoreDropped(cache.contexts, dead, i);
      payload := payload.(contexts := payload.contexts - {dead[i]});
      if dead[i] !in pruned {
        pruned := pruned + [dead[i]];
      }
      i := i + 1;
    }
    assert dead[..i] == dead;
    SecondPart(cache.messages.Keys, cache.contexts.Keys, live);
    var runningBefore := |payload.running|;
    payload := payload.(running := Without(payload.running, Members(payload.running) - live));
    changed := pruned != [] || |payload.running| != runningBefore;
    PrunedParts(cache, live, payload);
    LiveParts(cache, liveIds);
    EmptyMembers(pruned);
  }

  lemma LiveParts<M, C>(cache: ThreadCache<M, C>, liveIds: seq<ThreadId>)
    ensures cache.messages - (cache.messages.Keys - Members(liveIds))
         == map id | id in cache.messages && id in liveIds :: cache.messages[id]
    ensures cache.contexts - (cache.contexts.Keys - Members(liveIds))
         == map id | id in cache.contexts && id in liveIds :: cache.contexts[id]
    ensures Members(cache.running) - Members(liveIds) == set id | id in cache.running && id !in liveIds
  {
  }

  /** The dead contexts that have not been reported as dead messages. */
  lemma SecondPart(messages: set<ThreadId>, contexts: set<ThreadId>, live: set<ThreadId>)
    ensures Without(Sorted(contexts - live), messages - live) == Sorted(contexts - live - messages)
  {
    SortedWithout(contexts - live, messages - live);
    assert contexts - live - (messages - live) == contexts - live - messages;
  }

  lemma OneMoreDropped<V>(entries: map<ThreadId, V>, dead: seq<ThreadId>, i: nat)
    requires i < |dead|
    ensures dead[..i + 1] == dead[..i] + [dead[i]]
    ensures entries - Members(dead[..i]) - {dead[i]} == entries - Members(dead[..i + 1])
  {
    hide Members;
    assert dead[..i + 1] == dead[..i] + [dead[i]];
    MembersPush(dead[..i], dead[i]);
    MinusMinus(entries, Members(dead[..i]), {dead[i]});
  }

  /** One more dead key, reported unless it has been. */
  lemma PushUnlessThere(first: seq<ThreadId>, dead: seq<ThreadId>, i: nat, pruned: seq<ThreadId>)
    requires i < |dead| && Distinct(dead) && pruned == first + Without(dead[..i], Members(first))
    requires Distinct(pruned) && Members(pruned) == Members(first) + Members(dead[..i])
    ensures var pruned' := if dead[i] in pruned then pruned else pruned + [dead[i]];
      && pruned' == first + Without(dead[..i + 1], Members(first)) && Distinct(pruned')
      && Members(pruned') == Members(first) + Members(dead[..i + 1])
  {
    NotYet(dead, i);
    hide Members, Distinct, Without;
    MembersPush(dead[..i], dead[i]);
    MembersPush(pruned, dead[i]);
    WithoutPush(dead[..i], dead[i], Members(first));
    assert dead[..i + 1] == dead[..i] + [dead[i]];
    ConcatAssoc(first, Without(dead[..i], Members(first)), [dead[i]]);
    if dead[i] in Members(first) {
      assert Without(dead[..i], Members(first)) + [] == Without(dead[..i], Members(first));
    }
  }

  lemma NotYet(ids: seq<ThreadId>, i: nat)
    requires Distinct(ids) && i < |ids|
    ensures ids[i] !in Members(ids[..i])
  {
  }

  lemma NoMembers()
    ensures Members([]) == {} && Distinct([]) && forall gone :: Without([], gone) == []
  {
  }

  lemma EmptyMembers(ids: seq<ThreadId>)
    ensures ids == [] <==> Members(ids) == {}
  {
    assert ids != [] ==> ids[0] in Members(ids);
  }

  lemma MinusMinus<V>(m: map<ThreadId, V>, a: set<ThreadId>, b: set<ThreadId>)
    ensures m - a - b == m - (a + b)
  {
  }

  /** The three parts of the cache, each without its own dead threads, are the cache without its orphans. */
  lemma PrunedParts<M, C>(cache: ThreadCache<M, C>, live: set<ThreadId>, payload: ThreadCache<M, C>)
    requires payload == cache.(
      messages := cache.messages - (cache.messages.Keys - live),
      contexts := cache.contexts - (cache.contexts.Keys - live),
      running := Without(cache.running, Members(cache.running) - live))
    ensures payload == Removed(cache, Orphans(cache, live))
    ensures payload == cache
      <==> cache.messages.Keys + cache.contexts.Keys <= live && |payload.running| == |cache.running|
  {
    var gone := Orphans(cache, live);
    WithoutMentioned(cache.running, Members(cache.running) - live, gone);
    assert payload.messages == cache.messages - gone;
    assert payload.contexts == cache.contexts - gone;
    RemovedNothing(cache, gone);
    assert cache.messages.Keys * gone == cache.messages.Keys - live;
    assert cache.contexts.Keys * gone == cache.contexts.Keys - live;
  }
}
