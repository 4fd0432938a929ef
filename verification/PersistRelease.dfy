/** Taking registrations back, one or all, and the end of a session. Mappings are unmapped here without a look at
    their counts. */
module PersistRelease {
  import opened Lists
  import opened Packets
  import opened SearchTree
  import opened MapCache
  import opened CacheSweep
  import opened FrameLedger
  import opened DmaInstance
  import opened FrameOps

  // Entries of the persist list go one by one, their mappings with them.

  /** What is left of a session's records once the mappings in `gone` have been unmapped without a look at their
      counts. */
  ghost predicate Freed(before: Pool, pool: Pool, persist: seq<Persist>, regs: map<nat, nat>, refs: multiset<nat>,
                        tree: Tree, gone: set<nat>)
  {
    && pool == before - gone
    && (forall id <- pool :: pool[id].refcount == refs[id] + Count(regs, id))
    && regs.Keys <= pool.Keys
    && Registered(persist, pool, regs) && Indexed(tree, pool) && Live(pool)
    && CachedSize(InOrder(tree), pool) == CachedSize(InOrder(tree), before)
  }

  lemma EntryFreed(before: Pool, pool: Pool, i: nat, refs: multiset<nat>, regs: map<nat, nat>, persist: seq<Persist>,
                   tree: Tree, gone: set<nat>)
    requires i < |persist| && Freed(before, pool, persist, regs, refs, tree, gone)
    ensures var id := persist[i].id;
            Freed(before, pool - {id}, Without(persist, i), regs - {id}, refs, tree, gone + {id})
  {
    StillRegistered(pool, i, regs, persist);
    CachedSizeSame(InOrder(tree), pool, pool - {persist[i].id});
  }

  // The books are right exactly when no reference is to a mapping that has gone.
  lemma BooksAfter(before: Pool, pool: Pool, persist: seq<Persist>, regs: map<nat, nat>, refs: multiset<nat>,
                   tree: Tree, gone: set<nat>)
    requires Freed(before, pool, persist, regs, refs, tree, gone)
    requires gone <= before.Keys && forall id <- refs :: id in before
    ensures Balanced(pool, refs, regs) <==> forall id <- gone :: id !in refs
  {
  }

  lemma StillRegistered(pool: Pool, i: nat, regs: map<nat, nat>, persist: seq<Persist>)
    requires i < |persist| && Registered(persist, pool, regs)
    ensures var id := persist[i].id; Registered(Without(persist, i), pool - {id}, regs - {id})
  {
    var id, rest := persist[i].id, Without(persist, i);
    forall other <- regs - {id}
      ensures exists j :: 0 <= j < |rest| && rest[j].id == other
    {
      var j :| 0 <= j < |persist| && persist[j].id == other;
      assert rest[if j < i then j else j - 1].id == other;
    }
  }

  ghost predicate Freeing(inst: Instance, before: Pool, gone: set<nat>)
    reads inst
  {
    Freed(before, inst.pool, inst.persist, inst.regs, FrameIds(inst.frames), inst.tree, gone)
  }

  // list_del of an entry, and its mapping unmapped.
  method FreeEntry(inst: Instance, i: nat)
    requires i < |inst.persist|
    modifies inst`pool, inst`persist, inst`regs
    ensures inst.persist == Without(old(inst.persist), i)
    ensures var id := old(inst.persist)[i].id; inst.pool == old(inst.pool) - {id} && inst.regs == old(inst.regs) - {id}
  {
    var id := inst.persist[i].id;
    inst.pool, inst.persist, inst.regs := inst.pool - {id}, Without(inst.persist, i), inst.regs - {id};
  }

  /** What is not touched here is right for the mappings there were before. */
  ghost predicate Untouched(inst: Instance, before: Pool)
    reads inst`nextId, inst`tree, inst`nr, inst`maxCapacity, inst`vaInst, inst`frames, inst`frameUsage, inst`transId
  {
    && (forall id <- FrameIds(inst.frames) :: id in before)
    && (forall id <- before :: id < inst.nextId)
    && inst.vaInst == CachedSize(InOrder(inst.tree), before)
    && inst.nr == |InOrder(inst.tree)| <= inst.maxCapacity && inst.maxCapacity in {FIRST_CAPACITY, LAST_CAPACITY}
    && inst.frameUsage == FrameUsage(inst.frames) && inst.Identified()
  }

  lemma NothingFreed(inst: Instance)
    requires inst.Valid()
    ensures Freeing(inst, inst.pool, {}) && IdsOf(inst.persist) <= inst.pool.Keys
    ensures Untouched(inst, inst.pool)
  {
    var refs := FrameIds(inst.frames) + multiset{};
    assert forall id :: refs[id] == FrameIds(inst.frames)[id];
    assert forall id <- FrameIds(inst.frames) :: id in refs;
  }

  lemma RightAfter(inst: Instance, before: Pool, gone: set<nat>)
    requires Freeing(inst, before, gone)
    requires Untouched(inst, before) && gone <= before.Keys
    ensures inst.Valid() <==> forall id <- gone :: id !in FrameIds(inst.frames)
  {
    assert FrameIds(inst.frames) + multiset{} == FrameIds(inst.frames);
    BooksAfter(before, inst.pool, inst.persist, inst.regs, FrameIds(inst.frames), inst.tree, gone);
  }

  // One feature buffer.

  /** The first feature buffer with this fd and size. */
  function FeatureAt(persist: seq<Persist>, fd: Word, size: Word): (at: nat)
    ensures at <= |persist|
  {
    if persist == [] then 0
    else if persist[0].kind == Feature && persist[0].fd == fd && persist[0].size == size then 0
    else 1 + FeatureAt(persist[1..], fd, size)
  }

  lemma {:induction false} FeatureAtExactly(persist: seq<Persist>, fd: Word, size: Word)
    ensures var at := FeatureAt(persist, fd, size);
            && (at < |persist| ==> persist[at].kind == Feature && persist[at].fd == fd && persist[at].size == size)
            && (forall p <- persist[..at] :: !(p.kind == Feature && p.fd == fd && p.size == size))
    ensures Match(persist, Desc(fd, size, 0)).None? ==> FeatureAt(persist, fd, size) == |persist|
  {
    if persist != [] {
      FeatureAtExactly(persist[1..], fd, size);
    }
  }

  /** msm_cvp_unmap_feature_persist: the first feature buffer with this fd and size goes, and its mapping with it,
      whatever its count; a buffer registered otherwise stays. The books stay right exactly when no listed frame
      refers to the mapping. */
  method UnmapFeaturePersist(inst: Instance, fd: int, size: Word, index: nat) returns (rc: int)
    requires inst.Valid() && -0x8000_0000 <= fd < 0x8000_0000
    modifies inst`pool, inst`persist, inst`regs
    ensures rc == if index != 0 || fd < 0 then EINVAL else 0
    ensures var all := old(inst.persist);
            if rc == 0 && FeatureAt(all, fd, size) < |all| then
              var at := FeatureAt(all, fd, size);
              && inst.persist == Without(all, at)
              && inst.pool == old(inst.pool) - {all[at].id} && inst.regs == old(inst.regs) - {all[at].id}
              && (inst.Valid() <==> all[at].id !in FrameIds(inst.frames))
            else inst.Valid() && inst.persist == all && inst.pool == old(inst.pool) && inst.regs == old(inst.regs)
  {
    if index != 0 || fd < 0 {
      return EINVAL;
    }
    FeatureAtExactly(inst.persist, fd, size);
    var known := FindPersist(inst, Desc(fd, size, 0));
    if known.None? {
      return 0;
    }
    var at := FindFeature(inst, fd, size);
    if at < |inst.persist| {
      FreeOne(inst, at);
    }
    return 0;
  }

  // The walk of the persist list for a feature buffer.
  method FindFeature(inst: Instance, fd: Word, size: Word) returns (at: nat)
    ensures at == FeatureAt(inst.persist, fd, size)
  {
    at := 0;
    while at < |inst.persist|
      invariant at <= |inst.persist|
      invariant FeatureAt(inst.persist, fd, size) == at + FeatureAt(inst.persist[at..], fd, size)
    {
      var p := inst.persist[at];
      if p.kind == Feature && p.fd == fd && p.size == size {
        return;
      }
      at := at + 1;
    }
  }

  method FreeOne(inst: Instance, at: nat)
    requires inst.Valid() && at < |inst.persist|
    modifies inst`pool, inst`persist, inst`regs
    ensures inst.persist == Without(old(inst.persist), at)
    ensures var id := old(inst.persist)[at].id;
            && inst.pool == old(inst.pool) - {id} && inst.regs == old(inst.regs) - {id}
            && (inst.Valid() <==> id !in FrameIds(inst.frames))
  {
    NothingFreed(inst);
    OneFreed(inst.pool, inst.persist, inst.regs, FrameIds(inst.frames), inst.tree, at);
    FreeEntry(inst, at);
    RightAfter(inst, old(inst.pool), {old(inst.persist)[at].id});
  }

  lemma OneFreed(pool: Pool, all: seq<Persist>, regs: map<nat, nat>, refs: multiset<nat>, tree: Tree, at: nat)
    requires at < |all| && Freed(pool, pool, all, regs, refs, tree, {})
    ensures var id := all[at].id;
            Freed(pool, pool - {id}, Without(all, at), regs - {id}, refs, tree, {id}) && id in IdsOf(all)
  {
    EntryFreed(pool, pool, at, refs, regs, all, tree, {});
    assert {} + {all[at].id} == {all[at].id};
  }

  // All of one owner.

  /** The entries the driver owns, or all the others. */
  function OwnedBy(persist: seq<Persist>, driver: bool): seq<Persist> {
    if persist == [] then []
    else if (persist[0].kind == Arp) == driver then [persist[0]] + OwnedBy(persist[1..], driver)
    else OwnedBy(persist[1..], driver)
  }

  lemma {:induction false} OwnedBySnoc(persist: seq<Persist>, driver: bool, p: Persist)
    ensures OwnedBy(persist + [p], driver) == OwnedBy(persist, driver) + if (p.kind == Arp) == driver then [p] else []
  {
    if persist == [] {
      assert [p][1..] == [];
    } else {
      assert (persist + [p])[1..] == persist[1..] + [p];
      OwnedBySnoc(persist[1..], driver, p);
    }
  }

  ghost function IdsOf(persist: seq<Persist>): set<nat> {
    set i | 0 <= i < |persist| :: persist[i].id
  }

  /** The list once its first k entries have been dealt with, i of which stay. */
  ghost predicate Sifted(all: seq<Persist>, driver: bool, k: nat, now: seq<Persist>, i: nat) {
    k <= |all| && now == OwnedBy(all[..k], !driver) + all[k..] && i == |OwnedBy(all[..k], !driver)|
  }

  lemma SiftStarts(all: seq<Persist>, driver: bool)
    ensures Sifted(all, driver, 0, all, 0) && IdsOf(OwnedBy(all[..0], driver)) == {}
  {
    assert all[..0] == [] && all[0..] == all;
  }

  lemma SiftStep(all: seq<Persist>, driver: bool, k: nat, now: seq<Persist>, i: nat)
    requires Sifted(all, driver, k, now, i) && i < |now|
    ensures k < |all| && now[i] == all[k]
    ensures if (now[i].kind == Arp) == driver then Sifted(all, driver, k + 1, Without(now, i), i)
            else Sifted(all, driver, k + 1, now, i + 1)
  {
    OwnedBySnoc(all[..k], !driver, all[k]);
    assert all[..k + 1] == all[..k] + [all[k]] && all[k..] == [all[k]] + all[k + 1..];
    Middle(OwnedBy(all[..k], !driver), all[k], all[k + 1..]);
  }

  lemma GoneStep(all: seq<Persist>, driver: bool, k: nat)
    requires k < |all|
    ensures var gone := IdsOf(OwnedBy(all[..k], driver));
            IdsOf(OwnedBy(all[..k + 1], driver)) == if (all[k].kind == Arp) == driver then gone + {all[k].id} else gone
    ensures IdsOf(all[..k + 1]) == IdsOf(all[..k]) + {all[k].id}
  {
    assert all[..k + 1] == all[..k] + [all[k]];
    OwnedBySnoc(all[..k], driver, all[k]);
    assert OwnedBy(all[..k], driver) + [] == OwnedBy(all[..k], driver);
    IdsOfSnoc(OwnedBy(all[..k], driver), all[k]);
    IdsOfSnoc(all[..k], all[k]);
  }

  lemma IdsOfSnoc(persist: seq<Persist>, p: Persist)
    ensures IdsOf(persist + [p]) == IdsOf(persist) + {p.id}
  {
    var more := persist + [p];
    assert more[|persist|] == p;
    forall id <- IdsOf(persist) ensures id in IdsOf(more) {
      var i :| 0 <= i < |persist| && persist[i].id == id;
      assert more[i].id == id;
    }
  }

  lemma {:induction false} OwnedByIds(all: seq<Persist>, driver: bool, k: nat)
    requires k <= |all|
    ensures IdsOf(OwnedBy(all[..k], driver)) <= IdsOf(all[..k])
  {
    if k > 0 {
      OwnedByIds(all, driver, k - 1);
      GoneStep(all, driver, k - 1);
    }
  }

  lemma SiftEnds(all: seq<Persist>, driver: bool, k: nat, now: seq<Persist>, i: nat)
    requires Sifted(all, driver, k, now, i) && i >= |now|
    ensures all[..k] == all && now == OwnedBy(all, !driver) && IdsOf(OwnedBy(all, driver)) <= IdsOf(all)
  {
    assert all[k..] == [] && all[..k] == all;
    OwnedByIds(all, driver, k);
  }

  /** What there is once the first k entries have been dealt with. */
  ghost predicate FreedTo(pool: Pool, all: seq<Persist>, regs: map<nat, nat>, refs: multiset<nat>, tree: Tree,
                          driver: bool, k: nat)
    requires k <= |all|
  {
    var gone := IdsOf(OwnedBy(all[..k], driver));
    Freed(pool, pool - gone, OwnedBy(all[..k], !driver) + all[k..], regs - gone, refs, tree, gone)
  }

  lemma {:induction false} FreedUpTo(pool: Pool, all: seq<Persist>, regs: map<nat, nat>, refs: multiset<nat>,
                                     tree: Tree, driver: bool, k: nat)
    requires k <= |all| && FreedTo(pool, all, regs, refs, tree, driver, 0)
    ensures FreedTo(pool, all, regs, refs, tree, driver, k)
  {
    if k > 0 {
      FreedUpTo(pool, all, regs, refs, tree, driver, k - 1);
      FreedNext(pool, all, regs, refs, tree, driver, k - 1);
    }
  }

  lemma FreedNext(pool: Pool, all: seq<Persist>, regs: map<nat, nat>, refs: multiset<nat>, tree: Tree, driver: bool,
                  k: nat)
    requires k < |all| && FreedTo(pool, all, regs, refs, tree, driver, k)
    ensures FreedTo(pool, all, regs, refs, tree, driver, k + 1)
  {
    var gone, kept := IdsOf(OwnedBy(all[..k], driver)), OwnedBy(all[..k], !driver);
    SiftStep(all, driver, k, kept + all[k..], |kept|);
    GoneStep(all, driver, k);
    if (all[k].kind == Arp) == driver {
      EntryFreed(pool, pool - gone, |kept|, refs, regs - gone, kept + all[k..], tree, gone);
      var id := all[k].id;
      assert pool - gone - {id} == pool - (gone + {id}) && regs - gone - {id} == regs - (gone + {id});
    }
  }

  /** The walk of cvp_release_arp_buffers and that of msm_cvp_session_deinit_buffers: every entry the driver owns
      goes, or every other one, whatever its count. The books stay right exactly when no listed frame refers to a
      mapping that goes. */
  method FreeOwnedBy(inst: Instance, driver: bool)
    requires inst.Valid()
    modifies inst`pool, inst`persist, inst`regs
    ensures inst.persist == OwnedBy(old(inst.persist), !driver)
    ensures inst.pool == old(inst.pool) - IdsOf(OwnedBy(old(inst.persist), driver))
    ensures inst.regs == old(inst.regs) - IdsOf(OwnedBy(old(inst.persist), driver))
    ensures inst.Valid() <==> forall id <- IdsOf(OwnedBy(old(inst.persist), driver)) :: id !in FrameIds(inst.frames)
  {
    NothingFreed(inst);
    FreedAll(inst.pool, inst.persist, inst.regs, FrameIds(inst.frames), inst.tree, driver);
    SiftAll(inst, driver);
    RightAfter(inst, old(inst.pool), IdsOf(OwnedBy(old(inst.persist), driver)));
  }

  lemma FreedAll(pool: Pool, all: seq<Persist>, regs: map<nat, nat>, refs: multiset<nat>, tree: Tree, driver: bool)
    requires Freed(pool, pool, all, regs, refs, tree, {})
    ensures var gone := IdsOf(OwnedBy(all, driver));
            && Freed(pool, pool - gone, OwnedBy(all, !driver), regs - gone, refs, tree, gone)
            && gone <= IdsOf(all)
  {
    SiftStarts(all, driver);
    assert pool - {} == pool && regs - {} == regs;
    FreedUpTo(pool, all, regs, refs, tree, driver, |all|);
    OwnedByIds(all, driver, |all|);
    assert all[..|all|] == all && OwnedBy(all, !driver) + all[|all|..] == OwnedBy(all, !driver);
  }

  // The walk itself.
  method SiftAll(inst: Instance, driver: bool)
    modifies inst`pool, inst`persist, inst`regs
    ensures inst.persist == OwnedBy(old(inst.persist), !driver)
    ensures inst.pool == old(inst.pool) - IdsOf(OwnedBy(old(inst.persist), driver))
    ensures inst.regs == old(inst.regs) - IdsOf(OwnedBy(old(inst.persist), driver))
  {
    ghost var all, k: nat := inst.persist, 0;
    var i: nat := 0;
    SiftStarts(all, driver);
    while i < |inst.persist|
      invariant Sifted(all, driver, k, inst.persist, i)
      invariant inst.pool == old(inst.pool) - IdsOf(OwnedBy(all[..k], driver))
      invariant inst.regs == old(inst.regs) - IdsOf(OwnedBy(all[..k], driver))
      decreases |inst.persist| - i
    {
      i := Sift(inst, driver, i, all, k, old(inst.pool), old(inst.regs));
      k := k + 1;
    }
    SiftEnds(all, driver, k, inst.persist, i);
  }

  // One round.
  method Sift(inst: Instance, driver: bool, i: nat, ghost all: seq<Persist>, ghost k: nat, ghost pool: Pool,
              ghost regs: map<nat, nat>)
    returns (next: nat)
    requires i < |inst.persist| && Sifted(all, driver, k, inst.persist, i)
    requires var gone := IdsOf(OwnedBy(all[..k], driver)); inst.pool == pool - gone && inst.regs == regs - gone
    modifies inst`pool, inst`persist, inst`regs
    ensures Sifted(all, driver, k + 1, inst.persist, next)
    ensures var gone := IdsOf(OwnedBy(all[..k + 1], driver)); inst.pool == pool - gone && inst.regs == regs - gone
    ensures |inst.persist| - next < |old(inst.persist)| - i
  {
    SiftStep(all, driver, k, inst.persist, i);
    GoneStep(all, driver, k);
    next := i + 1;
    if (inst.persist[i].kind == Arp) == driver {
      FreeEntry(inst, i);
      next := i;
    }
  }

  // The end of a session.

  /** msm_cvp_session_deinit_buffers, up to the WNCC table: the frames are unmapped, then the buffers the client
      registered are, and then every cached mapping, so that only the driver's own memory stays mapped. */
  method DeinitBuffers(inst: Instance)
    requires inst.Valid()
    modifies inst`pool, inst`tree, inst`nr, inst`vaInst, inst`frames, inst`frameUsage, inst`persist, inst`regs
    ensures inst.Valid()
    ensures inst.frames == [] && inst.frameUsage == 0
    ensures inst.tree == Leaf && inst.nr == 0 && inst.vaInst == 0
    ensures inst.persist == OwnedBy(old(inst.persist), true)
    ensures forall id :: id in inst.pool <==> exists i :: 0 <= i < |inst.persist| && inst.persist[i].id == id
  {
    UnmapFrames(inst);
    FreeOwnedBy(inst, false);
    EmptyCache(inst);
  }

  method UnmapFrames(inst: Instance)
    requires inst.Valid()
    modifies inst`pool, inst`frames, inst`frameUsage
    ensures inst.Valid() && inst.frames == [] && inst.frameUsage == 0
  {
    while inst.frames != []
      invariant inst.Valid()
      decreases |inst.frames|
    {
      RemoveFrame(inst, 0);
    }
  }

  // The rest of the cache: the first node goes as long as there is one and the count allows it.
  method EmptyCache(inst: Instance)
    requires inst.Valid() && inst.frames == []
    modifies inst`pool, inst`tree, inst`nr, inst`vaInst
    ensures inst.Valid() && inst.tree == Leaf && inst.nr == 0 && inst.vaInst == 0
    ensures forall id :: id in inst.pool <==> exists i :: 0 <= i < |inst.persist| && inst.persist[i].id == id
  {
    FirstInOrder(inst.tree);
    var node := First(inst.tree);
    while node.Some? && inst.nr > 0
      invariant inst.Valid() && node == First(inst.tree)
      decreases inst.nr
    {
      EvictFirst(inst, node.value);
      node := First(inst.tree);
    }
    FirstInOrder(inst.tree);
    OnlyRegistered(inst);
  }

  lemma OnlyRegistered(inst: Instance)
    requires inst.Valid() && inst.frames == [] && InOrder(inst.tree) == []
    ensures forall id :: id in inst.pool <==> exists i :: 0 <= i < |inst.persist| && inst.persist[i].id == id
    ensures inst.tree == Leaf && inst.vaInst == 0
  {
  }

  method EvictFirst(inst: Instance, node: Entry)
    requires inst.Valid() && inst.frames == [] && First(inst.tree) == Some(node) && inst.nr > 0
    modifies inst`pool, inst`tree, inst`nr, inst`vaInst
    ensures inst.Valid() && inst.nr == old(inst.nr) - 1
  {
    FirstUnused(inst, node);
    ghost var was, before := inst.tree, inst.pool;
    inst.EraseNode(node.key, node.id, 0, inst.pool);
    CacheEntryGone(was, inst.tree, before, node, FrameIds(inst.frames) + multiset{}, inst.regs, inst.persist);
  }

  lemma FirstUnused(inst: Instance, node: Entry)
    requires inst.Valid() && inst.frames == [] && First(inst.tree) == Some(node)
    ensures InOrder(inst.tree) != [] && InOrder(inst.tree)[0] == node
    ensures node.id in inst.pool && SizeOf(inst.pool, node.id) == inst.pool[node.id].size
    ensures node.id !in FrameIds(inst.frames) + multiset{}
  {
    FirstInOrder(inst.tree);
  }

  lemma CacheEntryGone(was: Tree, tree: Tree, before: Pool, node: Entry, refs: multiset<nat>, regs: map<nat, nat>,
                       persist: seq<Persist>)
    requires Indexed(was, before) && Ordered(tree) && InOrder(was) != [] && node == InOrder(was)[0]
    requires InOrder(tree) == Without(InOrder(was), 0)
    requires Balanced(before, refs, regs) && Live(before) && Registered(persist, before, regs) && node.id !in refs
    ensures var pool := before - {node.id};
            && Indexed(tree, pool) && Live(pool) && Balanced(pool, refs, regs) && Registered(persist, pool, regs)
            && CachedSize(InOrder(tree), pool) == CachedSize(InOrder(tree), before)
  {
    assert node.id in before && before[node.id].cached;
    OthersBalanced(before, node.id, refs, regs, persist);
    RestIndexed(was, tree, before, node);
    CachedSizeSame(InOrder(tree), before, before - {node.id});
  }

  lemma OthersBalanced(before: Pool, id: nat, refs: multiset<nat>, regs: map<nat, nat>, persist: seq<Persist>)
    requires Balanced(before, refs, regs) && Live(before) && Registered(persist, before, regs)
    requires id in before && before[id].cached && id !in refs
    ensures var pool := before - {id}; Balanced(pool, refs, regs) && Live(pool) && Registered(persist, pool, regs)
  {
    RegistrationsKept(before, before - {id}, regs, persist);
  }

  lemma RestIndexed(was: Tree, tree: Tree, before: Pool, node: Entry)
    requires Indexed(was, before) && Ordered(tree) && InOrder(was) != [] && node == InOrder(was)[0]
    requires InOrder(tree) == Without(InOrder(was), 0)
    ensures Indexed(tree, before - {node.id})
    ensures forall i :: 0 <= i < |InOrder(tree)| ==> InOrder(tree)[i].id != node.id
  {
    var es, fs, pool := InOrder(was), InOrder(tree), before - {node.id};
    forall i | 0 <= i < |fs|
      ensures fs[i].id != node.id && fs[i].id in pool && pool[fs[i].id].dmaBuf == fs[i].key && pool[fs[i].id].cached
    {
      DistinctIds(was, before, 0, i + 1);
      assert fs[i] == es[i + 1];
    }
    forall id <- pool | pool[id].cached ensures Entry(pool[id].dmaBuf, id) in fs {
      InTail(es, fs, Entry(pool[id].dmaBuf, id));
    }
  }

  lemma InTail(es: seq<Entry>, fs: seq<Entry>, e: Entry)
    requires es != [] && fs == Without(es, 0) && e in es && e != es[0]
    ensures e in fs
  {
    var j :| 0 <= j < |es| && es[j] == e;
    assert fs[j - 1] == es[j];
  }
}
