/** The buffers of one session: mapping cache, persist list and frame list, as msm_cvp_buf.c keeps them.
    Each method is one call, made under the locks of the session. */
module DmaInstance {
  import opened Lists
  import opened Packets
  import opened SearchTree
  import opened MapCache
  import opened CacheSweep
  import opened FrameLedger
  import opened MappingSearch

  const EINVAL: int := -22
  const ENOMEM: int := -12
  const FIRST_CAPACITY: nat := 128
  const LAST_CAPACITY: nat := 256

  class Instance {
    var pool: Pool               // the mapping records in existence
    var nextId: nat              // handles from here on have never been used
    var tree: Tree               // dma_cache.rbtree
    var nr: nat                  // dma_cache.nr
    var maxCapacity: nat         // dma_cache.max_capacity
    var vaInst: int              // va_inst_watermark
    var frames: seq<Frame>
    var frameUsage: int
    var persist: seq<Persist>
    var transId: nat             // kernel_trans_id, shared with other sessions
    ghost var regs: map<nat, nat>   // registrations of each persist mapping

    /** Counts, index and sums are right, `held` being references taken for a frame not on the list yet and
        `usage` the size of its buffers. */
    ghost predicate ValidWith(held: multiset<nat>, usage: nat)
      reads this
    {
      && Balanced(pool, FrameIds(frames) + held, regs)
      && Indexed(tree, pool)
      && Live(pool)
      && Registered(persist, pool, regs)
      && (forall id <- pool :: id < nextId)
      && nr == |InOrder(tree)| <= maxCapacity
      && maxCapacity in {FIRST_CAPACITY, LAST_CAPACITY}
      && vaInst == CachedSize(InOrder(tree), pool)
      && frameUsage == FrameUsage(frames) + usage
      && Identified()
    }

    ghost predicate Valid()
      reads this
    {
      ValidWith(multiset{}, 0)
    }

    /** Until the transaction counter has gone round, no two frames carry the same id. */
    ghost predicate Identified()
      reads `transId, `frames
    {
      transId < FENCE_BIT ==>
        && (forall i :: 0 <= i < |frames| ==> frames[i].ktid <= transId)
        && (forall i, j :: 0 <= i < j < |frames| ==> frames[i].ktid != frames[j].ktid)
    }

    constructor (transId: nat)
      ensures Valid() && pool == map[] && tree == Leaf && frames == [] && persist == [] && this.transId == transId
    {
      pool, nextId, tree, nr, maxCapacity, vaInst := map[], 0, Leaf, 0, FIRST_CAPACITY, 0;
      frames, frameUsage, persist, this.transId, regs := [], 0, [], transId, map[];
    }

    /** Another session takes transaction ids. */
    method OtherTransactions(n: nat)
      requires Valid()
      modifies `transId
      ensures Valid() && transId == old(transId) + n
    {
      transId := transId + n;
    }

    /** msm_cvp_free_unused_mapping: walks the cache and unmaps what nobody refers to. */
    method FreeUnusedMapping(ghost held: multiset<nat>, ghost usage: nat) returns (freed: nat)
      requires ValidWith(held, usage)
      modifies `pool, `tree, `nr, `vaInst
      ensures ValidWith(held, usage)
      ensures forall id :: id in pool <==> id in old(pool) && !(old(pool)[id].cached && old(pool)[id].refcount == 0)
      ensures forall id <- pool :: pool[id] == old(pool)[id]
      ensures nr + freed == old(nr)
      ensures freed == 0 <==> NoneUnused(old(pool))
    {
      ghost var was, before := tree, pool;
      freed := WalkAndErase();
      SweptSound(was, tree, before, FrameIds(frames) + held, regs, persist);
    }

    // The walk itself: the next node is taken before the current one is erased.
    method WalkAndErase() returns (freed: nat)
      requires Indexed(tree, pool) && nr == |InOrder(tree)| && vaInst == CachedSize(InOrder(tree), pool)
      modifies `pool, `tree, `nr, `vaInst
      ensures Ordered(tree) && InOrder(tree) == Kept(InOrder(old(tree)), old(pool))
      ensures pool == Swept(InOrder(old(tree)), old(pool))
      ensures nr == |InOrder(tree)| && nr + freed == old(nr)
      ensures vaInst == CachedSize(InOrder(tree), old(pool))
    {
      WalkStarts(tree, pool);
      ghost var i;
      freed, i := WalkAll(tree, pool);
      WalkEnds(old(tree), old(pool), i, tree, pool);
    }

    method WalkAll(ghost was: Tree, ghost before: Pool) returns (freed: nat, ghost i: nat)
      requires Indexed(was, before) && Walk(was, before, 0, tree, pool, First(tree)) && Counted(before)
      modifies `pool, `tree, `nr, `vaInst
      ensures Walk(was, before, i, tree, pool, None) && Counted(before) && nr + freed == old(nr)
    {
      freed, i := 0, 0;
      var node := First(tree);
      while node.Some?
        invariant Walk(was, before, i, tree, pool, node)
        invariant Counted(before) && nr + freed == old(nr)
        decreases |InOrder(was)| - i
      {
        var freedOne: nat;
        node, freedOne := Visit(node.value, was, before, i);
        freed := freed + freedOne;
        i := i + 1;
      }
    }

    ghost predicate Counted(before: Pool)
      reads this
    {
      nr == |InOrder(tree)| && vaInst == CachedSize(InOrder(tree), before)
    }

    // One round of the walk.
    method Visit(node: Entry, ghost was: Tree, ghost before: Pool, ghost i: nat)
      returns (next: Option<Entry>, freed: nat)
      requires Indexed(was, before) && Walk(was, before, i, tree, pool, Some(node)) && Counted(before)
      modifies `pool, `tree, `nr, `vaInst
      ensures Walk(was, before, i + 1, tree, pool, next) && Counted(before)
      ensures nr + freed == old(nr)
    {
      ghost var k := WalkMeets(was, before, i, tree, pool, node);
      next := Next(tree, node.key);
      if pool[node.id].refcount == 0 {
        ghost var tree0, pool0 := tree, pool;
        EraseNode(node.key, node.id, k, before);
        WalkErases(was, before, i, tree0, tree, pool0, pool, node, k);
        freed := 1;
      } else {
        WalkPasses(was, before, i, tree, pool, node);
        freed := 0;
      }
    }

    // rb_erase, the unmapping and the accounting for one entry.
    method EraseNode(key: nat, id: nat, ghost k: nat, ghost before: Pool)
      requires id in pool && nr > 0 && SizeOf(before, id) == pool[id].size
      requires Counted(before)
      requires Ordered(tree) && k < |InOrder(tree)| && InOrder(tree)[k] == Entry(key, id)
      modifies `pool, `tree, `nr, `vaInst
      ensures InOrder(tree) == Without(InOrder(old(tree)), k) && Ordered(tree)
      ensures pool == old(pool) - {id} && nr == old(nr) - 1
      ensures vaInst == old(vaInst) - old(pool)[id].size && Counted(before)
    {
      var moves: seq<Rotation> := *;
      EraseInOrder(tree, k);
      RebalanceInOrder(Erase(tree, key), moves);
      CachedSizeWithout(InOrder(tree), k, before);
      tree := Rebalance(Erase(tree, key), moves);
      vaInst := vaInst - pool[id].size;
      pool := pool - {id};
      nr := nr - 1;
    }

    /** The mapping a buffer of this dma_buf would share. */
    ghost function Shared(dmaBuf: nat): Option<nat>
      reads `pool, `tree, `persist, `frames
    {
      Found(tree, persist, frames, pool, dmaBuf)
    }

    /** msm_cvp_session_find_smem: the cache, then the persist list, then the listed frames. The mapping found
        gains a reference. */
    method FindSmem(dmaBuf: nat, ghost held: multiset<nat>, ghost usage: nat) returns (r: Option<nat>)
      requires ValidWith(held, usage)
      modifies `pool
      ensures r == old(Shared(dmaBuf))
      ensures r.None? ==> pool == old(pool) && Lookup(tree, dmaBuf) == None
      ensures r.Some? ==>
                && Maps(old(pool), r.value, dmaBuf)
                && pool == old(pool)[r.value := Referenced(old(pool)[r.value])]
                && ValidWith(held + multiset{r.value}, usage)
    {
      FoundExactly(tree, persist, frames, pool, regs, dmaBuf);
      LookupInOrder(tree, dmaBuf);
      r := Find(tree, dmaBuf);
      if r.Some? {
        assert Entry(dmaBuf, r.value) in InOrder(tree) && pool[r.value].cached;
        assert pool[r.value := pool[r.value].(cached := true)] == pool;
        pool := pool[r.value := pool[r.value].(cached := true)];
      } else {
        r := SearchPersist(dmaBuf);
        if r.None? {
          r := SearchFrames(dmaBuf, held, usage);
        }
      }
      if r.Some? {
        TakeReference(r.value, held, usage);
      }
    }

    // The first registered mapping of a dma_buf.
    method SearchPersist(dmaBuf: nat) returns (r: Option<nat>)
      requires Registered(persist, pool, regs)
      ensures r == InPersist(persist, pool, dmaBuf)
    {
      for i := 0 to |persist|
        invariant InPersist(persist, pool, dmaBuf) == InPersist(persist[i..], pool, dmaBuf)
      {
        if pool[persist[i].id].dmaBuf == dmaBuf {
          return Some(persist[i].id);
        }
      }
      return None;
    }

    // The first mapping of a dma_buf that a listed frame refers to.
    method SearchFrames(dmaBuf: nat, ghost held: multiset<nat>, ghost usage: nat) returns (r: Option<nat>)
      requires ValidWith(held, usage)
      ensures r == InFrames(frames, pool, dmaBuf)
    {
      for i := 0 to |frames|
        invariant InFrames(frames, pool, dmaBuf) == InFrames(frames[i..], pool, dmaBuf)
      {
        FrameInIds(frames, i);
        r := SearchSlots(frames[i].bufs, dmaBuf);
        if r.Some? {
          return r;
        }
      }
      return None;
    }

    method SearchSlots(bufs: seq<Slot>, dmaBuf: nat) returns (r: Option<nat>)
      requires forall id <- Ids(bufs) :: id in pool
      ensures r == InSlots(bufs, pool, dmaBuf)
    {
      for k := 0 to |bufs|
        invariant InSlots(bufs, pool, dmaBuf) == InSlots(bufs[k..], pool, dmaBuf)
      {
        SlotInIds(bufs, k);
        if pool[bufs[k].id].dmaBuf == dmaBuf {
          return Some(bufs[k].id);
        }
      }
      return None;
    }

    // atomic_inc on a reference count.
    method TakeReference(id: nat, ghost held: multiset<nat>, ghost usage: nat)
      requires ValidWith(held, usage) && id in pool
      modifies `pool
      ensures pool == old(pool)[id := Referenced(old(pool)[id])]
      ensures ValidWith(held + multiset{id}, usage)
    {
      ReferenceTaken(pool, id, FrameIds(frames) + held, regs, tree, persist);
      assert FrameIds(frames) + (held + multiset{id}) == FrameIds(frames) + held + multiset{id};
      CachedSizeSame(InOrder(tree), pool, pool[id := Referenced(pool[id])]);
      pool := pool[id := Referenced(pool[id])];
    }

    // rb_link_node and rb_insert_color: the tree with one more node.
    method LinkAndRebalance(smem: Smem, id: nat, moves: seq<Rotation>, ghost held: multiset<nat>) returns (after: Tree)
      requires id !in pool && Indexed(tree, pool) && Lookup(tree, smem.dmaBuf) == None
      requires Balanced(pool, FrameIds(frames) + held, regs) && Live(pool) && Registered(persist, pool, regs)
      ensures var added := WithNew(pool, id, smem, true);
              && Indexed(after, added) && |InOrder(after)| == |InOrder(tree)| + 1
              && CachedSize(InOrder(after), added) == CachedSize(InOrder(tree), pool) + smem.size
              && Balanced(added, FrameIds(frames) + (held + multiset{id}), regs) && Live(added)
              && Registered(persist, added, regs)
    {
      after := Rebalance(Link(tree, Entry(smem.dmaBuf, id)), moves);
      MappingAdded(pool, id, smem, tree, after, moves, FrameIds(frames), held, regs, persist);
    }

    // msm_cvp_add_smem_rb_node, together with the count the caller then takes.
    method AddRbNode(smem: Smem, moves: seq<Rotation>, ghost held: multiset<nat>, ghost usage: nat) returns (id: nat)
      requires ValidWith(held, usage) && nr < maxCapacity && Lookup(tree, smem.dmaBuf) == None
      modifies `pool, `nextId, `tree, `nr, `vaInst
      ensures id == old(nextId) && nextId == id + 1 && pool == WithNew(old(pool), id, smem, true)
      ensures ValidWith(held + multiset{id}, usage) && nr == old(nr) + 1
    {
      id := nextId;
      var linked := LinkAndRebalance(smem, id, moves, held);
      Install(WithNew(pool, id, smem, true), linked, smem.size, held + multiset{id}, usage);
    }

    // The fields after a mapping has been added to the tree.
    method Install(added: Pool, linked: Tree, size: Word, ghost held: multiset<nat>, ghost usage: nat)
      requires Balanced(added, FrameIds(frames) + held, regs) && Indexed(linked, added) && Live(added)
      requires Registered(persist, added, regs) && forall id <- added :: id <= nextId
      requires nr == |InOrder(linked)| - 1 && nr < maxCapacity && maxCapacity in {FIRST_CAPACITY, LAST_CAPACITY}
      requires vaInst + size == CachedSize(InOrder(linked), added)
      requires frameUsage == FrameUsage(frames) + usage && Identified()
      modifies `pool, `nextId, `tree, `nr, `vaInst
      ensures pool == added && tree == linked && nextId == old(nextId) + 1 && nr == old(nr) + 1
      ensures ValidWith(held, usage)
    {
      pool, tree, nextId, nr, vaInst := added, linked, nextId + 1, nr + 1, vaInst + size;
    }

    // A mapping that stays outside the cache.
    method AddUncached(smem: Smem, ghost held: multiset<nat>, ghost usage: nat) returns (id: nat)
      requires ValidWith(held, usage)
      modifies `pool, `nextId
      ensures id == old(nextId) && nextId == id + 1 && pool == WithNew(old(pool), id, smem, false)
      ensures ValidWith(held + multiset{id}, usage)
    {
      id := nextId;
      UncachedAdded(pool, id, smem, tree, FrameIds(frames), held, regs, persist);
      pool, nextId := WithNew(pool, id, smem, false), nextId + 1;
    }

    // The cache is full: evict, and raise the capacity for next time.
    method MakeRoom(dmaBuf: nat, ghost held: multiset<nat>, ghost usage: nat) returns (freed: nat)
      requires ValidWith(held, usage) && Lookup(tree, dmaBuf) == None
      modifies `pool, `tree, `nr, `maxCapacity, `vaInst
      ensures ValidWith(held, usage) && Lookup(tree, dmaBuf) == None && nr + freed == old(nr)
      ensures Evicted(old(pool), pool) && maxCapacity == LAST_CAPACITY
      ensures NoneUnused(pool) && (freed == 0 <==> NoneUnused(old(pool)))
    {
      ghost var was, before := tree, pool;
      freed := FreeUnusedMapping(held, usage);
      StillAbsent(was, before, tree, pool, dmaBuf);
      RaiseCapacity(held, usage);
    }

    // The capacity for next time.
    method RaiseCapacity(ghost held: multiset<nat>, ghost usage: nat)
      requires ValidWith(held, usage)
      modifies `maxCapacity
      ensures ValidWith(held, usage) && maxCapacity == LAST_CAPACITY
    {
      if maxCapacity < LAST_CAPACITY {
        maxCapacity := LAST_CAPACITY;
      }
    }

    // A new mapping, in the cache or outside.
    method Place(smem: Smem, room: bool, moves: seq<Rotation>, ghost held: multiset<nat>, ghost usage: nat)
      returns (id: nat)
      requires ValidWith(held, usage) && Lookup(tree, smem.dmaBuf) == None && (room ==> nr < maxCapacity)
      modifies `pool, `nextId, `tree, `nr, `vaInst
      ensures id == old(nextId) && nextId == id + 1 && pool == WithNew(old(pool), id, smem, room)
      ensures ValidWith(held + multiset{id}, usage) && nr == old(nr) + if room then 1 else 0
    {
      if room {
        id := AddRbNode(smem, moves, held, usage);
      } else {
        id := AddUncached(smem, held, usage);
      }
    }

    /** msm_cvp_session_add_smem: into the cache if there is room or eviction makes some; otherwise the mapping
        stays outside it (-ENOMEM). The first time the cache is full its capacity goes up to 256. */
    method AddSmem(smem: Smem, moves: seq<Rotation>, ghost held: multiset<nat>, ghost usage: nat)
      returns (rc: int, id: nat)
      requires ValidWith(held, usage) && Lookup(tree, smem.dmaBuf) == None
      modifies `pool, `nextId, `tree, `nr, `maxCapacity, `vaInst
      ensures ValidWith(held + multiset{id}, usage)
      ensures Taken(old(pool), pool, old(nextId), multiset{id}) && id in pool
      ensures id == old(nextId) && nextId == id + 1 && (pool[id].cached <==> rc == 0)
      ensures Housed(old(pool), pool, id, smem, old(nr) < old(maxCapacity))
      ensures old(nr) < old(maxCapacity) ==> nr == old(nr) + 1
      ensures rc in {0, ENOMEM}
      ensures rc == ENOMEM <==> old(nr) == old(maxCapacity) && NoneUnused(old(pool))
      ensures maxCapacity == if old(nr) < old(maxCapacity) then old(maxCapacity) else LAST_CAPACITY
    {
      if nr >= maxCapacity {
        rc, id := AddToFull(smem, moves, held, usage);
      } else {
        TakenAfterEviction(pool, pool, nextId, smem.(refcount := 1, cached := true));
        id := Place(smem, true, moves, held, usage);
        rc := 0;
      }
    }

    // The cache is full: what is unused makes way.
    method AddToFull(smem: Smem, moves: seq<Rotation>, ghost held: multiset<nat>, ghost usage: nat)
      returns (rc: int, id: nat)
      requires ValidWith(held, usage) && Lookup(tree, smem.dmaBuf) == None && nr >= maxCapacity
      modifies `pool, `nextId, `tree, `nr, `maxCapacity, `vaInst
      ensures ValidWith(held + multiset{id}, usage)
      ensures Taken(old(pool), pool, old(nextId), multiset{id}) && id == old(nextId) && nextId == id + 1
      ensures Housed(old(pool), pool, id, smem, false) && maxCapacity == LAST_CAPACITY
      ensures rc == if NoneUnused(old(pool)) then ENOMEM else 0
    {
      var freed := MakeRoom(smem.dmaBuf, held, usage);
      HousedAfterEviction(old(pool), pool, nextId, smem, freed > 0);
      TakenAfterEviction(old(pool), pool, nextId, smem.(refcount := 1, cached := freed > 0));
      id := Place(smem, freed > 0, moves, held, usage);
      rc := if freed == 0 then ENOMEM else 0;
    }

    /** Whether a buffer can be mapped: its range must lie in the mapping it would share, or in a new one. */
    ghost predicate Accepts(buf: Desc, env: Env)
      reads `pool, `tree, `persist, `frames
    {
      && env.dmaBuf.Some?
      && match Shared(env.dmaBuf.value)
         case Some(id) => id in pool && BufValid(buf, pool[id].size)
         case None => env.granted && env.mapping.Some? && BufValid(buf, env.mapping.value.size)
    }

    /** msm_cvp_session_get_smem for the buffer of a frame: a shared mapping, or a new one for the cache. */
    method GetSmem(buf: Desc, env: Env, ghost held: multiset<nat>, ghost usage: nat) returns (r: Option<nat>)
      requires ValidWith(held, usage)
      modifies `pool, `nextId, `tree, `nr, `maxCapacity, `vaInst
      ensures r.Some? <==> old(Accepts(buf, env))
      ensures r.Some? ==>
                && ValidWith(held + multiset{r.value}, usage) && nextId >= old(nextId)
                && Taken(old(pool), pool, old(nextId), multiset{r.value})
                && r.value in pool && pool[r.value].dmaBuf == env.dmaBuf.value && BufValid(buf, pool[r.value].size)
      ensures r.Some? ==>
                Obtained(old(Shared(env.dmaBuf.value)), old(pool), pool, r.value, env, old(nr) < old(maxCapacity))
      ensures r.Some? && old(nr) < old(maxCapacity) ==>
                nr == old(nr) + if old(Shared(env.dmaBuf.value)).None? then 1 else 0
      ensures r.None? ==> ValidWith(held, usage) && pool == old(pool) && nextId == old(nextId)
    {
      if env.dmaBuf.None? {
        return None;
      }
      ghost var before := pool;
      r := FindSmem(env.dmaBuf.value, held, usage);
      if r.Some? {
        SharedTaken(before, r.value, nextId);
        if !BufValid(buf, pool[r.value].size) {
          TakeAndReturn(before, r.value);
          ReturnReference(r.value, held, usage);
          r := None;
        }
      } else {
        r := NewSmem(buf, env, held, usage);
      }
    }

    // Nothing to share: map the buffer and offer the mapping to the cache.
    method NewSmem(buf: Desc, env: Env, ghost held: multiset<nat>, ghost usage: nat) returns (r: Option<nat>)
      requires ValidWith(held, usage) && env.dmaBuf.Some? && Lookup(tree, env.dmaBuf.value) == None
      modifies `pool, `nextId, `tree, `nr, `maxCapacity, `vaInst
      ensures r.Some? <==> env.granted && env.mapping.Some? && BufValid(buf, env.mapping.value.size)
      ensures r.Some? ==>
                && ValidWith(held + multiset{r.value}, usage) && nextId >= old(nextId)
                && Taken(old(pool), pool, old(nextId), multiset{r.value})
                && Housed(old(pool), pool, r.value, OwnMapping(env), old(nr) < old(maxCapacity))
                && (old(nr) < old(maxCapacity) ==> nr == old(nr) + 1)
      ensures r.None? ==> ValidWith(held, usage) && pool == old(pool) && nextId == old(nextId)
    {
      if !env.granted || env.mapping.None? || !BufValid(buf, env.mapping.value.size) {
        return None;
      }
      var smem := Smem(env.dmaBuf.value, 0, env.mapping.value.size, env.mapping.value.iova, false);
      var rc, id := AddSmem(smem, env.moves, held, usage);
      return Some(id);
    }

    // atomic_dec after a mapping was found too small for the buffer.
    method ReturnReference(id: nat, ghost held: multiset<nat>, ghost usage: nat)
      requires ValidWith(held + multiset{id}, usage) && id in pool && pool[id].refcount > 0
      requires pool[id].cached || pool[id].refcount > 1
      modifies `pool
      ensures ValidWith(held, usage) && pool == Released(old(pool), id)
    {
      ReferenceDropped(pool, id, FrameIds(frames), held, regs, tree, persist);
      pool := pool[id := pool[id].(refcount := pool[id].refcount - 1)];
    }

    /** msm_cvp_session_get_smem for a persist buffer: always a mapping of its own. */
    method GetPersistSmem(buf: Desc, env: Env, ghost held: multiset<nat>, ghost usage: nat) returns (r: Option<nat>)
      requires ValidWith(held, usage)
      modifies `pool, `nextId
      ensures r.Some? <==> env.dmaBuf.Some? && env.granted && env.mapping.Some? && BufValid(buf, env.mapping.value.size)
      ensures r.Some? ==>
                && r.value == old(nextId) && ValidWith(held + multiset{r.value}, usage) && nextId == r.value + 1
                && var m := env.mapping.value;
                   pool == old(pool)[r.value := Smem(env.dmaBuf.value, 1, m.size, m.iova, false)]
      ensures r.None? ==> ValidWith(held, usage) && pool == old(pool) && nextId == old(nextId)
    {
      if env.dmaBuf.None? || !env.granted || env.mapping.None? || !BufValid(buf, env.mapping.value.size) {
        return None;
      }
      var smem := Smem(env.dmaBuf.value, 0, env.mapping.value.size, env.mapping.value.iova, false);
      var id := AddUncached(smem, held, usage);
      return Some(id);
    }
  }
}
