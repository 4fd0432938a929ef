/** Mappings, frames and registrations as values, and how reference counts and sums follow changes to them. */
module MapCache {
  import opened Lists
  import opened Packets
  import opened SearchTree

  /** One DMA mapping (struct msm_cvp_smem), known by a handle that stands for its address. */
  datatype Smem = Smem(dmaBuf: nat, refcount: nat, size: Word, iova: Word, cached: bool)

  /** One buffer of a frame, with the handle of its mapping. */
  datatype Slot = Slot(fd: Word, size: Word, offset: Word, id: nat)

  const MAX_FRAME_BUFFER_NUMS: nat := 40

  datatype Frame = Frame(ktid: nat, bufs: seq<Slot>)

  datatype Kind = Feature | User | Arp

  /** An entry of the persist list. */
  datatype Persist = Persist(fd: Word, size: Word, kind: Kind, id: nat)

  type Pool = map<nat, Smem>

  /** A buffer descriptor of a packet (struct cvp_buf_type of HFI version 2, whose fd is unsigned). */
  datatype Desc = Desc(fd: Word, size: Word, offset: Word)

  /** What the kernel answers while one buffer is mapped: the dma_buf behind the fd, whether the record
      could be allocated, and the iova and size the IOMMU gave it. */
  datatype Mapped = Mapped(iova: Word, size: Word)
  datatype Env = Env(dmaBuf: Option<nat>, granted: bool, mapping: Option<Mapped>, moves: seq<Rotation>)

  /** IS_CVP_BUF_VALID, in 32-bit arithmetic. */
  predicate BufValid(buf: Desc, size: Word) {
    buf.size <= size && buf.size <= (size - buf.offset) % 0x1_0000_0000
  }

  /** Together with an offset that is not past the end, the check means that the range lies inside the mapping. It
      does not look at the offset itself: past the end the subtraction goes round. */
  lemma BufValidIsInside(buf: Desc, size: Word)
    ensures BufValid(buf, size) && buf.offset <= size <==> buf.offset + buf.size <= size
    ensures buf.offset > size ==>
              (BufValid(buf, size) <==> buf.size <= size && buf.offset + buf.size <= size + 0x1_0000_0000)
  {
    if buf.offset > size {
      assert (size - buf.offset) % 0x1_0000_0000 == size - buf.offset + 0x1_0000_0000;
    }
  }

  // References.

  /** The references the slots of a frame stand for. */
  function Ids(bufs: seq<Slot>): multiset<nat> {
    if bufs == [] then multiset{} else Ids(bufs[..|bufs| - 1]) + multiset{bufs[|bufs| - 1].id}
  }

  lemma IdsSnoc(bufs: seq<Slot>, b: Slot)
    ensures Ids(bufs + [b]) == Ids(bufs) + multiset{b.id}
  {
    assert (bufs + [b])[..|bufs|] == bufs;
  }

  lemma {:induction false} IdsAppendAt(a: seq<Slot>, b: seq<Slot>, id: nat)
    ensures Ids(a + b)[id] == Ids(a)[id] + Ids(b)[id]
  {
    if b == [] {
      assert a + b == a;
    } else {
      IdsAppendAt(a, b[..|b| - 1], id);
      assert (a + b)[..|a + b| - 1] == a + b[..|b| - 1];
    }
  }

  lemma IdsAppend(a: seq<Slot>, b: seq<Slot>)
    ensures Ids(a + b) == Ids(a) + Ids(b)
  {
    forall id: nat ensures Ids(a + b)[id] == (Ids(a) + Ids(b))[id] {
      IdsAppendAt(a, b, id);
    }
  }

  function FrameIds(frames: seq<Frame>): multiset<nat> {
    if frames == [] then multiset{} else Ids(frames[0].bufs) + FrameIds(frames[1..])
  }

  lemma {:induction false} FrameIdsSnoc(frames: seq<Frame>, f: Frame)
    ensures FrameIds(frames + [f]) == FrameIds(frames) + Ids(f.bufs)
    ensures FrameUsage(frames + [f]) == FrameUsage(frames) + Usage(f.bufs)
  {
    if frames == [] {
      assert [] + [f] == [f];
    } else {
      assert (frames + [f])[1..] == frames[1..] + [f];
      FrameIdsSnoc(frames[1..], f);
    }
  }

  lemma {:induction false} FrameIdsDelist(frames: seq<Frame>, i: nat)
    requires i < |frames|
    ensures FrameIds(frames) == FrameIds(Without(frames, i)) + Ids(frames[i].bufs)
  {
    if i == 0 {
      assert Without(frames, i) == frames[1..];
    } else {
      FrameIdsDelist(frames[1..], i - 1);
      WithoutCons(frames, i);
      assert Without(frames, i)[1..] == Without(frames[1..], i - 1);
    }
  }

  lemma {:induction false} FrameUsageDelist(frames: seq<Frame>, i: nat)
    requires i < |frames|
    ensures FrameUsage(frames) == FrameUsage(Without(frames, i)) + Usage(frames[i].bufs)
  {
    if i == 0 {
      assert Without(frames, i) == frames[1..];
    } else {
      FrameUsageDelist(frames[1..], i - 1);
      WithoutCons(frames, i);
      assert Without(frames, i)[1..] == Without(frames[1..], i - 1);
    }
  }

  /** A slot of a listed frame refers to its mapping. */
  lemma {:induction false} SlotInIds(bufs: seq<Slot>, k: nat)
    requires k < |bufs|
    ensures bufs[k].id in Ids(bufs)
    decreases |bufs|
  {
    if k < |bufs| - 1 {
      SlotInIds(bufs[..|bufs| - 1], k);
    }
  }

  lemma {:induction false} FrameInIds(frames: seq<Frame>, i: nat)
    requires i < |frames|
    ensures Ids(frames[i].bufs) <= FrameIds(frames)
  {
    if i > 0 {
      FrameInIds(frames[1..], i - 1);
    }
  }

  // Sizes.

  function Usage(bufs: seq<Slot>): nat {
    if bufs == [] then 0 else Usage(bufs[..|bufs| - 1]) + bufs[|bufs| - 1].size
  }

  lemma UsageSnoc(bufs: seq<Slot>, b: Slot)
    ensures Usage(bufs + [b]) == Usage(bufs) + b.size
  {
    assert (bufs + [b])[..|bufs|] == bufs;
  }

  function FrameUsage(frames: seq<Frame>): nat {
    if frames == [] then 0 else Usage(frames[0].bufs) + FrameUsage(frames[1..])
  }

  function SizeOf(pool: Pool, id: nat): nat {
    if id in pool then pool[id].size else 0
  }

  /** Total size of the mappings a walk of the tree meets. */
  function CachedSize(es: seq<Entry>, pool: Pool): nat {
    if es == [] then 0 else SizeOf(pool, es[0].id) + CachedSize(es[1..], pool)
  }

  lemma {:induction false} CachedSizeAppend(a: seq<Entry>, b: seq<Entry>, pool: Pool)
    ensures CachedSize(a + b, pool) == CachedSize(a, pool) + CachedSize(b, pool)
  {
    if a == [] {
      assert a + b == b;
    } else {
      assert (a + b)[1..] == a[1..] + b;
      CachedSizeAppend(a[1..], b, pool);
    }
  }

  lemma {:induction false} CachedSizeSame(es: seq<Entry>, p: Pool, q: Pool)
    requires forall i :: 0 <= i < |es| ==> SizeOf(p, es[i].id) == SizeOf(q, es[i].id)
    ensures CachedSize(es, p) == CachedSize(es, q)
  {
    if es != [] {
      CachedSizeSame(es[1..], p, q);
    }
  }

  lemma {:induction false} CachedSizeInsert(es: seq<Entry>, e: Entry, pool: Pool)
    ensures CachedSize(Insert(es, e), pool) == CachedSize(es, pool) + SizeOf(pool, e.id)
    ensures |Insert(es, e)| == |es| + 1
  {
    if es == [] || e.key < es[0].key {
      assert ([e] + es)[1..] == es;
    } else {
      CachedSizeInsert(es[1..], e, pool);
      assert ([es[0]] + Insert(es[1..], e))[1..] == Insert(es[1..], e);
    }
  }

  // Invariants.

  function Count(m: map<nat, nat>, id: nat): nat {
    if id in m then m[id] else 0
  }

  /** One more of these. */
  function Counted(m: map<nat, nat>, id: nat): map<nat, nat> {
    m[id := Count(m, id) + 1]
  }

  /** Every count is the number of references plus the number of registrations, and nothing refers to a
      mapping that is gone. */
  ghost predicate Balanced(pool: Pool, refs: multiset<nat>, regs: map<nat, nat>) {
    && (forall id <- pool :: pool[id].refcount == refs[id] + Count(regs, id))
    && (forall id <- refs :: id in pool)
    && regs.Keys <= pool.Keys
  }

  /** The tree holds exactly the cached mappings, each under its own dma_buf. */
  ghost predicate Indexed(tree: Tree, pool: Pool) {
    && Ordered(tree)
    && (forall i :: 0 <= i < |InOrder(tree)| ==>
          var e := InOrder(tree)[i]; e.id in pool && pool[e.id].dmaBuf == e.key && pool[e.id].cached)
    && (forall id <- pool :: pool[id].cached ==> Entry(pool[id].dmaBuf, id) in InOrder(tree))
  }

  /** A mapping outside the cache is there because somebody refers to it. */
  ghost predicate Live(pool: Pool) {
    forall id <- pool :: pool[id].cached || pool[id].refcount > 0
  }

  ghost predicate Registered(persist: seq<Persist>, pool: Pool, regs: map<nat, nat>) {
    && (forall i :: 0 <= i < |persist| ==> persist[i].id in regs)
    && (forall i, j :: 0 <= i < j < |persist| ==> persist[i].id != persist[j].id)
    && (forall id <- regs :: regs[id] > 0 && id in pool && !pool[id].cached &&
          exists i :: 0 <= i < |persist| && persist[i].id == id)
  }

  // Changes.

  /** References `ids` have been taken. Mappings without references may have been evicted meanwhile, and new
      ones, with handles from `next` on, made. */
  ghost predicate Taken(before: Pool, after: Pool, next: nat, ids: multiset<nat>) {
    && (forall id <- before :: if id in after then after[id] == before[id].(refcount := before[id].refcount + ids[id])
                               else before[id].cached && before[id].refcount == 0 && ids[id] == 0)
    && (forall id <- after :: id in before || (id >= next && after[id].refcount == ids[id]))
  }

  lemma TakenThen(p: Pool, q: Pool, r: Pool, next: nat, later: nat, a: multiset<nat>, b: multiset<nat>)
    requires Taken(p, q, next, a) && Taken(q, r, later, b) && next <= later
    requires forall id <- p :: id < next
    requires forall id <- q :: id < later
    requires (forall id <- a :: id in q) && (forall id <- b :: id in r)
    ensures Taken(p, r, next, a + b)
  {
    forall id | id in p
      ensures if id in r then r[id] == p[id].(refcount := p[id].refcount + (a + b)[id])
              else p[id].cached && p[id].refcount == 0 && (a + b)[id] == 0
    {
      if id in q {
        assert q[id] == p[id].(refcount := p[id].refcount + a[id]);
      }
    }
  }

  /** References `ids` have been dropped, and uncached mappings that lost their last one unmapped. */
  ghost predicate Dropped(before: Pool, after: Pool, ids: multiset<nat>) {
    && (forall id <- before ::
          && ids[id] <= before[id].refcount
          && var left := before[id].refcount - ids[id];
             if ids[id] > 0 && left == 0 && !before[id].cached then id !in after
             else id in after && after[id] == before[id].(refcount := left))
    && (forall id <- after :: id in before)
  }

  /** Every mapping is as it was, except that unreferenced cached ones may have gone or come. */
  ghost predicate SameReferences(before: Pool, after: Pool) {
    && (forall id <- before :: if id in after then after[id] == before[id]
                               else before[id].cached && before[id].refcount == 0)
    && (forall id <- after :: id !in before ==> after[id].cached && after[id].refcount == 0)
  }

  /** Taking references and dropping the same ones again rolls every reference count back, whatever was
      evicted or added on the way. */
  lemma Rollback(p: Pool, q: Pool, r: Pool, next: nat, ids: multiset<nat>)
    requires Taken(p, q, next, ids) && Dropped(q, r, ids)
    requires Live(p) && Live(q)
    ensures SameReferences(p, r)
  {
    forall id | id in r && id !in p
      ensures r[id].cached && r[id].refcount == 0
    {
      assert q[id].refcount == ids[id];
    }
  }

  function Referenced(s: Smem): Smem {
    s.(refcount := s.refcount + 1)
  }

  // One more reference to a mapping.
  lemma ReferenceTaken(pool: Pool, id: nat, refs: multiset<nat>, regs: map<nat, nat>, tree: Tree, persist: seq<Persist>)
    requires id in pool && Balanced(pool, refs, regs) && Indexed(tree, pool) && Live(pool)
    requires Registered(persist, pool, regs)
    ensures var after := pool[id := Referenced(pool[id])];
            && Balanced(after, refs + multiset{id}, regs) && Indexed(tree, after) && Live(after)
            && Registered(persist, after, regs)
  {
  }

  /** The pool with a new mapping in it, which starts with one reference. */
  function WithNew(pool: Pool, id: nat, smem: Smem, cached: bool): Pool {
    pool[id := smem.(refcount := 1, cached := cached)]
  }

  /** A new mapping has been made for the cache: with room, that is all; without, everything unused has made way, and
      it goes into the cache exactly if there was something. */
  ghost predicate Housed(before: Pool, after: Pool, id: nat, smem: Smem, room: bool) {
    && id !in before && id in after && after[id] == smem.(refcount := 1, cached := room || !NoneUnused(before))
    && (forall other <- after :: other == id || other in before)
    && (if room then after == WithNew(before, id, smem, true) else NoneUnused(after))
  }

  lemma HousedAfterEviction(before: Pool, left: Pool, id: nat, smem: Smem, cached: bool)
    requires Evicted(before, left) && NoneUnused(left) && id !in before && (cached <==> !NoneUnused(before))
    ensures Housed(before, WithNew(left, id, smem, cached), id, smem, false)
  {
    NewIsUsed(left, id, smem, cached);
  }

  /** What the kernel's answers make of a buffer mapped anew. */
  function OwnMapping(env: Env): Smem
    requires env.dmaBuf.Some? && env.mapping.Some?
  {
    Smem(env.dmaBuf.value, 1, env.mapping.value.size, env.mapping.value.iova, false)
  }

  /** How a buffer has come to a mapping: it shares one, whose count goes up, or one has been made for the cache. */
  ghost predicate Obtained(shared: Option<nat>, before: Pool, after: Pool, id: nat, env: Env, room: bool) {
    match shared
    case Some(other) => id == other && id in before && after == before[id := Referenced(before[id])]
    case None =>
      env.dmaBuf.Some? && env.granted && env.mapping.Some? && Housed(before, after, id, OwnMapping(env), room)
  }

  // A new mapping that starts with one reference.
  lemma MappingCounted(pool: Pool, id: nat, smem: Smem, refs: multiset<nat>, regs: map<nat, nat>, persist: seq<Persist>)
    requires id !in pool && smem.refcount == 1
    requires Balanced(pool, refs, regs) && Live(pool) && Registered(persist, pool, regs)
    ensures Balanced(pool[id := smem], refs + multiset{id}, regs) && Live(pool[id := smem])
    ensures Registered(persist, pool[id := smem], regs)
  {
  }

  // One that stays outside.
  lemma UncachedAdded(pool: Pool, id: nat, smem: Smem, tree: Tree, frames: multiset<nat>, held: multiset<nat>,
                      regs: map<nat, nat>, persist: seq<Persist>)
    requires id !in pool && Indexed(tree, pool)
    requires Balanced(pool, frames + held, regs) && Live(pool) && Registered(persist, pool, regs)
    ensures var added := WithNew(pool, id, smem, false);
            && Indexed(tree, added) && CachedSize(InOrder(tree), added) == CachedSize(InOrder(tree), pool)
            && Balanced(added, frames + (held + multiset{id}), regs) && Live(added) && Registered(persist, added, regs)
  {
    MappingCounted(pool, id, smem.(refcount := 1, cached := false), frames + held, regs, persist);
    assert frames + (held + multiset{id}) == frames + held + multiset{id};
    CachedSizeSame(InOrder(tree), pool, WithNew(pool, id, smem, false));
  }

  // A new mapping that goes into the tree.
  lemma MappingCached(pool: Pool, id: nat, smem: Smem, tree: Tree, moves: seq<Rotation>)
    requires id !in pool && Indexed(tree, pool) && Lookup(tree, smem.dmaBuf) == None
    ensures var after := Rebalance(Link(tree, Entry(smem.dmaBuf, id)), moves);
            var added := WithNew(pool, id, smem, true);
            && Indexed(after, added) && |InOrder(after)| == |InOrder(tree)| + 1
            && CachedSize(InOrder(after), added) == CachedSize(InOrder(tree), pool) + smem.size
  {
    var e := Entry(smem.dmaBuf, id);
    LookupInOrder(tree, smem.dmaBuf);
    AddInOrder(tree, e, moves);
    MappingInserted(pool, id, smem, tree, Rebalance(Link(tree, e), moves));
  }

  lemma MappingInserted(pool: Pool, id: nat, smem: Smem, tree: Tree, after: Tree)
    requires id !in pool && Indexed(tree, pool) && Ordered(after)
    requires InOrder(after) == Insert(InOrder(tree), Entry(smem.dmaBuf, id))
    requires multiset(InOrder(after)) == multiset(InOrder(tree)) + multiset{Entry(smem.dmaBuf, id)}
    ensures var added := WithNew(pool, id, smem, true);
            && Indexed(after, added) && |InOrder(after)| == |InOrder(tree)| + 1
            && CachedSize(InOrder(after), added) == CachedSize(InOrder(tree), pool) + smem.size
  {
    var e, added := Entry(smem.dmaBuf, id), WithNew(pool, id, smem, true);
    MembersAfterAdd(InOrder(tree), InOrder(after), e);
    EntryIndexed(pool, id, smem, tree, after);
    SizeInserted(pool, added, InOrder(tree), e);
  }

  lemma MembersAfterAdd(es: seq<Entry>, fs: seq<Entry>, e: Entry)
    requires multiset(fs) == multiset(es) + multiset{e}
    ensures forall f: Entry :: f in fs <==> f in es || f == e
  {
    forall f: Entry { MemberAfterAdd(es, fs, e, f); }
  }

  lemma SizeInserted(pool: Pool, added: Pool, es: seq<Entry>, e: Entry)
    requires forall i :: 0 <= i < |es| ==> es[i].id in pool
    requires e.id !in pool && e.id in added && added == pool[e.id := added[e.id]]
    ensures |Insert(es, e)| == |es| + 1
    ensures CachedSize(Insert(es, e), added) == CachedSize(es, pool) + added[e.id].size
  {
    CachedSizeInsert(es, e, added);
    CachedSizeSame(es, pool, added);
  }

  // Both together, `held` being references taken for a frame that is not listed yet.
  lemma MappingAdded(pool: Pool, id: nat, smem: Smem, tree: Tree, after: Tree, moves: seq<Rotation>,
                     frames: multiset<nat>, held: multiset<nat>, regs: map<nat, nat>, persist: seq<Persist>)
    requires id !in pool && Indexed(tree, pool) && Lookup(tree, smem.dmaBuf) == None
    requires after == Rebalance(Link(tree, Entry(smem.dmaBuf, id)), moves)
    requires Balanced(pool, frames + held, regs) && Live(pool) && Registered(persist, pool, regs)
    ensures var added := WithNew(pool, id, smem, true);
            && Indexed(after, added) && |InOrder(after)| == |InOrder(tree)| + 1
            && CachedSize(InOrder(after), added) == CachedSize(InOrder(tree), pool) + smem.size
            && Balanced(added, frames + (held + multiset{id}), regs) && Live(added) && Registered(persist, added, regs)
  {
    MappingCached(pool, id, smem, tree, moves);
    MappingCounted(pool, id, smem.(refcount := 1, cached := true), frames + held, regs, persist);
    assert frames + (held + multiset{id}) == frames + held + multiset{id};
  }

  // The index after one entry more, given which entries the tree now holds.
  lemma EntryIndexed(pool: Pool, id: nat, smem: Smem, tree: Tree, after: Tree)
    requires id !in pool && Indexed(tree, pool) && Ordered(after)
    requires forall f: Entry :: f in InOrder(after) <==> f in InOrder(tree) || f == Entry(smem.dmaBuf, id)
    ensures Indexed(after, WithNew(pool, id, smem, true))
  {
    var fs, added := InOrder(after), WithNew(pool, id, smem, true);
    forall i | 0 <= i < |fs|
      ensures fs[i].id in added && added[fs[i].id].dmaBuf == fs[i].key && added[fs[i].id].cached
    {
      assert fs[i] in fs;
    }
  }

  /** Mappings may have been evicted: every one that is gone was cached and unreferenced. */
  ghost predicate Evicted(before: Pool, left: Pool) {
    && (forall id <- left :: id in before && left[id] == before[id])
    && (forall id <- before :: id in left || (before[id].cached && before[id].refcount == 0))
  }

  /** Every cached mapping is referred to, so that eviction would find nothing. */
  ghost predicate NoneUnused(pool: Pool) {
    forall id <- pool :: pool[id].cached ==> pool[id].refcount > 0
  }

  lemma NewIsUsed(pool: Pool, id: nat, smem: Smem, cached: bool)
    requires NoneUnused(pool)
    ensures NoneUnused(WithNew(pool, id, smem, cached))
  {
  }

  // Eviction brings no key back.
  lemma StillAbsent(tree: Tree, pool: Pool, after: Tree, left: Pool, key: nat)
    requires Indexed(tree, pool) && Indexed(after, left) && Lookup(tree, key) == None
    requires Evicted(pool, left)
    ensures Lookup(after, key) == None
  {
    LookupInOrder(tree, key);
    LookupInOrder(after, key);
    var es := InOrder(after);
    forall i | 0 <= i < |es| ensures es[i].key != key {
      assert es[i] == Entry(es[i].key, es[i].id) && es[i] in InOrder(tree);
    }
  }

  // Room is made and a new mapping takes it.
  lemma TakenAfterEviction(before: Pool, left: Pool, next: nat, smem: Smem)
    requires Evicted(before, left) && smem.refcount == 1
    requires forall id <- before :: id < next
    ensures Taken(before, left[next := smem], next, multiset{next})
  {
  }
}
