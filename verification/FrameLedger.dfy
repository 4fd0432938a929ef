/** How frames are filled and emptied, as values: references dropped one by one, registrations, and what a
    packet's descriptors look like once their buffers are mapped. */
module FrameLedger {
  import opened Packets
  import opened SearchTree
  import opened MapCache

  // Slots still to be unmapped.

  lemma {:induction false} UsageAppend(a: seq<Slot>, b: seq<Slot>)
    ensures Usage(a + b) == Usage(a) + Usage(b)
  {
    if b == [] {
      assert a + b == a;
    } else {
      UsageAppend(a, b[..|b| - 1]);
      assert a + b == (a + b[..|b| - 1]) + [b[|b| - 1]];
      UsageSnoc(a + b[..|b| - 1], b[|b| - 1]);
    }
  }

  lemma NextSlot(bufs: seq<Slot>, i: nat)
    requires i < |bufs|
    ensures Ids(bufs[i..]) == Ids(bufs[i + 1..]) + multiset{bufs[i].id}
    ensures Usage(bufs[i..]) == bufs[i].size + Usage(bufs[i + 1..])
    ensures Ids(bufs[..i + 1]) == Ids(bufs[..i]) + multiset{bufs[i].id}
  {
    assert bufs[i..] == [bufs[i]] + bufs[i + 1..];
    IdsAppend([bufs[i]], bufs[i + 1..]);
    UsageAppend([bufs[i]], bufs[i + 1..]);
    assert [bufs[i]][..0] == [] && bufs[..i + 1] == bufs[..i] + [bufs[i]];
    IdsSnoc(bufs[..i], bufs[i]);
  }

  // Dropping one reference.

  /** An uncached mapping goes with its last reference; a cached one stays. */
  function Released(pool: Pool, id: nat): Pool
    requires id in pool && pool[id].refcount > 0
  {
    var left := pool[id].refcount - 1;
    if left == 0 && !pool[id].cached then pool - {id} else pool[id := pool[id].(refcount := left)]
  }

  lemma ReferenceDropped(pool: Pool, id: nat, frames: multiset<nat>, held: multiset<nat>, regs: map<nat, nat>,
                         tree: Tree, persist: seq<Persist>)
    requires Balanced(pool, frames + (held + multiset{id}), regs)
    requires Indexed(tree, pool) && Live(pool) && Registered(persist, pool, regs)
    ensures id in pool && pool[id].refcount > 0
    ensures var after := Released(pool, id);
            && Balanced(after, frames + held, regs) && Indexed(tree, after) && Live(after)
            && Registered(persist, after, regs) && CachedSize(InOrder(tree), after) == CachedSize(InOrder(tree), pool)
  {
    var refs := frames + held;
    assert frames + (held + multiset{id}) == refs + multiset{id};
    CountDropped(pool, id, refs, regs);
    RestKept(pool, id, regs, tree, persist);
  }

  lemma RestKept(pool: Pool, id: nat, regs: map<nat, nat>, tree: Tree, persist: seq<Persist>)
    requires id in pool && pool[id].refcount > 0 && (pool[id].refcount == 1 ==> id !in regs)
    requires Indexed(tree, pool) && Live(pool) && Registered(persist, pool, regs)
    ensures var after := Released(pool, id);
            && Indexed(tree, after) && Live(after) && Registered(persist, after, regs)
            && CachedSize(InOrder(tree), after) == CachedSize(InOrder(tree), pool)
  {
    CachedSizeSame(InOrder(tree), pool, Released(pool, id));
    RegistrationsKept(pool, Released(pool, id), regs, persist);
  }

  lemma RegistrationsKept(pool: Pool, after: Pool, regs: map<nat, nat>, persist: seq<Persist>)
    requires Registered(persist, pool, regs)
    requires forall id <- regs :: id in after && (id in pool ==> after[id].cached == pool[id].cached)
    ensures Registered(persist, after, regs)
  {
  }

  lemma CountDropped(pool: Pool, id: nat, refs: multiset<nat>, regs: map<nat, nat>)
    requires Balanced(pool, refs + multiset{id}, regs) && forall other <- regs :: regs[other] > 0
    ensures id in pool && pool[id].refcount > 0 && Balanced(Released(pool, id), refs, regs)
    ensures pool[id].refcount == 1 ==> id !in regs
  {
    var before := refs + multiset{id};
    assert id in before;
    assert before[id] == refs[id] + 1;
    assert forall other <- refs :: other in before;
  }

  // A reference taken and returned at once leaves no trace.
  lemma TakeAndReturn(pool: Pool, id: nat)
    requires id in pool && (pool[id].cached || pool[id].refcount > 0)
    ensures Released(pool[id := Referenced(pool[id])], id) == pool
  {
    assert Referenced(pool[id]).(refcount := pool[id].refcount) == pool[id];
  }

  lemma SharedTaken(pool: Pool, id: nat, next: nat)
    requires id in pool
    ensures Taken(pool, pool[id := Referenced(pool[id])], next, multiset{id})
  {
  }

  lemma DroppedThen(p: Pool, q: Pool, ids: multiset<nat>, id: nat)
    requires Dropped(p, q, ids) && id in q && q[id].refcount > 0
    ensures Dropped(p, Released(q, id), ids + multiset{id})
  {
  }

  // Registrations of persist buffers.

  /** A reference held by nobody yet becomes the first registration of its mapping. */
  lemma FirstRegistration(pool: Pool, p: Persist, refs: multiset<nat>, regs: map<nat, nat>, persist: seq<Persist>)
    requires Balanced(pool, refs + multiset{p.id}, regs) && Registered(persist, pool, regs)
    requires p.id !in regs && !pool[p.id].cached
    ensures Balanced(pool, refs, Counted(regs, p.id)) && Registered(persist + [p], pool, Counted(regs, p.id))
  {
    var more, regs' := persist + [p], Counted(regs, p.id);
    forall id <- regs'
      ensures regs'[id] > 0 && id in pool && !pool[id].cached && exists i :: 0 <= i < |more| && more[i].id == id
    {
      if id == p.id {
        assert more[|persist|].id == id;
      } else {
        var i :| 0 <= i < |persist| && persist[i].id == id;
        assert more[i].id == id;
      }
    }
  }

  /** A reference held by nobody yet becomes one more registration of its mapping. */
  lemma MoreRegistrations(pool: Pool, i: nat, size: Word, refs: multiset<nat>, regs: map<nat, nat>,
                          persist: seq<Persist>)
    requires i < |persist| && Registered(persist, pool, regs)
    requires Balanced(pool, refs + multiset{persist[i].id}, regs)
    ensures var id := persist[i].id;
            && id in regs
            && Balanced(pool, refs, Counted(regs, id))
            && Registered(persist[i := persist[i].(size := size)], pool, Counted(regs, id))
  {
    var id := persist[i].id;
    var more, counted := persist[i := persist[i].(size := size)], Counted(regs, id);
    forall other <- counted
      ensures exists j :: 0 <= j < |more| && more[j].id == other
    {
      var j :| 0 <= j < |persist| && persist[j].id == other;
      assert more[j].id == other;
    }
  }

  // Descriptors.

  /** The first persist buffer with this fd and size (is_mapped_persist_buf). */
  function Match(persist: seq<Persist>, d: Desc): Option<nat> {
    if persist == [] then None
    else if persist[0].fd == d.fd && persist[0].size == d.size then Some(persist[0].id)
    else Match(persist[1..], d)
  }

  function IovaAt(smem: Smem, offset: Word): Word {
    (smem.iova + offset) % 0x1_0000_0000
  }

  /** A buffer whose range lies inside a mapping that does not go round the end of the address space has its iova that
      far from the start, and all of the range inside. */
  lemma IovaInside(smem: Smem, d: Desc)
    requires BufValid(d, smem.size) && d.offset <= smem.size && smem.iova + smem.size <= 0x1_0000_0000 && d.size > 0
    ensures IovaAt(smem, d.offset) == smem.iova + d.offset
    ensures smem.iova <= IovaAt(smem, d.offset) && IovaAt(smem, d.offset) + d.size <= smem.iova + smem.size
  {
    BufValidIsInside(d, smem.size);
  }

  /** And round the end it goes on from the start of the address space. */
  lemma IovaWraps(smem: Smem, offset: Word)
    requires smem.iova + offset >= 0x1_0000_0000
    ensures IovaAt(smem, offset) == smem.iova + offset - 0x1_0000_0000
  {
  }

  /** No persist buffer is found exactly if none on the list has the fd and size. */
  lemma {:induction false} MatchExactly(persist: seq<Persist>, d: Desc)
    ensures Match(persist, d) == None <==>
            forall i :: 0 <= i < |persist| ==> !(persist[i].fd == d.fd && persist[i].size == d.size)
  {
    if persist != [] {
      MatchExactly(persist[1..], d);
      assert forall i :: 0 < i < |persist| ==> persist[i] == persist[1..][i - 1];
    }
  }

  /** A packet's descriptors before and after mapping, the slots of the frame made for it, and the persist
      list: an empty descriptor is cleared, one that names a persist buffer in a configuration packet gets
      that buffer's iova, and every other one has the next slot, whose mapping is of its own dma_buf, and the
      iova of its offset there. */
  ghost predicate Rendered(ds: seq<Desc>, envs: seq<Env>, out: seq<Desc>, bufs: seq<Slot>, config: bool,
                           persist: seq<Persist>, pool: Pool)
  {
    if ds == [] then envs == [] && out == [] && bufs == []
    else
      && |out| == |ds| == |envs|
      && (
        var n := |ds| - 1;
        if ds[n].size == 0 then
          out[n] == ds[n].(fd := 0) && Rendered(ds[..n], envs[..n], out[..n], bufs, config, persist, pool)
        else if config && Match(persist, ds[n]).Some? then
          && Match(persist, ds[n]).value in pool
          && out[n] == ds[n].(fd := pool[Match(persist, ds[n]).value].iova)
          && Rendered(ds[..n], envs[..n], out[..n], bufs, config, persist, pool)
        else
          && bufs != []
          && (
            var b := bufs[|bufs| - 1];
            && b == Slot(ds[n].fd, ds[n].size, ds[n].offset, b.id) && b.id in pool
            && envs[n].dmaBuf == Some(pool[b.id].dmaBuf) && BufValid(ds[n], pool[b.id].size)
            && out[n] == ds[n].(fd := IovaAt(pool[b.id], ds[n].offset))
            && Rendered(ds[..n], envs[..n], out[..n], bufs[..|bufs| - 1], config, persist, pool)
          )
      )
  }

  /** Both pools hold the mapping, of the same dma_buf, at the same iova and with the same size. */
  predicate SameMapping(p: Pool, q: Pool, id: nat) {
    && id in p && id in q
    && p[id].dmaBuf == q[id].dmaBuf && p[id].iova == q[id].iova && p[id].size == q[id].size
  }

  lemma {:induction false} MatchedEntry(persist: seq<Persist>, d: Desc) returns (i: nat)
    requires Match(persist, d).Some?
    ensures i < |persist| && persist[i].id == Match(persist, d).value
    ensures persist[i].fd == d.fd && persist[i].size == d.size
    ensures forall j :: 0 <= j < i ==> !(persist[j].fd == d.fd && persist[j].size == d.size)
  {
    if persist[0].fd == d.fd && persist[0].size == d.size {
      i := 0;
    } else {
      i := MatchedEntry(persist[1..], d);
      i := i + 1;
    }
  }

  // Later mappings and evictions do not disturb what has been rendered.
  lemma {:induction false} RenderedLater(ds: seq<Desc>, envs: seq<Env>, out: seq<Desc>, bufs: seq<Slot>,
                                         config: bool, persist: seq<Persist>, p: Pool, q: Pool)
    requires Rendered(ds, envs, out, bufs, config, persist, p)
    requires forall k :: 0 <= k < |bufs| ==> SameMapping(p, q, bufs[k].id)
    requires forall i :: 0 <= i < |persist| ==> SameMapping(p, q, persist[i].id)
    ensures Rendered(ds, envs, out, bufs, config, persist, q)
  {
    if ds != [] {
      var n := |ds| - 1;
      if ds[n].size == 0 {
        RenderedLater(ds[..n], envs[..n], out[..n], bufs, config, persist, p, q);
      } else if config && Match(persist, ds[n]).Some? {
        var i := MatchedEntry(persist, ds[n]);
        RenderedLater(ds[..n], envs[..n], out[..n], bufs, config, persist, p, q);
      } else {
        RenderedLater(ds[..n], envs[..n], out[..n], bufs[..|bufs| - 1], config, persist, p, q);
      }
    }
  }
}
