/** Buffers that stay mapped between frames: what the client registers and what the driver allocates. */
module PersistOps {
  import opened Packets
  import opened MapCache
  import opened FrameLedger
  import opened MappingSearch
  import opened DmaInstance
  import opened FrameOps

  function Larger(a: Word, b: Word): (r: Word)
    ensures r >= a && r >= b && (r == a || r == b)
  {
    if a >= b then a else b
  }

  /** The list after one more registration of a mapping that is on it. */
  ghost predicate Regrown(before: seq<Persist>, after: seq<Persist>, id: nat, size: Word) {
    && |after| == |before|
    && forall j :: 0 <= j < |before| ==>
         after[j] == if before[j].id == id then before[j].(size := Larger(before[j].size, size)) else before[j]
  }

  /** The kernel grants a mapping of its own that the buffer's range fits. */
  predicate Mappable(buf: Desc, env: Env) {
    env.dmaBuf.Some? && env.granted && env.mapping.Some? && BufValid(buf, env.mapping.value.size)
  }

  /** msm_cvp_map_user_persist_buf: a dma_buf that is on the persist list gains a registration, any other one a
      mapping of its own. */
  method MapUserPersistBuf(inst: Instance, buf: Desc, env: Env, recordGranted: bool)
    returns (rc: int, iova: Word, ghost id: nat)
    requires inst.Valid()
    modifies inst`pool, inst`nextId, inst`persist, inst`regs
    ensures inst.Valid()
    ensures rc == 0 ==>
              && env.dmaBuf.Some? && id in inst.pool && iova == IovaAt(inst.pool[id], buf.offset)
              && inst.regs == Counted(old(inst.regs), id)
              && (match InPersist(old(inst.persist), old(inst.pool), env.dmaBuf.value)
                  case Some(shared) =>
                    && id == shared && id in old(inst.pool)
                    && inst.pool == old(inst.pool)[id := Referenced(old(inst.pool)[id])]
                    && Regrown(old(inst.persist), inst.persist, id, buf.size)
                  case None =>
                    && id !in old(inst.pool) && Mappable(buf, env)
                    && inst.pool == old(inst.pool)[id := OwnMapping(env)]
                    && inst.persist == old(inst.persist) + [Persist(buf.fd, buf.size, User, id)])
    ensures rc == EINVAL <==> env.dmaBuf.None?
    ensures rc == 0 <==>
              && env.dmaBuf.Some?
              && (|| InPersist(old(inst.persist), old(inst.pool), env.dmaBuf.value).Some?
                  || (recordGranted && Mappable(buf, env)))
    ensures rc in {0, EINVAL, ENOMEM}
    ensures rc != 0 ==> inst.pool == old(inst.pool) && inst.persist == old(inst.persist)
  {
    id, iova := 0, 0;
    if env.dmaBuf.None? {
      return EINVAL, 0, 0;
    }
    var at := FindEntry(inst, env.dmaBuf.value);
    if at < |inst.persist| {
      iova, id := RegisterAgain(inst, at, buf);
      return 0, iova, id;
    }
    if !recordGranted {
      return ENOMEM, 0, 0;
    }
    var r := inst.GetPersistSmem(buf, env, multiset{}, 0);
    if r.None? {
      return ENOMEM, 0, 0;
    }
    Register(inst, Persist(buf.fd, buf.size, User, r.value));
    return 0, IovaAt(inst.pool[r.value], buf.offset), r.value;
  }

  // The walk of the persist list for a dma_buf.
  method FindEntry(inst: Instance, dmaBuf: nat) returns (at: nat)
    requires inst.Valid()
    ensures at <= |inst.persist|
    ensures InPersist(inst.persist, inst.pool, dmaBuf) ==
            if at < |inst.persist| then Some(inst.persist[at].id) else None
  {
    at := 0;
    while at < |inst.persist|
      invariant at <= |inst.persist|
      invariant InPersist(inst.persist, inst.pool, dmaBuf) == InPersist(inst.persist[at..], inst.pool, dmaBuf)
    {
      if inst.pool[inst.persist[at].id].dmaBuf == dmaBuf {
        return;
      }
      at := at + 1;
    }
  }

  // The entry keeps the larger size, and its mapping gains a reference.
  method RegisterAgain(inst: Instance, at: nat, buf: Desc) returns (iova: Word, id: nat)
    requires inst.Valid() && at < |inst.persist|
    modifies inst`pool, inst`persist, inst`regs
    ensures inst.Valid() && id == old(inst.persist)[at].id
    ensures id in old(inst.regs) && inst.regs == Counted(old(inst.regs), id)
    ensures id in old(inst.pool) && inst.pool == old(inst.pool)[id := Referenced(old(inst.pool)[id])]
    ensures Regrown(old(inst.persist), inst.persist, id, buf.size) && iova == IovaAt(inst.pool[id], buf.offset)
  {
    var size := Larger(inst.persist[at].size, buf.size);
    id := inst.persist[at].id;
    RegrownAt(inst.persist, at, buf.size, inst.pool, inst.regs);
    inst.TakeReference(id, multiset{}, 0);
    iova := IovaAt(inst.pool[id], buf.offset);
    CountAgain(inst, at, id, size);
  }

  lemma RegrownAt(persist: seq<Persist>, at: nat, size: Word, pool: Pool, regs: map<nat, nat>)
    requires at < |persist| && Registered(persist, pool, regs)
    ensures Regrown(persist, persist[at := persist[at].(size := Larger(persist[at].size, size))], persist[at].id, size)
  {
  }

  // The reference just taken is a registration.
  method CountAgain(inst: Instance, at: nat, id: nat, size: Word)
    requires at < |inst.persist| && id == inst.persist[at].id && inst.ValidWith(multiset{} + multiset{id}, 0)
    modifies inst`persist, inst`regs
    ensures inst.Valid() && inst.persist == old(inst.persist)[at := old(inst.persist)[at].(size := size)]
    ensures id in old(inst.regs) && inst.regs == Counted(old(inst.regs), id)
  {
    OneHeld(FrameIds(inst.frames), id);
    MoreRegistrations(inst.pool, at, size, FrameIds(inst.frames) + multiset{}, inst.regs, inst.persist);
    inst.persist, inst.regs := inst.persist[at := inst.persist[at].(size := size)], Counted(inst.regs, id);
  }

  // A mapping with one reference goes on the persist list, which then holds that reference.
  method Register(inst: Instance, p: Persist)
    requires inst.ValidWith(multiset{} + multiset{p.id}, 0) && p.id !in inst.regs
    requires p.id in inst.pool && !inst.pool[p.id].cached
    modifies inst`persist, inst`regs
    ensures inst.Valid() && inst.persist == old(inst.persist) + [p] && inst.regs == Counted(old(inst.regs), p.id)
  {
    OneHeld(FrameIds(inst.frames), p.id);
    FirstRegistration(inst.pool, p, FrameIds(inst.frames) + multiset{}, inst.regs, inst.persist);
    inst.persist, inst.regs := inst.persist + [p], Counted(inst.regs, p.id);
  }

  lemma OneHeld(refs: multiset<nat>, id: nat)
    ensures refs + (multiset{} + multiset{id}) == refs + multiset{} + multiset{id}
  {
  }

  /** msm_cvp_map_feature_persist: a buffer that is on the list with the same fd and size is left alone. */
  method MapFeaturePersist(inst: Instance, fd: int, size: Word, index: nat, env: Env, recordGranted: bool)
    returns (rc: int)
    requires inst.Valid() && -0x8000_0000 <= fd < 0x8000_0000
    modifies inst`pool, inst`nextId, inst`persist, inst`regs
    ensures inst.Valid()
    ensures index != 0 || fd < 0 ==> rc == EINVAL
    ensures index == 0 && fd >= 0 && Match(old(inst.persist), Desc(fd, size, 0)).Some? ==>
              rc == 0 && inst.persist == old(inst.persist) && inst.pool == old(inst.pool)
    ensures rc == 0 <==>
              && index == 0 && fd >= 0
              && (|| Match(old(inst.persist), Desc(fd, size, 0)).Some?
                  || (recordGranted && Mappable(Desc(fd, size, 0), env)))
    ensures index == 0 && fd >= 0 && Match(old(inst.persist), Desc(fd, size, 0)).None? && rc == 0 ==>
              && inst.persist == old(inst.persist) + [Persist(fd, size, Feature, old(inst.nextId))]
              && inst.pool == old(inst.pool)[old(inst.nextId) := OwnMapping(env)]
              && inst.regs == Counted(old(inst.regs), old(inst.nextId))
    ensures rc != 0 ==> inst.pool == old(inst.pool) && inst.persist == old(inst.persist)
  {
    if index != 0 || fd < 0 {
      return EINVAL;
    }
    var buf := Desc(fd, size, 0);
    var known := FindPersist(inst, buf);
    if known.Some? {
      return 0;
    }
    if !recordGranted {
      return ENOMEM;
    }
    var r := inst.GetPersistSmem(buf, env, multiset{}, 0);
    if r.None? {
      return ENOMEM;
    }
    Register(inst, Persist(fd, size, Feature, r.value));
    return 0;
  }

  /** cvp_allocate_arp_bufs: memory of the driver's own, on the persist list until the session is gone. */
  method AllocateArp(inst: Instance, size: Word, memory: Option<Smem>) returns (done: bool)
    requires inst.Valid()
    modifies inst`pool, inst`nextId, inst`persist, inst`regs
    ensures inst.Valid() && (done <==> size != 0 && memory.Some?)
    ensures done ==>
              && inst.persist == old(inst.persist) + [Persist(0, memory.value.size, Arp, old(inst.nextId))]
              && inst.pool == WithNew(old(inst.pool), old(inst.nextId), memory.value, false)
    ensures !done ==> inst.persist == old(inst.persist) && inst.pool == old(inst.pool)
  {
    if size == 0 || memory.None? {
      return false;
    }
    var id := inst.AddUncached(memory.value, multiset{}, 0);
    Register(inst, Persist(0, memory.value.size, Arp, id));
    return true;
  }
}
