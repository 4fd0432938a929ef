/** Every run of one session: any sequence of calls, whatever the kernel answers, keeps the books right. */
module SessionRuns {
  import opened Lists
  import opened Packets
  import opened SearchTree
  import opened MapCache
  import opened DmaInstance
  import opened MappingSearch
  import opened FrameOps
  import opened PersistOps
  import opened PersistRelease

  /** A buffer of a packet, with what the kernel answers when it is mapped. */
  datatype Request = Request(desc: Desc, env: Env)

  datatype Call =
    | MapCall(offset: nat, bufs: seq<Request>, config: bool, granted: bool)
    | UnmapCall(ktid: nat)
    | UserPersistCall(buf: Desc, env: Env, granted: bool)
    | FeaturePersistCall(fd: Word, size: Word, env: Env, granted: bool)
    | FeatureUnmapCall(fd: Word, size: Word)
    | ArpCall(size: Word, memory: Option<Smem>)
    | ReleaseArpCall
    | CleanupCall
    | OtherSessions(ids: nat)
    | DeinitCall

  /** No listed frame refers to a mapping the call unmaps without a look at its count. */
  predicate Unreferenced(inst: Instance, call: Call)
    reads inst
  {
    match call
    case FeatureUnmapCall(fd, size) =>
      var at := FeatureAt(inst.persist, fd, size);
      fd < 0x8000_0000 && at < |inst.persist| ==> inst.persist[at].id !in FrameIds(inst.frames)
    case ReleaseArpCall =>
      var arp := OwnedBy(inst.persist, true);
      forall i :: 0 <= i < |arp| ==> arp[i].id !in FrameIds(inst.frames)
    case _ => true
  }

  // An unsigned word of a call, as the driver's int.
  function Signed(fd: Word): (r: int)
    ensures -0x8000_0000 <= r < 0x8000_0000
  {
    if fd < 0x8000_0000 then fd else fd - 0x1_0000_0000
  }

  /** Every call keeps the books right, but for one that unmaps a buffer some listed frame refers to. */
  method Do(inst: Instance, call: Call)
    requires inst.Valid()
    modifies inst
    ensures inst.Valid() <==> old(Unreferenced(inst, call))
  {
    match call {
      case MapCall(offset, bufs, config, granted) =>
        var ds := seq(|bufs|, i requires 0 <= i < |bufs| => bufs[i].desc);
        var envs := seq(|bufs|, i requires 0 <= i < |bufs| => bufs[i].env);
        var rc, out := MapFrame(inst, offset, ds, config, granted, envs);
      case UnmapCall(ktid) =>
        UnmapFrame(inst, ktid);
      case UserPersistCall(buf, env, granted) =>
        var rc, iova, id := MapUserPersistBuf(inst, buf, env, granted);
      case FeaturePersistCall(fd, size, env, granted) =>
        var rc := MapFeaturePersist(inst, Signed(fd), size, 0, env, granted);
      case FeatureUnmapCall(fd, size) =>
        var rc := UnmapFeaturePersist(inst, Signed(fd), size, 0);
      case ArpCall(size, memory) =>
        var done := AllocateArp(inst, size, memory);
      case ReleaseArpCall =>
        FreeOwnedBy(inst, true);
      case CleanupCall =>
        var freed := inst.FreeUnusedMapping(multiset{}, 0);
      case OtherSessions(ids) =>
        inst.OtherTransactions(ids);
      case DeinitCall =>
        DeinitBuffers(inst);
    }
  }

  /** A session after any run, or after as much of it as comes before a call that unmaps what some listed frame
      refers to. */
  method Session(transId: nat, calls: seq<Call>) returns (inst: Instance, done: nat)
    ensures fresh(inst) && inst.Valid() && done <= |calls|
    ensures done < |calls| ==> !Unreferenced(inst, calls[done])
  {
    inst := new Instance(transId);
    done := 0;
    while done < |calls| && Unreferenced(inst, calls[done])
      invariant fresh(inst) && inst.Valid() && done <= |calls|
      decreases |calls| - done
    {
      Do(inst, calls[done]);
      done := done + 1;
    }
  }

  // A session with one feature buffer, of dma_buf 7.
  method OneFeature(env: Env) returns (inst: Instance)
    requires env == Env(Some(7), true, Some(Mapped(0x1000, 0x1000)), [])
    ensures fresh(inst) && inst.Valid() && inst.frames == [] && |inst.persist| == 1
    ensures inst.persist[0] == Persist(3, 64, Feature, inst.persist[0].id)
    ensures inst.Accepts(Desc(4, 64, 0), env) && inst.Shared(7) == Some(inst.persist[0].id)
  {
    inst := new Instance(0);
    var rc := MapFeaturePersist(inst, 3, 64, 0, env, true);
    FirstRegistered(inst.tree, inst.persist, inst.pool, 7);
  }

  lemma FirstRegistered(tree: Tree, persist: seq<Persist>, pool: Pool, dmaBuf: nat)
    requires tree == Leaf && persist != [] && Maps(pool, persist[0].id, dmaBuf)
    ensures Found(tree, persist, [], pool, dmaBuf) == Some(persist[0].id)
  {
  }

  // A frame that refers to it.
  method FeatureInUse() returns (inst: Instance)
    ensures fresh(inst) && inst.Valid() && |inst.persist| == 1
    ensures inst.persist[0] == Persist(3, 64, Feature, inst.persist[0].id)
    ensures |inst.frames| == 1 && inst.frames[0].bufs == [Slot(4, 64, 0, inst.persist[0].id)]
  {
    var env := Env(Some(7), true, Some(Mapped(0x1000, 0x1000)), []);
    inst := OneFeature(env);
    OneFrame(inst, env);
  }

  method OneFrame(inst: Instance, env: Env)
    requires inst.Valid() && inst.frames == []
    requires inst.Accepts(Desc(4, 64, 0), env) && inst.Shared(env.dmaBuf.value).Some?
    modifies inst`pool, inst`nextId, inst`tree, inst`nr, inst`maxCapacity, inst`vaInst, inst`frameUsage, inst`transId,
             inst`frames
    ensures inst.Valid()
    ensures |inst.frames| == 1
    ensures inst.frames[0].bufs == [Slot(4, 64, 0, old(inst.Shared(env.dmaBuf.value)).value)]
  {
    var ktid := TakeTransaction(inst);
    var bufs := OneSlot(inst, env);
    ListFrame(inst, Frame(ktid, bufs));
  }

  method OneSlot(inst: Instance, env: Env) returns (bufs: seq<Slot>)
    requires inst.Valid() && inst.Accepts(Desc(4, 64, 0), env) && inst.Shared(env.dmaBuf.value).Some?
    modifies inst`pool, inst`nextId, inst`tree, inst`nr, inst`maxCapacity, inst`vaInst, inst`frameUsage
    ensures inst.ValidWith(Ids(bufs), Usage(bufs))
    ensures bufs == [Slot(4, 64, 0, old(inst.Shared(env.dmaBuf.value)).value)]
  {
    var iova;
    iova, bufs := MapFrameBuf(inst, Desc(4, 64, 0), env, [], inst.pool, inst.nextId);
  }

  /** A run that leaves a listed frame without its mapping: a feature buffer is registered, a frame maps the same
      dma_buf, and the buffer is unregistered while the frame is listed. */
  method UnregisteredInUse() returns (inst: Instance)
    ensures fresh(inst) && !inst.Valid()
    ensures |inst.frames| == 1 && |inst.frames[0].bufs| == 1 && inst.frames[0].bufs[0].id !in inst.pool
  {
    inst := FeatureInUse();
    var rc := UnmapFeaturePersist(inst, 3, 64, 0);
    assert inst.frames[0].bufs[0].id in FrameIds(inst.frames);
  }

  predicate SharedDmaBuf(pool: Pool, id: nat, other: nat) {
    && id in pool && other in pool && pool[id].cached && pool[other].cached
    && pool[id].dmaBuf == pool[other].dmaBuf
  }

  /** What the books say after any run: a cached or fallback mapping has one reference for every slot of a listed
      frame, a registered one has in addition its registrations; a fallback mapping is there only while some slot
      refers to it, every slot's mapping is there, and no two cached mappings are of one dma_buf. */
  lemma Accounts(inst: Instance)
    requires inst.Valid()
    ensures forall id <- inst.pool :: inst.pool[id].refcount == FrameIds(inst.frames)[id] + Count(inst.regs, id)
    ensures forall id <- inst.pool :: inst.pool[id].cached ==> inst.pool[id].refcount == FrameIds(inst.frames)[id]
    ensures forall id <- inst.pool :: !inst.pool[id].cached && id !in inst.regs ==> id in FrameIds(inst.frames)
    ensures forall id <- FrameIds(inst.frames) :: id in inst.pool
    ensures forall id, other :: SharedDmaBuf(inst.pool, id, other) ==> id == other
  {
    var refs := FrameIds(inst.frames) + multiset{};
    assert forall id :: refs[id] == FrameIds(inst.frames)[id];
    assert forall id <- FrameIds(inst.frames) :: id in refs;
    forall id <- inst.pool | inst.pool[id].cached ensures Lookup(inst.tree, inst.pool[id].dmaBuf) == Some(id) {
      LookupInOrder(inst.tree, inst.pool[id].dmaBuf);
    }
  }

  /** A frame's teardown frees a mapping exactly when it is a fallback whose every reference was the frame's: a
      cached or registered one outlives the frame. */
  lemma TeardownFrees(inst: Instance, i: nat, after: Pool, id: nat)
    requires inst.Valid() && i < |inst.frames| && id in inst.pool
    requires Dropped(inst.pool, after, Ids(inst.frames[i].bufs))
    ensures id !in after <==>
              && !inst.pool[id].cached && id !in inst.regs && id in Ids(inst.frames[i].bufs)
              && id !in FrameIds(Without(inst.frames, i))
  {
    Accounts(inst);
    FrameIdsDelist(inst.frames, i);
  }
}
