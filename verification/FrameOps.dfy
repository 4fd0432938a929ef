/** Mapping and unmapping the buffers of frames, as msm_cvp_map_frame and msm_cvp_unmap_frame do. */
module FrameOps {
  import opened Lists
  import opened Packets
  import opened MapCache
  import opened FrameLedger
  import opened FrameFit
  import opened DmaInstance

  /** Slots have been filled for a frame that is not listed yet: their references have been taken since the
      pool was `before` and `next` the next handle. */
  ghost predicate Building(inst: Instance, bufs: seq<Slot>, before: Pool, next: nat)
    reads inst
  {
    && inst.ValidWith(Ids(bufs), Usage(bufs)) && |bufs| <= MAX_FRAME_BUFFER_NUMS
    && next <= inst.nextId && (forall id <- before :: id < next)
    && Taken(before, inst.pool, next, Ids(bufs))
  }

  /** What mapping one more buffer adds to a frame. */
  ghost predicate SlotFor(b: Slot, buf: Desc, env: Env, iova: Word, pool: Pool) {
    && b == Slot(buf.fd, buf.size, buf.offset, b.id) && b.id in pool
    && env.dmaBuf == Some(pool[b.id].dmaBuf) && BufValid(buf, pool[b.id].size) && iova == IovaAt(pool[b.id], buf.offset)
  }

  /** msm_cvp_map_frame_buf: the next slot of the frame, unless it is full or the buffer cannot be mapped. */
  method MapFrameBuf(inst: Instance, buf: Desc, env: Env, bufs: seq<Slot>, ghost before: Pool, ghost next: nat)
    returns (iova: Word, after: seq<Slot>)
    requires Building(inst, bufs, before, next)
    modifies inst`pool, inst`nextId, inst`tree, inst`nr, inst`maxCapacity, inst`vaInst, inst`frameUsage
    ensures Building(inst, after, before, next)
    ensures if |bufs| < MAX_FRAME_BUFFER_NUMS && old(inst.Accepts(buf, env))
            then |after| == |bufs| + 1 && after[..|bufs|] == bufs && SlotFor(after[|bufs|], buf, env, iova, inst.pool)
            else after == bufs && iova == 0
    ensures after != bufs ==>
              Obtained(old(inst.Shared(env.dmaBuf.value)), old(inst.pool), inst.pool, after[|bufs|].id, env,
                       old(inst.nr < inst.maxCapacity))
    ensures after != bufs && old(inst.nr < inst.maxCapacity) ==>
              inst.nr == old(inst.nr) + if old(inst.Shared(env.dmaBuf.value)).None? then 1 else 0
    ensures OnlyNew(old(inst.pool), inst.pool, env)
    ensures forall k :: 0 <= k < |bufs| ==> SameMapping(old(inst.pool), inst.pool, bufs[k].id)
    ensures forall i :: 0 <= i < |inst.persist| ==> SameMapping(old(inst.pool), inst.pool, inst.persist[i].id)
  {
    SlotsMapped(inst, bufs);
    if |bufs| == MAX_FRAME_BUFFER_NUMS {
      return 0, bufs;
    }
    ghost var pool, later := inst.pool, inst.nextId;
    iova, after := TakeSlot(inst, buf, env, bufs);
    if after != bufs {
      NewOnly(pool, inst.pool, later, old(inst.Shared(env.dmaBuf.value)), after[|bufs|].id, env,
              old(inst.nr < inst.maxCapacity));
      StillMapped(inst, bufs, after, pool, later);
      MoreTaken(before, pool, inst.pool, next, later, bufs, after);
    }
  }

  lemma SlotsMapped(inst: Instance, bufs: seq<Slot>)
    requires inst.ValidWith(Ids(bufs), Usage(bufs))
    ensures forall k :: 0 <= k < |bufs| ==> bufs[k].id in inst.pool
    ensures forall i :: 0 <= i < |inst.persist| ==> inst.persist[i].id in inst.pool
  {
    var refs := FrameIds(inst.frames) + Ids(bufs);
    forall k | 0 <= k < |bufs| ensures bufs[k].id in Ids(bufs) && bufs[k].id in refs {
      SlotInIds(bufs, k);
    }
  }

  // Maps the buffer and fills the slot.
  method TakeSlot(inst: Instance, buf: Desc, env: Env, bufs: seq<Slot>) returns (iova: Word, after: seq<Slot>)
    requires inst.ValidWith(Ids(bufs), Usage(bufs))
    modifies inst`pool, inst`nextId, inst`tree, inst`nr, inst`maxCapacity, inst`vaInst, inst`frameUsage
    ensures inst.ValidWith(Ids(after), Usage(after)) && inst.nextId >= old(inst.nextId)
    ensures after != bufs <==> old(inst.Accepts(buf, env))
    ensures after == bufs ==> iova == 0 && inst.pool == old(inst.pool)
    ensures after != bufs ==>
              && |after| > |bufs|
              && Obtained(old(inst.Shared(env.dmaBuf.value)), old(inst.pool), inst.pool, after[|bufs|].id, env,
                          old(inst.nr < inst.maxCapacity))
    ensures after != bufs && old(inst.nr < inst.maxCapacity) ==>
              inst.nr == old(inst.nr) + if old(inst.Shared(env.dmaBuf.value)).None? then 1 else 0
    ensures after != bufs ==>
              && |after| == |bufs| + 1 && after[..|bufs|] == bufs && SlotFor(after[|bufs|], buf, env, iova, inst.pool)
              && Taken(old(inst.pool), inst.pool, old(inst.nextId), multiset{after[|bufs|].id})
  {
    var r := inst.GetSmem(buf, env, Ids(bufs), Usage(bufs));
    if r.None? {
      return 0, bufs;
    }
    iova, after := FillSlot(inst, buf, r.value, bufs);
  }

  lemma NewOnly(pool: Pool, after: Pool, next: nat, shared: Option<nat>, id: nat, env: Env, room: bool)
    requires Taken(pool, after, next, multiset{id}) && Obtained(shared, pool, after, id, env, room)
    ensures OnlyNew(pool, after, env)
  {
    if shared.Some? {
      SharedOnly(pool, id, env);
    } else {
      HousedOnly(pool, after, next, id, env, room);
    }
  }

  // The slot of a mapping that has been taken.
  method FillSlot(inst: Instance, buf: Desc, id: nat, bufs: seq<Slot>) returns (iova: Word, after: seq<Slot>)
    requires inst.ValidWith(Ids(bufs) + multiset{id}, Usage(bufs)) && id in inst.pool
    modifies inst`frameUsage
    ensures after == bufs + [Slot(buf.fd, buf.size, buf.offset, id)] && iova == IovaAt(inst.pool[id], buf.offset)
    ensures inst.ValidWith(Ids(after), Usage(after))
  {
    var b := Slot(buf.fd, buf.size, buf.offset, id);
    iova := IovaAt(inst.pool[id], buf.offset);
    Charge(inst, buf.size, Ids(bufs) + multiset{id}, Usage(bufs));
    IdsSnoc(bufs, b);
    UsageSnoc(bufs, b);
    after := bufs + [b];
  }

  // atomic_add on frame_usage.
  method Charge(inst: Instance, size: Word, ghost held: multiset<nat>, ghost usage: nat)
    requires inst.ValidWith(held, usage)
    modifies inst`frameUsage
    ensures inst.ValidWith(held, usage + size)
  {
    inst.frameUsage := inst.frameUsage + size;
  }

  // Taking a mapping moves no mapping that was referred to or registered.
  lemma StillMapped(inst: Instance, bufs: seq<Slot>, after: seq<Slot>, pool: Pool, next: nat)
    requires inst.ValidWith(Ids(after), Usage(after)) && |after| == |bufs| + 1 && after[..|bufs|] == bufs
    requires Taken(pool, inst.pool, next, multiset{after[|bufs|].id})
    requires forall k :: 0 <= k < |bufs| ==> bufs[k].id in pool
    requires forall i :: 0 <= i < |inst.persist| ==> inst.persist[i].id in pool
    ensures forall k :: 0 <= k < |bufs| ==> SameMapping(pool, inst.pool, bufs[k].id)
    ensures forall i :: 0 <= i < |inst.persist| ==> SameMapping(pool, inst.pool, inst.persist[i].id)
  {
    SlotsMapped(inst, after);
    assert forall k :: 0 <= k < |bufs| ==> bufs[k] == after[k];
  }

  lemma MoreTaken(before: Pool, pool: Pool, now: Pool, next: nat, later: nat, bufs: seq<Slot>, after: seq<Slot>)
    requires |after| == |bufs| + 1 && after[..|bufs|] == bufs && after[|bufs|].id in now
    requires Taken(before, pool, next, Ids(bufs)) && next <= later
    requires Taken(pool, now, later, multiset{after[|bufs|].id})
    requires (forall id <- before :: id < next) && (forall id <- pool :: id < later)
    requires forall id <- Ids(bufs) :: id in pool
    ensures Taken(before, now, next, Ids(after))
  {
    TakenThen(before, pool, now, next, later, Ids(bufs), multiset{after[|bufs|].id});
  }

  /** msm_cvp_unmap_frame_buf: one reference dropped for every slot. */
  method UnmapFrameBuf(inst: Instance, bufs: seq<Slot>)
    requires inst.ValidWith(Ids(bufs), Usage(bufs))
    modifies inst`pool, inst`frameUsage
    ensures inst.Valid() && Dropped(old(inst.pool), inst.pool, Ids(bufs))
  {
    assert bufs[0..] == bufs && bufs[..0] == [];
    for i := 0 to |bufs|
      invariant inst.ValidWith(Ids(bufs[i..]), Usage(bufs[i..]))
      invariant Dropped(old(inst.pool), inst.pool, Ids(bufs[..i]))
    {
      NextSlot(bufs, i);
      ghost var pool := inst.pool;
      DropSlot(inst, bufs[i], Ids(bufs[i + 1..]), Usage(bufs[i + 1..]));
      DroppedThen(old(inst.pool), pool, Ids(bufs[..i]), bufs[i].id);
    }
    assert bufs[|bufs|..] == [] && bufs[..|bufs|] == bufs;
  }

  // One round: a cached mapping only loses the reference, another one is unmapped with its last.
  method DropSlot(inst: Instance, b: Slot, ghost held: multiset<nat>, ghost usage: nat)
    requires inst.ValidWith(held + multiset{b.id}, b.size + usage)
    modifies inst`pool, inst`frameUsage
    ensures b.id in old(inst.pool) && old(inst.pool)[b.id].refcount > 0
    ensures inst.ValidWith(held, usage) && inst.pool == Released(old(inst.pool), b.id)
  {
    ReferenceDropped(inst.pool, b.id, FrameIds(inst.frames), held, inst.regs, inst.tree, inst.persist);
    var smem := inst.pool[b.id];
    if smem.cached {
      inst.pool := inst.pool[b.id := smem.(refcount := smem.refcount - 1)];
    } else if smem.refcount == 1 {
      inst.pool := inst.pool - {b.id};
    } else {
      inst.pool := inst.pool[b.id := smem.(refcount := smem.refcount - 1)];
    }
    inst.frameUsage := inst.frameUsage - b.size;
  }

  // One packet.

  const SESSION_HEADER_WORDS: nat := 16

  /** The first i descriptors of a packet have been dealt with. */
  ghost predicate Rendering(inst: Instance, ds: seq<Desc>, envs: seq<Env>, i: nat, out: seq<Desc>, bufs: seq<Slot>,
                            config: bool)
    reads inst
  {
    && i <= |ds| == |out| == |envs| && out[i..] == ds[i..]
    && Rendered(ds[..i], envs[..i], out[..i], bufs, config, inst.persist, inst.pool)
  }

  /** is_mapped_persist_buf: a walk of the persist list. */
  method FindPersist(inst: Instance, d: Desc) returns (r: Option<nat>)
    ensures r == Match(inst.persist, d)
  {
    for i := 0 to |inst.persist|
      invariant Match(inst.persist, d) == Match(inst.persist[i..], d)
    {
      if inst.persist[i].fd == d.fd && inst.persist[i].size == d.size {
        return Some(inst.persist[i].id);
      }
    }
    return None;
  }

  /** One round of msm_cvp_map_frame: an empty descriptor is cleared, a persist buffer of a configuration packet
      is looked up, and any other buffer is mapped into the next slot. */
  method MapDescriptor(inst: Instance, ds: seq<Desc>, envs: seq<Env>, i: nat, out: seq<Desc>, bufs: seq<Slot>,
                       config: bool, ghost before: Pool, ghost next: nat)
    returns (ok: bool, out': seq<Desc>, bufs': seq<Slot>)
    requires Building(inst, bufs, before, next) && Rendering(inst, ds, envs, i, out, bufs, config) && i < |ds|
    requires Tracing(inst, before, ds, envs, config, i)
    modifies inst`pool, inst`nextId, inst`tree, inst`nr, inst`maxCapacity, inst`vaInst, inst`frameUsage
    ensures Building(inst, bufs', before, next) && |out'| == |ds|
    ensures ok ==> Rendering(inst, ds, envs, i + 1, out', bufs', config)
    ensures ok ==> Tracing(inst, before, ds, envs, config, i + 1)
    ensures Outcome(ok, before, Load(ds, envs, config, inst.persist), i, bufs, bufs')
    ensures ok <==>
              || ds[i].size == 0
              || (config && Match(inst.persist, ds[i]).Some?)
              || (|bufs| < MAX_FRAME_BUFFER_NUMS && old(inst.Accepts(ds[i], envs[i])) && |bufs'| > |bufs| &&
                  bufs'[|bufs|].id in inst.pool && IovaAt(inst.pool[bufs'[|bufs|].id], ds[i].offset) != 0)
  {
    bufs' := bufs;
    if ds[i].size == 0 {
      out' := WithoutSlot(inst, ds, envs, i, out, bufs, config, 0, before);
      return true, out', bufs';
    }
    var known := FindPersist(inst, ds[i]);
    if config && known.Some? {
      PersistMapped(inst, ds[i], Ids(bufs), Usage(bufs));
      out' := WithoutSlot(inst, ds, envs, i, out, bufs, config, inst.pool[known.value].iova, before);
      return true, out', bufs';
    }
    ok, out', bufs' := MapBuffer(inst, ds, envs, i, out, bufs, config, before, next);
  }

  // A descriptor that needs no slot: cleared, or pointed at a persist buffer.
  method WithoutSlot(inst: Instance, ds: seq<Desc>, envs: seq<Env>, i: nat, out: seq<Desc>, bufs: seq<Slot>,
                     config: bool, fd: Word, ghost before: Pool)
    returns (out': seq<Desc>)
    requires i < |ds| && Rendering(inst, ds, envs, i, out, bufs, config) && Tracing(inst, before, ds, envs, config, i)
    requires if ds[i].size == 0 then fd == 0
             else config && var known := Match(inst.persist, ds[i]);
                  known.Some? && known.value in inst.pool && fd == inst.pool[known.value].iova
    ensures |out'| == |ds| && Rendering(inst, ds, envs, i + 1, out', bufs, config)
    ensures Tracing(inst, before, ds, envs, config, i + 1)
    ensures Outcome(true, before, Load(ds, envs, config, inst.persist), i, bufs, bufs)
  {
    TracedPast(before, inst.pool, Load(ds, envs, config, inst.persist), i);
    out' := out[i := ds[i].(fd := fd)];
    RenderedNext(ds, envs, out, out', i);
  }

  // The descriptor of a buffer that goes into the frame.
  method MapBuffer(inst: Instance, ds: seq<Desc>, envs: seq<Env>, i: nat, out: seq<Desc>, bufs: seq<Slot>,
                   config: bool, ghost before: Pool, ghost next: nat)
    returns (ok: bool, out': seq<Desc>, bufs': seq<Slot>)
    requires Building(inst, bufs, before, next) && Rendering(inst, ds, envs, i, out, bufs, config) && i < |ds|
    requires ds[i].size != 0 && !(config && Match(inst.persist, ds[i]).Some?)
    requires Tracing(inst, before, ds, envs, config, i)
    modifies inst`pool, inst`nextId, inst`tree, inst`nr, inst`maxCapacity, inst`vaInst, inst`frameUsage
    ensures Building(inst, bufs', before, next) && |out'| == |ds|
    ensures ok ==> Rendering(inst, ds, envs, i + 1, out', bufs', config)
    ensures ok ==> Tracing(inst, before, ds, envs, config, i + 1)
    ensures Outcome(ok, before, Load(ds, envs, config, inst.persist), i, bufs, bufs')
    ensures ok <==>
              |bufs| < MAX_FRAME_BUFFER_NUMS && old(inst.Accepts(ds[i], envs[i])) && |bufs'| > |bufs| &&
              bufs'[|bufs|].id in inst.pool && IovaAt(inst.pool[bufs'[|bufs|].id], ds[i].offset) != 0
  {
    ghost var pool, l := inst.pool, Load(ds, envs, config, inst.persist);
    FitAccepted(inst, before, bufs, l, i);
    var iova: Word;
    iova, bufs' := MapFrameBuf(inst, ds[i], envs[i], bufs, before, next);
    TracedOn(before, pool, inst.pool, l, i);
    BufferTold(before, inst.pool, l, i, bufs, bufs', iova);
    if iova == 0 {
      return false, out, bufs';
    }
    out' := out[i := ds[i].(fd := iova)];
    RenderedLater(ds[..i], envs[..i], out[..i], bufs, config, inst.persist, pool, inst.pool);
    SlotRendered(inst, ds, envs, out, out', bufs, bufs', i, config, iova);
    return true, out', bufs';
  }

  /** Every mapping was there at the start, or was made for one of the first i buffers. */
  ghost predicate Tracing(inst: Instance, before: Pool, ds: seq<Desc>, envs: seq<Env>, config: bool, i: nat)
    requires |envs| == |ds|
    reads inst`pool, inst`persist
  {
    Traced(before, inst.pool, Load(ds, envs, config, inst.persist), i)
  }

  /** What one round tells of the buffer: it needs no slot, or it has been given one at a mapping it fits; or there was
      no slot left, or it does not fit. */
  ghost predicate Outcome(ok: bool, before: Pool, l: Load, i: nat, bufs: seq<Slot>, after: seq<Slot>)
    requires Sized(l) && i < |l.ds|
  {
    if ok then |after| == |bufs| + (if Needs(l, i) then 1 else 0) && (Needs(l, i) ==> MayFit(before, l, i))
    else Needs(l, i) && (|bufs| >= MAX_FRAME_BUFFER_NUMS || !Fits(before, l, i))
  }

  lemma FitAccepted(inst: Instance, before: Pool, bufs: seq<Slot>, l: Load, i: nat)
    requires inst.ValidWith(Ids(bufs), Usage(bufs)) && l.persist == inst.persist
    requires Sized(l) && Needs(l, i) && Traced(before, inst.pool, l, i)
    ensures Fits(before, l, i) ==> inst.Accepts(l.ds[i], l.envs[i])
  {
    if Fits(before, l, i) {
      FitIsAcceptable(before, inst.pool, l, i, inst.tree, inst.frames, inst.regs);
    }
  }

  lemma BufferTold(before: Pool, pool: Pool, l: Load, i: nat, bufs: seq<Slot>, after: seq<Slot>, iova: Word)
    requires Sized(l) && Needs(l, i) && Traced(before, pool, l, i + 1)
    requires if after == bufs then iova == 0 && (|bufs| < MAX_FRAME_BUFFER_NUMS ==> !Fits(before, l, i))
             else |after| == |bufs| + 1 && SlotFor(after[|bufs|], l.ds[i], l.envs[i], iova, pool)
    ensures Outcome(iova != 0, before, l, i, bufs, after)
  {
    if after != bufs {
      SlotTold(before, pool, l, i, after[|bufs|].id);
    }
  }

  lemma SlotRendered(inst: Instance, ds: seq<Desc>, envs: seq<Env>, out: seq<Desc>, out': seq<Desc>, bufs: seq<Slot>,
                     bufs': seq<Slot>, i: nat, config: bool, iova: Word)
    requires i < |ds| && Rendering(inst, ds, envs, i, out, bufs, config)
    requires ds[i].size != 0 && !(config && Match(inst.persist, ds[i]).Some?)
    requires |bufs'| == |bufs| + 1 && bufs'[..|bufs|] == bufs && SlotFor(bufs'[|bufs|], ds[i], envs[i], iova, inst.pool)
    requires out' == out[i := ds[i].(fd := iova)]
    ensures Rendering(inst, ds, envs, i + 1, out', bufs', config)
  {
    RenderedNext(ds, envs, out, out', i);
  }

  lemma RenderedNext(ds: seq<Desc>, envs: seq<Env>, out: seq<Desc>, out': seq<Desc>, i: nat)
    requires i < |ds| == |out| == |envs| && out[i..] == ds[i..] && |out'| == |out| && out' == out[i := out'[i]]
    ensures ds[..i + 1][..i] == ds[..i] && out'[..i + 1][..i] == out[..i] && out'[i + 1..] == ds[i + 1..]
    ensures envs[..i + 1][..i] == envs[..i]
  {
    assert forall k :: i < k < |out| ==> out'[k] == out[i..][k - i];
    assert forall k :: i < k < |ds| ==> ds[k] == ds[i..][k - i];
  }

  lemma PersistMapped(inst: Instance, d: Desc, held: multiset<nat>, usage: nat)
    requires inst.ValidWith(held, usage) && Match(inst.persist, d).Some?
    ensures Match(inst.persist, d).value in inst.pool
  {
    var i := MatchedEntry(inst.persist, d);
    assert inst.persist[i].id in inst.regs;
  }

  /** The first n buffers have been mapped. */
  ghost predicate SoFar(before: Pool, l: Load, n: nat, bufs: seq<Slot>)
    requires Sized(l)
  {
    && n <= |l.ds| && |bufs| == SlotsFor(l, n)
    && forall i :: 0 <= i < n && Needs(l, i) ==> MayFit(before, l, i)
  }

  lemma SoFarOn(ok: bool, before: Pool, l: Load, i: nat, bufs: seq<Slot>, after: seq<Slot>)
    requires Sized(l) && i < |l.ds| && SoFar(before, l, i, bufs) && Outcome(ok, before, l, i, bufs, after)
    ensures if ok then SoFar(before, l, i + 1, after) else !AllFit(before, l)
  {
    SlotsGrow(l, i + 1, |l.ds|);
  }

  // The loop over the descriptors.
  method MapDescriptors(inst: Instance, ds: seq<Desc>, config: bool, envs: seq<Env>)
    returns (ok: bool, out: seq<Desc>, bufs: seq<Slot>)
    requires inst.Valid() && |envs| == |ds|
    modifies inst`pool, inst`nextId, inst`tree, inst`nr, inst`maxCapacity, inst`vaInst, inst`frameUsage
    ensures Building(inst, bufs, old(inst.pool), old(inst.nextId))
    ensures ok ==> Rendered(ds, envs, out, bufs, config, inst.persist, inst.pool)
    ensures ok ==> AllMayFit(old(inst.pool), Load(ds, envs, config, inst.persist))
    ensures !ok ==> !AllFit(old(inst.pool), Load(ds, envs, config, inst.persist))
  {
    ok, out, bufs := true, ds, [];
    ghost var before, l := inst.pool, Load(ds, envs, config, inst.persist);
    for i := 0 to |ds|
      invariant Building(inst, bufs, before, old(inst.nextId))
      invariant Rendering(inst, ds, envs, i, out, bufs, config) && Tracing(inst, before, ds, envs, config, i)
      invariant SoFar(before, l, i, bufs)
    {
      ghost var was := bufs;
      ok, out, bufs := MapDescriptor(inst, ds, envs, i, out, bufs, config, before, old(inst.nextId));
      SoFarOn(ok, before, l, i, was, bufs);
      if !ok {
        return false, out, bufs;
      }
    }
    assert ds[..|ds|] == ds && out[..|ds|] == out && envs[..|ds|] == envs;
    return true, out, bufs;
  }

  lemma NothingHeld(refs: multiset<nat>)
    ensures refs + multiset{} == refs
  {
  }

  // list_add_tail of a frame whose slots hold their references.
  method ListFrame(inst: Instance, f: Frame)
    requires inst.ValidWith(Ids(f.bufs), Usage(f.bufs))
    requires inst.transId < FENCE_BIT ==>
               f.ktid == inst.transId && forall i :: 0 <= i < |inst.frames| ==> inst.frames[i].ktid < inst.transId
    modifies inst`frames
    ensures inst.Valid() && inst.frames == old(inst.frames) + [f]
  {
    ListedFrames(inst, f);
    if inst.transId < FENCE_BIT {
      NewestFrame(inst.frames, f);
    }
    inst.frames := inst.frames + [f];
    assert Balanced(inst.pool, FrameIds(inst.frames) + multiset{}, inst.regs) && inst.Identified();
  }

  // A frame with the latest id has an id of its own.
  lemma NewestFrame(frames: seq<Frame>, f: Frame)
    requires forall i, j :: 0 <= i < j < |frames| ==> frames[i].ktid != frames[j].ktid
    requires forall i :: 0 <= i < |frames| ==> frames[i].ktid < f.ktid
    ensures var more := frames + [f];
            && (forall i :: 0 <= i < |more| ==> more[i].ktid <= f.ktid)
            && forall i, j :: 0 <= i < j < |more| ==> more[i].ktid != more[j].ktid
  {
  }

  lemma ListedFrames(inst: Instance, f: Frame)
    requires inst.ValidWith(Ids(f.bufs), Usage(f.bufs))
    ensures Balanced(inst.pool, FrameIds(inst.frames + [f]) + multiset{}, inst.regs)
    ensures inst.frameUsage == FrameUsage(inst.frames + [f])
  {
    FrameIdsSnoc(inst.frames, f);
    NothingHeld(FrameIds(inst.frames) + Ids(f.bufs));
  }

  // The next transaction id.
  method TakeTransaction(inst: Instance) returns (ktid: nat)
    requires inst.Valid()
    modifies inst`transId
    ensures inst.Valid() && inst.transId == old(inst.transId) + 1 && ktid == inst.transId % FENCE_BIT
    ensures inst.transId < FENCE_BIT ==>
              ktid == inst.transId && forall i :: 0 <= i < |inst.frames| ==> inst.frames[i].ktid < inst.transId
  {
    inst.transId := inst.transId + 1;
    ktid := inst.transId % FENCE_BIT;
  }

  // A buffer could not be mapped: the slots filled so far give their references back.
  method AbandonFrame(inst: Instance, bufs: seq<Slot>, ghost before: Pool, ghost next: nat)
    requires Building(inst, bufs, before, next) && Live(before)
    modifies inst`pool, inst`frameUsage
    ensures inst.Valid() && SameReferences(before, inst.pool)
  {
    ghost var pool := inst.pool;
    UnmapFrameBuf(inst, bufs);
    Rollback(before, pool, inst.pool, next, Ids(bufs));
  }

  /** The frame of a packet has been listed after `frames`, its references taken since `before`. */
  ghost predicate Listed(inst: Instance, frames: seq<Frame>, ds: seq<Desc>, envs: seq<Env>, out: seq<Desc>,
                         config: bool, before: Pool, next: nat)
    reads inst
  {
    && |inst.frames| == |frames| + 1
    && var f := inst.frames[|frames|];
       && inst.frames == frames + [f]
       && f.ktid == inst.transId % FENCE_BIT && |f.bufs| <= MAX_FRAME_BUFFER_NUMS
       && Rendered(ds, envs, out, f.bufs, config, inst.persist, inst.pool)
       && Taken(before, inst.pool, next, Ids(f.bufs))
  }

  /** msm_cvp_map_frame. Either every buffer of the packet is mapped, its descriptor says where, and the frame is
      listed under the packet's transaction id; or nothing is listed, and every mapping somebody refers to has
      the count it had, whatever was evicted or added to the cache before the failure. It succeeds if no more than 40
      buffers need a slot and each fits every mapping it may come to, and only if each fits one. */
  method MapFrame(inst: Instance, offset: nat, ds: seq<Desc>, config: bool, granted: bool, envs: seq<Env>)
    returns (rc: int, out: seq<Desc>)
    requires inst.Valid() && |envs| == |ds|
    modifies inst`pool, inst`nextId, inst`tree, inst`nr, inst`maxCapacity, inst`vaInst, inst`frameUsage,
             inst`transId, inst`frames
    ensures inst.Valid() && inst.transId == old(inst.transId) + 1
    ensures offset == 0 || ds == [] ==>
              rc == 0 && out == ds && inst.frames == old(inst.frames) && inst.pool == old(inst.pool)
    ensures ds != [] && 0 < offset < SESSION_HEADER_WORDS ==> rc == EINVAL
    ensures ds != [] && offset >= SESSION_HEADER_WORDS && !granted ==> rc == ENOMEM
    ensures ds != [] && offset >= SESSION_HEADER_WORDS && granted ==>
              && rc in {0, EINVAL}
              && (AllFit(old(inst.pool), Load(ds, envs, config, inst.persist)) ==> rc == 0)
              && (rc == 0 ==> AllMayFit(old(inst.pool), Load(ds, envs, config, inst.persist)))
    ensures rc == 0 && offset != 0 && ds != [] ==>
              Listed(inst, old(inst.frames), ds, envs, out, config, old(inst.pool), old(inst.nextId))
    ensures rc != 0 ==>
              && inst.frames == old(inst.frames) && inst.frameUsage == old(inst.frameUsage)
              && SameReferences(old(inst.pool), inst.pool)
  {
    var ktid := TakeTransaction(inst);
    rc, out := 0, ds;
    if offset != 0 && ds != [] {
      rc := if offset < SESSION_HEADER_WORDS then EINVAL else if !granted then ENOMEM else 0;
      if rc == 0 {
        rc, out := MapPacket(inst, ktid, ds, config, envs);
      }
    }
  }

  // The buffers of a packet, and then the frame.
  method MapPacket(inst: Instance, ktid: nat, ds: seq<Desc>, config: bool, envs: seq<Env>)
    returns (rc: int, out: seq<Desc>)
    requires inst.Valid() && |envs| == |ds| && ktid == inst.transId % FENCE_BIT
    requires inst.transId < FENCE_BIT ==>
               ktid == inst.transId && forall i :: 0 <= i < |inst.frames| ==> inst.frames[i].ktid < inst.transId
    modifies inst`pool, inst`nextId, inst`tree, inst`nr, inst`maxCapacity, inst`vaInst, inst`frameUsage, inst`frames
    ensures inst.Valid() && rc in {0, EINVAL}
    ensures rc == 0 ==> Listed(inst, old(inst.frames), ds, envs, out, config, old(inst.pool), old(inst.nextId))
    ensures rc == 0 ==> AllMayFit(old(inst.pool), Load(ds, envs, config, old(inst.persist)))
    ensures rc != 0 ==> !AllFit(old(inst.pool), Load(ds, envs, config, old(inst.persist)))
    ensures rc != 0 ==>
              && inst.frames == old(inst.frames) && inst.frameUsage == old(inst.frameUsage)
              && SameReferences(old(inst.pool), inst.pool)
  {
    var ok, bufs;
    ok, out, bufs := MapDescriptors(inst, ds, config, envs);
    if !ok {
      AbandonFrame(inst, bufs, old(inst.pool), old(inst.nextId));
      return EINVAL, out;
    }
    ListPacket(inst, Frame(ktid, bufs), ds, envs, out, config, old(inst.pool), old(inst.nextId));
    return 0, out;
  }

  method ListPacket(inst: Instance, f: Frame, ghost ds: seq<Desc>, ghost envs: seq<Env>, ghost out: seq<Desc>,
                    ghost config: bool, ghost before: Pool, ghost next: nat)
    requires Building(inst, f.bufs, before, next) && Rendered(ds, envs, out, f.bufs, config, inst.persist, inst.pool)
    requires f.ktid == inst.transId % FENCE_BIT
    requires inst.transId < FENCE_BIT ==>
               f.ktid == inst.transId && forall i :: 0 <= i < |inst.frames| ==> inst.frames[i].ktid < inst.transId
    modifies inst`frames
    ensures inst.Valid() && Listed(inst, old(inst.frames), ds, envs, out, config, before, next)
  {
    ListFrame(inst, f);
  }

  /** The first listed frame with an id; |frames| if there is none. */
  function FrameAt(frames: seq<Frame>, ktid: nat): (i: nat)
    ensures i <= |frames| && (i < |frames| ==> frames[i].ktid == ktid)
    ensures forall j :: 0 <= j < i ==> frames[j].ktid != ktid
  {
    if frames == [] || frames[0].ktid == ktid then 0 else 1 + FrameAt(frames[1..], ktid)
  }

  /** msm_cvp_unmap_frame: the first listed frame with the id, whose fence bit is ignored, goes and drops its
      references; without one nothing changes. While ids are distinct no frame with the id is left, so a second
      call changes nothing. */
  method UnmapFrame(inst: Instance, ktid: nat)
    requires inst.Valid()
    modifies inst`pool, inst`frameUsage, inst`frames
    ensures inst.Valid()
    ensures var i := FrameAt(old(inst.frames), ktid % FENCE_BIT);
            if i < |old(inst.frames)| then
              && inst.frames == Without(old(inst.frames), i)
              && Dropped(old(inst.pool), inst.pool, Ids(old(inst.frames)[i].bufs))
            else
              inst.frames == old(inst.frames) && inst.pool == old(inst.pool) && inst.frameUsage == old(inst.frameUsage)
    ensures inst.transId < FENCE_BIT ==> FrameAt(inst.frames, ktid % FENCE_BIT) == |inst.frames|
  {
    var i := FindFrame(inst.frames, ktid % FENCE_BIT);
    if i < |inst.frames| {
      if inst.transId < FENCE_BIT {
        OnlyFrame(inst, i);
      }
      RemoveFrame(inst, i);
    }
  }

  method FindFrame(frames: seq<Frame>, ktid: nat) returns (i: nat)
    ensures i == FrameAt(frames, ktid)
  {
    i := 0;
    while i < |frames| && frames[i].ktid != ktid
      invariant i <= |frames| && forall j :: 0 <= j < i ==> frames[j].ktid != ktid
    {
      i := i + 1;
    }
  }

  lemma OnlyFrame(inst: Instance, i: nat)
    requires inst.Identified() && i < |inst.frames| && inst.transId < FENCE_BIT
    ensures var id := inst.frames[i].ktid; FrameAt(Without(inst.frames, i), id) == |inst.frames| - 1
  {
    var rest, id := Without(inst.frames, i), inst.frames[i].ktid;
    DelistedFrames(inst.frames, i);
    assert forall k :: 0 <= k < |rest| ==> rest[k].ktid != id;
  }

  // Takes a frame off the list and unmaps its buffers.
  method RemoveFrame(inst: Instance, i: nat)
    requires inst.Valid() && i < |inst.frames|
    modifies inst`pool, inst`frameUsage, inst`frames
    ensures inst.Valid() && inst.frames == Without(old(inst.frames), i)
    ensures Dropped(old(inst.pool), inst.pool, Ids(old(inst.frames)[i].bufs))
  {
    var bufs := inst.frames[i].bufs;
    DelistFrame(inst, i);
    UnmapFrameBuf(inst, bufs);
  }

  // list_del of a frame, whose references are then held by nobody else.
  method DelistFrame(inst: Instance, i: nat)
    requires inst.Valid() && i < |inst.frames|
    modifies inst`frames
    ensures inst.frames == Without(old(inst.frames), i)
    ensures var bufs := old(inst.frames)[i].bufs; inst.ValidWith(Ids(bufs), Usage(bufs))
  {
    DelistedCounts(inst, i);
    if inst.transId < FENCE_BIT {
      IdsStayApart(inst.frames, i, inst.transId);
    }
    inst.frames := Without(inst.frames, i);
  }

  lemma DelistedCounts(inst: Instance, i: nat)
    requires inst.Valid() && i < |inst.frames|
    ensures var rest, bufs := Without(inst.frames, i), inst.frames[i].bufs;
            && Balanced(inst.pool, FrameIds(rest) + Ids(bufs), inst.regs)
            && inst.frameUsage == FrameUsage(rest) + Usage(bufs)
  {
    FrameIdsDelist(inst.frames, i);
    FrameUsageDelist(inst.frames, i);
    NothingHeld(FrameIds(inst.frames));
  }

  lemma IdsStayApart(frames: seq<Frame>, i: nat, transId: nat)
    requires i < |frames| && forall k :: 0 <= k < |frames| ==> frames[k].ktid <= transId
    requires forall j, k :: 0 <= j < k < |frames| ==> frames[j].ktid != frames[k].ktid
    ensures forall k :: 0 <= k < |Without(frames, i)| ==> Without(frames, i)[k].ktid <= transId
    ensures var rest := Without(frames, i); forall j, k :: 0 <= j < k < |rest| ==> rest[j].ktid != rest[k].ktid
  {
    DelistedFrames(frames, i);
  }

  lemma DelistedFrames(frames: seq<Frame>, i: nat)
    requires i < |frames|
    ensures |Without(frames, i)| == |frames| - 1
    ensures forall k :: 0 <= k < |frames| - 1 ==> Without(frames, i)[k] == frames[if k < i then k else k + 1]
  {
  }
}
