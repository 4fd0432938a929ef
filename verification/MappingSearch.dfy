/** Which mapping a session reuses for a dma_buf, as a function of its cache, persist list and frame list. */
module MappingSearch {
  import opened Packets
  import opened SearchTree
  import opened MapCache
  import opened FrameLedger

  predicate Maps(pool: Pool, id: nat, dmaBuf: nat) {
    id in pool && pool[id].dmaBuf == dmaBuf
  }

  function InPersist(persist: seq<Persist>, pool: Pool, dmaBuf: nat): Option<nat> {
    if persist == [] then None
    else if Maps(pool, persist[0].id, dmaBuf) then Some(persist[0].id)
    else InPersist(persist[1..], pool, dmaBuf)
  }

  function InSlots(bufs: seq<Slot>, pool: Pool, dmaBuf: nat): Option<nat> {
    if bufs == [] then None
    else if Maps(pool, bufs[0].id, dmaBuf) then Some(bufs[0].id)
    else InSlots(bufs[1..], pool, dmaBuf)
  }

  function InFrames(frames: seq<Frame>, pool: Pool, dmaBuf: nat): Option<nat> {
    if frames == [] then None
    else
      var r := InSlots(frames[0].bufs, pool, dmaBuf);
      if r.Some? then r else InFrames(frames[1..], pool, dmaBuf)
  }

  /** The cache comes first, then the persist list, then the frames in the order they were listed. */
  function Found(tree: Tree, persist: seq<Persist>, frames: seq<Frame>, pool: Pool, dmaBuf: nat): Option<nat> {
    if Lookup(tree, dmaBuf).Some? then Lookup(tree, dmaBuf)
    else if InPersist(persist, pool, dmaBuf).Some? then InPersist(persist, pool, dmaBuf)
    else InFrames(frames, pool, dmaBuf)
  }

  lemma {:induction false} InPersistExactly(persist: seq<Persist>, pool: Pool, dmaBuf: nat)
    ensures InPersist(persist, pool, dmaBuf) == None <==>
            forall i :: 0 <= i < |persist| ==> !Maps(pool, persist[i].id, dmaBuf)
    ensures InPersist(persist, pool, dmaBuf).Some? ==>
              Maps(pool, InPersist(persist, pool, dmaBuf).value, dmaBuf)
  {
    if persist != [] {
      InPersistExactly(persist[1..], pool, dmaBuf);
      assert forall i :: 0 < i < |persist| ==> persist[i] == persist[1..][i - 1];
    }
  }

  lemma {:induction false} InSlotsExactly(bufs: seq<Slot>, pool: Pool, dmaBuf: nat)
    ensures InSlots(bufs, pool, dmaBuf) == None <==> forall id <- Ids(bufs) :: !Maps(pool, id, dmaBuf)
    ensures InSlots(bufs, pool, dmaBuf).Some? ==> Maps(pool, InSlots(bufs, pool, dmaBuf).value, dmaBuf)
  {
    if bufs != [] {
      InSlotsExactly(bufs[1..], pool, dmaBuf);
      NextSlot(bufs, 0);
      assert bufs[0..] == bufs;
      assert bufs[0].id in Ids(bufs);
    }
  }

  lemma {:induction false} InFramesExactly(frames: seq<Frame>, pool: Pool, dmaBuf: nat)
    ensures InFrames(frames, pool, dmaBuf) == None <==> forall id <- FrameIds(frames) :: !Maps(pool, id, dmaBuf)
    ensures InFrames(frames, pool, dmaBuf).Some? ==> Maps(pool, InFrames(frames, pool, dmaBuf).value, dmaBuf)
  {
    if frames != [] {
      InFramesExactly(frames[1..], pool, dmaBuf);
      InSlotsExactly(frames[0].bufs, pool, dmaBuf);
      assert forall id :: id in FrameIds(frames) <==> id in Ids(frames[0].bufs) || id in FrameIds(frames[1..]);
    }
  }

  /** The search succeeds exactly when some cached, registered or listed mapping is of that dma_buf, and what it
      yields is one. */
  lemma FoundExactly(tree: Tree, persist: seq<Persist>, frames: seq<Frame>, pool: Pool, regs: map<nat, nat>,
                     dmaBuf: nat)
    requires Indexed(tree, pool) && Registered(persist, pool, regs)
    ensures var r := Found(tree, persist, frames, pool, dmaBuf);
            && (r.Some? ==> Maps(pool, r.value, dmaBuf))
            && (r.Some? <==> exists id <- pool :: pool[id].dmaBuf == dmaBuf &&
                               (pool[id].cached || id in regs || id in FrameIds(frames)))
  {
    LookupInOrder(tree, dmaBuf);
    InPersistExactly(persist, pool, dmaBuf);
    InFramesExactly(frames, pool, dmaBuf);
    if Lookup(tree, dmaBuf).Some? {
      assert Entry(dmaBuf, Lookup(tree, dmaBuf).value) in InOrder(tree);
    } else {
      forall id <- pool | pool[id].dmaBuf == dmaBuf ensures !pool[id].cached {
        assert Entry(dmaBuf, id) !in InOrder(tree);
      }
    }
  }
}
