/** When the buffers of a packet can all be mapped, told from what there was before. */
module FrameFit {
  import opened Packets
  import opened SearchTree
  import opened MapCache
  import opened FrameLedger
  import opened MappingSearch

  /** The buffers of a packet: descriptors, the kernel's answers to each, whether it is a configuration packet, and the
      persist list. */
  datatype Load = Load(ds: seq<Desc>, envs: seq<Env>, config: bool, persist: seq<Persist>)

  predicate Sized(l: Load) {
    |l.envs| == |l.ds|
  }

  /** The descriptor needs a slot of the frame: it is not empty, and names no persist buffer in a configuration
      packet. */
  predicate Needs(l: Load, i: nat) {
    i < |l.ds| && l.ds[i].size != 0 && !(l.config && Match(l.persist, l.ds[i]).Some?)
  }

  function SlotsFor(l: Load, n: nat): nat {
    if n == 0 then 0 else SlotsFor(l, n - 1) + if Needs(l, n - 1) then 1 else 0
  }

  /** The buffer may be mapped there: its range fits and its iova is not zero. */
  predicate Fine(d: Desc, m: Mapped) {
    BufValid(d, m.size) && (m.iova + d.offset) % 0x1_0000_0000 != 0
  }

  function Where(s: Smem): Mapped {
    Mapped(s.iova, s.size)
  }

  /** A mapping made for this buffer. */
  predicate MadeFor(env: Env, s: Smem) {
    env.dmaBuf == Some(s.dmaBuf) && env.granted && env.mapping == Some(Where(s))
  }

  /** Every mapping was there before, or was made for one of the first n buffers. */
  ghost predicate Traced(before: Pool, pool: Pool, l: Load, n: nat)
    requires Sized(l)
  {
    forall id <- pool ::
      SameMapping(before, pool, id) || exists j :: 0 <= j < n && Needs(l, j) && MadeFor(l.envs[j], pool[id])
  }

  /** A mapping the buffer may come to share or to have made: one of its dma_buf there was before, or one made for a
      buffer of the packet with that dma_buf, not later than itself. */
  ghost predicate Candidate(before: Pool, l: Load, i: nat, m: Mapped)
    requires Sized(l) && i < |l.ds|
  {
    || (exists id <- before :: l.envs[i].dmaBuf == Some(before[id].dmaBuf) && Where(before[id]) == m)
    || (exists j :: 0 <= j <= i && Needs(l, j) &&
          l.envs[j].dmaBuf == l.envs[i].dmaBuf && l.envs[j].granted && l.envs[j].mapping == Some(m))
  }

  /** The buffer can be mapped whichever of its candidates it comes to. */
  ghost predicate Fits(before: Pool, l: Load, i: nat)
    requires Sized(l) && i < |l.ds|
  {
    && l.envs[i].dmaBuf.Some? && l.envs[i].granted && l.envs[i].mapping.Some?
    && forall m :: Candidate(before, l, i, m) ==> Fine(l.ds[i], m)
  }

  /** The buffer can be mapped at one of them. */
  ghost predicate MayFit(before: Pool, l: Load, i: nat)
    requires Sized(l) && i < |l.ds|
  {
    l.envs[i].dmaBuf.Some? && exists m :: Candidate(before, l, i, m) && Fine(l.ds[i], m)
  }

  ghost predicate AllFit(before: Pool, l: Load)
    requires Sized(l)
  {
    SlotsFor(l, |l.ds|) <= MAX_FRAME_BUFFER_NUMS && forall i :: 0 <= i < |l.ds| && Needs(l, i) ==> Fits(before, l, i)
  }

  ghost predicate AllMayFit(before: Pool, l: Load)
    requires Sized(l)
  {
    SlotsFor(l, |l.ds|) <= MAX_FRAME_BUFFER_NUMS && forall i :: 0 <= i < |l.ds| && Needs(l, i) ==> MayFit(before, l, i)
  }

  lemma {:induction false} SlotsGrow(l: Load, m: nat, n: nat)
    requires m <= n
    ensures SlotsFor(l, m) <= SlotsFor(l, n)
  {
    if m < n {
      SlotsGrow(l, m, n - 1);
    }
  }

  /** Where every buffer has one candidate only the two conditions are one. */
  lemma OneCandidate(before: Pool, l: Load)
    requires Sized(l)
    requires forall i :: 0 <= i < |l.ds| && Needs(l, i) ==>
               && l.envs[i].dmaBuf.Some? && l.envs[i].granted && l.envs[i].mapping.Some?
               && forall m :: Candidate(before, l, i, m) ==> l.envs[i].mapping == Some(m)
    ensures AllFit(before, l) <==> AllMayFit(before, l)
  {
    forall i | 0 <= i < |l.ds| && Needs(l, i) ensures Fits(before, l, i) <==> MayFit(before, l, i) {
      assert Candidate(before, l, i, l.envs[i].mapping.value);
    }
  }

  // What mapping one buffer adds.

  /** The only mapping that is new, if any, was made for the buffer. */
  ghost predicate OnlyNew(pool: Pool, after: Pool, env: Env) {
    forall id <- after :: SameMapping(pool, after, id) || MadeFor(env, after[id])
  }

  lemma SharedOnly(pool: Pool, id: nat, env: Env)
    requires id in pool
    ensures OnlyNew(pool, pool[id := Referenced(pool[id])], env)
  {
  }

  lemma HousedOnly(pool: Pool, after: Pool, next: nat, id: nat, env: Env, room: bool)
    requires env.dmaBuf.Some? && env.granted && env.mapping.Some?
    requires Housed(pool, after, id, OwnMapping(env), room) && Taken(pool, after, next, multiset{id})
    ensures OnlyNew(pool, after, env)
  {
  }

  lemma TracedOn(before: Pool, pool: Pool, after: Pool, l: Load, n: nat)
    requires Sized(l) && Traced(before, pool, l, n) && Needs(l, n) && OnlyNew(pool, after, l.envs[n])
    ensures Traced(before, after, l, n + 1)
  {
    forall id <- after
      ensures SameMapping(before, after, id) ||
              exists j :: 0 <= j < n + 1 && Needs(l, j) && MadeFor(l.envs[j], after[id])
    {
      if SameMapping(pool, after, id) {
        if !SameMapping(before, pool, id) {
          var j :| 0 <= j < n && Needs(l, j) && MadeFor(l.envs[j], pool[id]);
          assert MadeFor(l.envs[j], after[id]);
        }
      } else {
        assert MadeFor(l.envs[n], after[id]);
      }
    }
  }

  lemma TracedPast(before: Pool, pool: Pool, l: Load, n: nat)
    requires Sized(l) && Traced(before, pool, l, n)
    ensures Traced(before, pool, l, n + 1)
  {
  }

  /** A mapping of the buffer's dma_buf is one of its candidates, once it has been dealt with and before. */
  lemma IsCandidate(before: Pool, pool: Pool, l: Load, i: nat, n: nat, id: nat)
    requires Sized(l) && i < |l.ds| && n <= i + 1 && Traced(before, pool, l, n)
    requires id in pool && l.envs[i].dmaBuf == Some(pool[id].dmaBuf)
    ensures Candidate(before, l, i, Where(pool[id]))
  {
    if SameMapping(before, pool, id) {
      assert l.envs[i].dmaBuf == Some(before[id].dmaBuf) && Where(before[id]) == Where(pool[id]);
    } else {
      var j :| 0 <= j < n && Needs(l, j) && MadeFor(l.envs[j], pool[id]);
      assert l.envs[j].dmaBuf == l.envs[i].dmaBuf && l.envs[j].mapping == Some(Where(pool[id]));
    }
  }

  /** What a slot filled for the buffer tells. */
  lemma SlotTold(before: Pool, pool: Pool, l: Load, i: nat, id: nat)
    requires Sized(l) && i < |l.ds| && Traced(before, pool, l, i + 1)
    requires id in pool && l.envs[i].dmaBuf == Some(pool[id].dmaBuf) && BufValid(l.ds[i], pool[id].size)
    ensures IovaAt(pool[id], l.ds[i].offset) != 0 ==> MayFit(before, l, i)
    ensures IovaAt(pool[id], l.ds[i].offset) == 0 ==> !Fits(before, l, i)
  {
    IsCandidate(before, pool, l, i, i + 1, id);
  }

  /** A buffer that fits is acceptable, whatever has been evicted or mapped for those before it. */
  lemma FitIsAcceptable(before: Pool, pool: Pool, l: Load, i: nat, tree: Tree, frames: seq<Frame>, regs: map<nat, nat>)
    requires Sized(l) && Needs(l, i) && Traced(before, pool, l, i) && Fits(before, l, i)
    requires Indexed(tree, pool) && Registered(l.persist, pool, regs)
    ensures match Found(tree, l.persist, frames, pool, l.envs[i].dmaBuf.value)
            case Some(id) => id in pool && BufValid(l.ds[i], pool[id].size)
            case None => BufValid(l.ds[i], l.envs[i].mapping.value.size)
  {
    FoundExactly(tree, l.persist, frames, pool, regs, l.envs[i].dmaBuf.value);
    var r := Found(tree, l.persist, frames, pool, l.envs[i].dmaBuf.value);
    if r.Some? {
      IsCandidate(before, pool, l, i, i, r.value);
    } else {
      assert Candidate(before, l, i, l.envs[i].mapping.value);
    }
  }
}
