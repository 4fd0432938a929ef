/** The eviction walk over the mapping cache, as values: which entries and mappings it leaves. */
module CacheSweep {
  import opened Lists
  import opened Packets
  import opened SearchTree
  import opened MapCache

  /** The entries whose mappings are referred to. */
  function Kept(es: seq<Entry>, pool: Pool): seq<Entry> {
    if es == [] then []
    else
      var e := es[|es| - 1];
      var rest := Kept(es[..|es| - 1], pool);
      if e.id in pool && pool[e.id].refcount > 0 then rest + [e] else rest
  }

  /** The mappings left once unreferenced ones among these entries have been unmapped. */
  function Swept(es: seq<Entry>, pool: Pool): Pool {
    if es == [] then pool
    else
      var e := es[|es| - 1];
      var rest := Swept(es[..|es| - 1], pool);
      if e.id in pool && pool[e.id].refcount == 0 then rest - {e.id} else rest
  }

  lemma {:induction false} SweptExactly(es: seq<Entry>, pool: Pool)
    ensures forall id :: id in Swept(es, pool) <==>
              id in pool && !(pool[id].refcount == 0 && exists j :: 0 <= j < |es| && es[j].id == id)
    ensures forall id <- Swept(es, pool) :: Swept(es, pool)[id] == pool[id]
  {
    if es != [] {
      var last := |es| - 1;
      SweptExactly(es[..last], pool);
      assert forall j :: 0 <= j < last ==> es[j] == es[..last][j];
    }
  }

  // Different entries are different mappings.
  lemma DistinctIds(tree: Tree, pool: Pool, i: nat, j: nat)
    requires Indexed(tree, pool) && i < j < |InOrder(tree)|
    ensures InOrder(tree)[i].id != InOrder(tree)[j].id
  {
  }

  // Where a walk stands: entries kept so far, then those still ahead.
  lemma Hop(kept: seq<Entry>, es: seq<Entry>, i: nat)
    requires i < |es|
    ensures var k := |kept|; var at := kept + es[i..];
            && at[k] == es[i]
            && (if i + 1 < |es| then k + 1 < |at| && at[k + 1] == es[i + 1] else k + 1 == |at|)
            && Without(at, k) == kept + es[i + 1..]
            && at == kept + [es[i]] + es[i + 1..]
  {
  }

  /** A walk over the entries of `was` that has dealt with the first i of them and stands at `node`. */
  ghost predicate Walk(was: Tree, before: Pool, i: nat, tree: Tree, pool: Pool, node: Option<Entry>) {
    var all := InOrder(was);
    && i <= |all| && node == (if i < |all| then Some(all[i]) else None)
    && Ordered(tree) && InOrder(tree) == Kept(all[..i], before) + all[i..]
    && pool == Swept(all[..i], before)
  }

  lemma WalkStarts(tree: Tree, pool: Pool)
    requires Ordered(tree)
    ensures Walk(tree, pool, 0, tree, pool, First(tree))
  {
    FirstInOrder(tree);
    assert InOrder(tree)[..0] == [] && InOrder(tree)[0..] == InOrder(tree);
  }

  lemma WalkEnds(was: Tree, before: Pool, i: nat, tree: Tree, pool: Pool)
    requires Walk(was, before, i, tree, pool, None)
    ensures InOrder(tree) == Kept(InOrder(was), before) && pool == Swept(InOrder(was), before)
  {
    assert InOrder(was)[..i] == InOrder(was) && InOrder(was)[i..] == [];
  }

  lemma WalkMeets(was: Tree, before: Pool, i: nat, tree: Tree, pool: Pool, e: Entry) returns (k: nat)
    requires Indexed(was, before) && Walk(was, before, i, tree, pool, Some(e))
    ensures k < |InOrder(tree)| && InOrder(tree)[k] == e
    ensures k == |Kept(InOrder(was)[..i], before)|
    ensures e.id in pool && e.id in before && pool[e.id] == before[e.id]
    ensures i < |InOrder(was)|
    ensures Next(tree, e.key) == if i + 1 < |InOrder(was)| then Some(InOrder(was)[i + 1]) else None
  {
    var all := InOrder(was);
    k := |Kept(all[..i], before)|;
    Hop(Kept(all[..i], before), all, i);
    NextInOrder(tree, k);
    NotSweptYet(was, before, i);
  }

  lemma NotSweptYet(tree: Tree, pool: Pool, i: nat)
    requires Indexed(tree, pool) && i < |InOrder(tree)|
    ensures var es := InOrder(tree);
            es[i].id in Swept(es[..i], pool) && Swept(es[..i], pool)[es[i].id] == pool[es[i].id]
  {
    var es := InOrder(tree);
    SweptExactly(es[..i], pool);
    forall j | 0 <= j < i ensures es[j].id != es[i].id { DistinctIds(tree, pool, j, i); }
  }

  lemma SweepOne(es: seq<Entry>, pool: Pool, i: nat)
    requires i < |es| && es[i].id in pool
    ensures Swept(es[..i + 1], pool) ==
            (if pool[es[i].id].refcount == 0 then Swept(es[..i], pool) - {es[i].id} else Swept(es[..i], pool))
    ensures Kept(es[..i + 1], pool) ==
            (if pool[es[i].id].refcount == 0 then Kept(es[..i], pool) else Kept(es[..i], pool) + [es[i]])
  {
    assert es[..i + 1][..i] == es[..i];
  }

  lemma WalkPasses(was: Tree, before: Pool, i: nat, tree: Tree, pool: Pool, e: Entry)
    requires Indexed(was, before) && Walk(was, before, i, tree, pool, Some(e))
    requires e.id in before && before[e.id].refcount > 0
    ensures Walk(was, before, i + 1, tree, pool, Next(tree, e.key))
  {
    var k := WalkMeets(was, before, i, tree, pool, e);
    SweepOne(InOrder(was), before, i);
    Hop(Kept(InOrder(was)[..i], before), InOrder(was), i);
  }

  lemma WalkErases(was: Tree, before: Pool, i: nat, tree: Tree, erased: Tree, pool: Pool, left: Pool, e: Entry, k: nat)
    requires Indexed(was, before) && Walk(was, before, i, tree, pool, Some(e))
    requires e.id in before && before[e.id].refcount == 0 && left == pool - {e.id}
    requires k == |Kept(InOrder(was)[..i], before)| < |InOrder(tree)|
    requires Ordered(erased) && InOrder(erased) == Without(InOrder(tree), k)
    ensures Walk(was, before, i + 1, erased, left, Next(tree, e.key))
  {
    var k' := WalkMeets(was, before, i, tree, pool, e);
    SweepOne(InOrder(was), before, i);
    Hop(Kept(InOrder(was)[..i], before), InOrder(was), i);
  }

  lemma SweepKeepsInvariants(tree: Tree, pool: Pool, refs: multiset<nat>, regs: map<nat, nat>)
    requires Indexed(tree, pool) && Live(pool) && Balanced(pool, refs, regs)
    requires forall id <- regs :: regs[id] > 0
    ensures var after := Swept(InOrder(tree), pool);
            && Live(after) && Balanced(after, refs, regs)
            && (forall id :: id in after <==> id in pool && !(pool[id].cached && pool[id].refcount == 0))
            && (forall id <- after :: after[id] == pool[id])
  {
    SweptExactly(InOrder(tree), pool);
  }

  lemma {:induction false} KeptExactly(es: seq<Entry>, pool: Pool)
    ensures forall e :: e in Kept(es, pool) <==> e in es && e.id in pool && pool[e.id].refcount > 0
  {
    if es != [] {
      var last := |es| - 1;
      KeptExactly(es[..last], pool);
      assert es == es[..last] + [es[last]];
    }
  }

  lemma IndexedAfterSweep(tree: Tree, left: Tree, pool: Pool)
    requires Indexed(tree, pool) && Ordered(left) && InOrder(left) == Kept(InOrder(tree), pool)
    ensures Indexed(left, Swept(InOrder(tree), pool))
    ensures CachedSize(InOrder(left), Swept(InOrder(tree), pool)) == CachedSize(InOrder(left), pool)
  {
    KeptExactly(InOrder(tree), pool);
    SweptExactly(InOrder(tree), pool);
    var es := InOrder(left);
    forall i | 0 <= i < |es|
      ensures es[i].id in Swept(InOrder(tree), pool)
    {
      assert es[i] in es;
    }
    CachedSizeSame(es, pool, Swept(InOrder(tree), pool));
  }

  lemma CachedSizeWithout(es: seq<Entry>, k: nat, pool: Pool)
    requires k < |es|
    ensures CachedSize(es, pool) == CachedSize(Without(es, k), pool) + SizeOf(pool, es[k].id)
  {
    assert es == es[..k] + ([es[k]] + es[k + 1..]);
    CachedSizeAppend(es[..k], [es[k]] + es[k + 1..], pool);
    CachedSizeAppend([es[k]], es[k + 1..], pool);
    CachedSizeAppend(es[..k], es[k + 1..], pool);
    assert [es[k]][1..] == [];
  }

  lemma {:induction false} KeptAll(es: seq<Entry>, pool: Pool)
    ensures |Kept(es, pool)| <= |es|
    ensures |Kept(es, pool)| == |es| <==>
            forall j :: 0 <= j < |es| ==> es[j].id in pool && pool[es[j].id].refcount > 0
  {
    if es != [] {
      var last := |es| - 1;
      KeptAll(es[..last], pool);
      assert forall j :: 0 <= j < last ==> es[j] == es[..last][j];
    }
  }

  // The walk frees nothing exactly when every cached mapping is referred to.
  lemma NothingToSweep(tree: Tree, pool: Pool)
    requires Indexed(tree, pool)
    ensures |Kept(InOrder(tree), pool)| == |InOrder(tree)| <==>
            forall id <- pool :: pool[id].cached ==> pool[id].refcount > 0
  {
    var es := InOrder(tree);
    KeptAll(es, pool);
    if forall j :: 0 <= j < |es| ==> pool[es[j].id].refcount > 0 {
      forall id <- pool | pool[id].cached ensures pool[id].refcount > 0 {
        assert Entry(pool[id].dmaBuf, id) in es;
      }
    }
  }

  // All of it together: what eviction leaves is sound, and nothing referred to is gone.
  lemma SweptSound(was: Tree, left: Tree, pool: Pool, refs: multiset<nat>, regs: map<nat, nat>, persist: seq<Persist>)
    requires Indexed(was, pool) && Live(pool) && Balanced(pool, refs, regs) && Registered(persist, pool, regs)
    requires Ordered(left) && InOrder(left) == Kept(InOrder(was), pool)
    ensures var after := Swept(InOrder(was), pool);
            && Indexed(left, after) && Live(after) && Balanced(after, refs, regs) && Registered(persist, after, regs)
            && CachedSize(InOrder(left), after) == CachedSize(InOrder(left), pool)
            && (forall id :: id in after <==> id in pool && !(pool[id].cached && pool[id].refcount == 0))
            && (forall id <- after :: after[id] == pool[id])
    ensures |InOrder(left)| == |InOrder(was)| <==> forall id <- pool :: pool[id].cached ==> pool[id].refcount > 0
  {
    SweepKeepsInvariants(was, pool, refs, regs);
    IndexedAfterSweep(was, left, pool);
    NothingToSweep(was, pool);
  }
}
