/** Buffers of scattered pages shown to a process, and to the kernel. */
module BufferMmap {
  import opened Packets

  const PAGE_SIZE: nat := 4096

  /** A run of consecutive pages (struct scatterlist): its first page and its length in bytes. */
  datatype Segment = Segment(page: nat, length: nat)

  predicate WholePages(segs: seq<Segment>) {
    forall i :: 0 <= i < |segs| ==> segs[i].length % PAGE_SIZE == 0
  }

  function SegmentPages(s: Segment): seq<nat> {
    seq(s.length / PAGE_SIZE, k requires 0 <= k < s.length / PAGE_SIZE => s.page + k)
  }

  /** The pages of a buffer, in order. */
  function Pages(segs: seq<Segment>): seq<nat> {
    if segs == [] then [] else Pages(segs[..|segs| - 1]) + SegmentPages(segs[|segs| - 1])
  }

  /** The pages of the first segments are the first pages. */
  lemma {:induction false} PagesPrefix(segs: seq<Segment>, i: nat)
    requires i <= |segs|
    ensures |Pages(segs[..i])| <= |Pages(segs)| && Pages(segs)[..|Pages(segs[..i])|] == Pages(segs[..i])
    decreases |segs|
  {
    if i == |segs| {
      assert segs[..i] == segs;
    } else {
      var front := segs[..|segs| - 1];
      PagesPrefix(front, i);
      assert front[..i] == segs[..i];
      assert Pages(segs)[..|Pages(front)|] == Pages(front);
    }
  }

  /** Where the pages of one segment are. */
  lemma SegmentAt(segs: seq<Segment>, i: nat)
    requires i < |segs|
    ensures var before, n := |Pages(segs[..i])|, segs[i].length / PAGE_SIZE;
            && |Pages(segs[..i + 1])| == before + n <= |Pages(segs)|
            && forall j :: before <= j < before + n ==> Pages(segs)[j] == segs[i].page + (j - before)
  {
    assert segs[..i + 1][..i] == segs[..i];
    PagesPrefix(segs, i + 1);
    var before := |Pages(segs[..i])|;
    assert forall k :: 0 <= k < |Pages(segs[..i + 1])| ==> Pages(segs)[k] == Pages(segs[..i + 1])[k];
    assert Pages(segs[..i + 1]) == Pages(segs[..i]) + SegmentPages(segs[i]);
  }

  /** The process's side: the first n pages of the area are mapped and no others, each to the page of the buffer that
      is as far from `off` as it is from the start. */
  ghost predicate Shows(mapped: map<nat, nat>, first: nat, n: nat, all: seq<nat>, off: nat) {
    && (n > 0 ==> off + n <= |all|)
    && (forall v: nat :: v in mapped <==> first <= v < first + n)
    && (forall v: nat :: v in mapped ==> mapped[v] == all[off + (v - first)])
  }

  function Less(a: nat, b: nat): nat {
    if a <= b then a else b
  }

  function Minus(a: nat, b: nat): nat {
    if a >= b then a - b else 0
  }

  /** A memory area of a process. */
  class Area {
    const start: nat
    const end: nat
    const pgoff: nat
    var mapped: map<nat, nat>   // virtual page number to page

    ghost predicate Valid() {
      start % PAGE_SIZE == 0 && end % PAGE_SIZE == 0 && start < end
    }

    ghost function First(): nat {
      start / PAGE_SIZE
    }

    constructor (start: nat, end: nat, pgoff: nat)
      requires start % PAGE_SIZE == 0 && end % PAGE_SIZE == 0 && start < end
      ensures Valid() && mapped == map[] && this.start == start && this.end == end && this.pgoff == pgoff
    {
      this.start, this.end, this.pgoff, mapped := start, end, pgoff, map[];
    }

    /** remap_pfn_range: it may fail, and is never asked for a page that is mapped already. */
    method Remap(addr: nat, page: nat, len: nat, error: int) returns (ret: int)
      requires addr % PAGE_SIZE == 0 && len % PAGE_SIZE == 0
      requires forall v :: addr / PAGE_SIZE <= v < (addr + len) / PAGE_SIZE ==> v !in mapped
      modifies this
      ensures ret == error
      ensures if ret == 0
              then mapped == old(mapped) + Range(addr / PAGE_SIZE, page, len / PAGE_SIZE)
              else mapped == old(mapped)
    {
      if error == 0 {
        mapped := mapped + Range(addr / PAGE_SIZE, page, len / PAGE_SIZE);
      }
      return error;
    }

    // Where the loop stands after i segments: what is left of the page offset, and how far the area is filled.
    ghost predicate Stands(segs: seq<Segment>, i: nat, addr: nat, offset: nat) {
      && i <= |segs| && addr % PAGE_SIZE == 0 && start <= addr <= end
      && offset == Minus(pgoff, |Pages(segs[..i])|) * PAGE_SIZE
      && (addr < end ==> addr - start == Minus(|Pages(segs[..i])|, pgoff) * PAGE_SIZE)
      && (addr == end ==> Minus(|Pages(segs[..i])|, pgoff) * PAGE_SIZE >= end - start)
    }

    ghost predicate Filled(segs: seq<Segment>, i: nat, addr: nat, offset: nat)
      reads this
    {
      Stands(segs, i, addr, offset) && Shows(mapped, First(), (addr - start) / PAGE_SIZE, Pages(segs), pgoff)
    }

    // The arithmetic of one step.
    lemma NextSegment(segs: seq<Segment>, i: nat, addr: nat, offset: nat, len: nat)
      requires Valid() && WholePages(segs) && i < |segs| && Stands(segs, i, addr, offset) && addr < end
      requires offset < segs[i].length && len == Less(segs[i].length - offset, end - addr)
      ensures Stands(segs, i + 1, addr + len, 0) && len % PAGE_SIZE == 0
      ensures First() + (addr - start) / PAGE_SIZE == addr / PAGE_SIZE
      ensures (addr + len) / PAGE_SIZE == addr / PAGE_SIZE + len / PAGE_SIZE
      ensures (addr + len - start) / PAGE_SIZE == (addr - start) / PAGE_SIZE + len / PAGE_SIZE
      ensures var from, n := pgoff + (addr - start) / PAGE_SIZE, len / PAGE_SIZE;
              && from + n <= |Pages(segs)|
              && forall j :: from <= j < from + n ==> Pages(segs)[j] == segs[i].page + offset / PAGE_SIZE + (j - from)
    {
      SegmentAt(segs, i);
    }

    /** The area shows some page of the segment, if it gets that far. */
    ghost predicate Asked(segs: seq<Segment>, j: nat) {
      && j < |segs| && segs[j].length > 0 && |Pages(segs[..j + 1])| > pgoff
      && Minus(|Pages(segs[..j])|, pgoff) < (end - start) / PAGE_SIZE
    }

    /** No remapping asked for in the first i segments fails. */
    ghost predicate Unfailing(segs: seq<Segment>, errors: seq<int>, i: nat) {
      i <= |errors| && forall j: nat :: j < i && Asked(segs, j) ==> errors[j] == 0
    }

    // Skipped, shown, or never got to.
    lemma SegmentAsked(segs: seq<Segment>, i: nat, addr: nat, offset: nat)
      requires Valid() && WholePages(segs) && i < |segs| && Stands(segs, i, addr, offset) && addr < end
      ensures Asked(segs, i) <==> offset < segs[i].length
    {
      SegmentAt(segs, i);
    }

    lemma NotAskedBeyond(segs: seq<Segment>, i: nat, j: nat)
      requires Valid() && i <= j <= |segs| && Minus(|Pages(segs[..i])|, pgoff) * PAGE_SIZE >= end - start
      ensures !Asked(segs, j)
    {
      assert segs[..j][..i] == segs[..i];
      PagesPrefix(segs[..j], i);
    }

    /** _op_dma_buf_mmap: `errors` are the answers to the remappings, by segment. It fails exactly if one of those asked
        for does, with the answer to the first such, and then the pages before that segment are there. */
    method Mmap(segs: seq<Segment>, errors: seq<int>) returns (ret: int)
      requires Valid() && mapped == map[] && WholePages(segs) && |errors| == |segs|
      modifies this
      ensures ret == 0 ==>
                Shows(mapped, First(), Less((end - start) / PAGE_SIZE, Minus(|Pages(segs)|, pgoff)), Pages(segs), pgoff)
      ensures ret == 0 <==> Unfailing(segs, errors, |segs|)
      ensures ret != 0 ==> exists j :: FailsAt(segs, errors, j, ret)
    {
      ret := 0;
      var addr: nat, offset: nat, i: nat := start, pgoff * PAGE_SIZE, 0;
      while i < |segs| && addr < end
        invariant Filled(segs, i, addr, offset) && Unfailing(segs, errors, i) && ret == 0
      {
        SegmentAsked(segs, i, addr, offset);
        if offset >= segs[i].length {
          SegmentAt(segs, i);
          offset := offset - segs[i].length;
        } else {
          ret, addr := ShowSegment(segs, i, addr, offset, errors[i]);
          if ret != 0 {
            assert FailsAt(segs, errors, i, ret);
            return;
          }
          offset := 0;
        }
        i := i + 1;
      }
      WalkEnds(segs, errors, i, addr, offset);
    }

    lemma WalkEnds(segs: seq<Segment>, errors: seq<int>, i: nat, addr: nat, offset: nat)
      requires Valid() && WholePages(segs) && |errors| == |segs| && Stands(segs, i, addr, offset)
      requires (i == |segs| || addr == end) && Unfailing(segs, errors, i)
      ensures Unfailing(segs, errors, |segs|)
      ensures (addr - start) / PAGE_SIZE == Less((end - start) / PAGE_SIZE, Minus(|Pages(segs)|, pgoff))
    {
      PagesPrefix(segs, i);
      assert i == |segs| ==> segs[..i] == segs;
      if i < |segs| {
        forall j: nat | i <= j < |segs| ensures !Asked(segs, j) {
          NotAskedBeyond(segs, i, j);
        }
      }
    }

    /** Segment j is the first whose remapping is asked for and fails, and the area shows what comes before it. */
    ghost predicate FailsAt(segs: seq<Segment>, errors: seq<int>, j: nat, ret: int)
      reads this
    {
      && j < |errors| && Asked(segs, j) && errors[j] == ret && Unfailing(segs, errors, j)
      && Shows(mapped, First(), Minus(|Pages(segs[..j])|, pgoff), Pages(segs), pgoff)
    }

    // The rest of one segment, as far as the area goes.
    method ShowSegment(segs: seq<Segment>, i: nat, addr: nat, offset: nat, error: int) returns (ret: int, next: nat)
      requires Valid() && WholePages(segs) && i < |segs| && Filled(segs, i, addr, offset) && addr < end
      requires offset < segs[i].length
      modifies this
      ensures ret == error && (ret != 0 ==> next == addr && mapped == old(mapped))
      ensures ret == 0 ==> Filled(segs, i + 1, next, 0)
    {
      var page := segs[i].page + offset / PAGE_SIZE;
      var len := Less(segs[i].length - offset, end - addr);
      NextSegment(segs, i, addr, offset, len);
      ret := Remap(addr, page, len, error);
      next := addr;
      if ret == 0 {
        MoreShown(old(mapped), First(), (addr - start) / PAGE_SIZE, page, len / PAGE_SIZE, Pages(segs), pgoff);
        next := addr + len;
      }
    }
  }

  function Range(first: nat, page: nat, n: nat): map<nat, nat> {
    map v | v in Span(first, n) :: page + (v - first)
  }

  function Span(first: nat, n: nat): set<nat> {
    set v: nat | v < first + n && Within(v, first, n)
  }

  predicate Within(v: nat, first: nat, n: nat) {
    first <= v < first + n
  }

  lemma MoreShown(mapped: map<nat, nat>, first: nat, n: nat, page: nat, more: nat, all: seq<nat>, off: nat)
    requires Shows(mapped, first, n, all, off) && off + n + more <= |all|
    requires forall j :: off + n <= j < off + n + more ==> all[j] == page + (j - (off + n))
    ensures Shows(mapped + Range(first + n, page, more), first, n + more, all, off)
  {
  }

  /** The kernel's own view of a buffer, made for the first user and dropped with the last. */
  class KernelView {
    var count: nat             // kmap_cnt
    var vaddr: Option<nat>

    ghost predicate Valid()
      reads this
    {
      vaddr.Some? <==> count > 0
    }

    constructor ()
      ensures Valid() && count == 0
    {
      count, vaddr := 0, None;
    }

    /** _msm_cvp_dma_kmap_get: `vmap` is the kernel's answer if the pages have to be mapped. */
    method Get(vmap: Option<nat>) returns (r: Option<nat>)
      requires Valid()
      modifies this
      ensures Valid() && r == (if old(count) > 0 then old(vaddr) else vmap)
      ensures count == old(count) + if r.Some? then 1 else 0
      ensures r.Some? ==> vaddr == r
    {
      count := count + 1;
      if count > 1 {
        return vaddr;
      }
      vaddr := vmap;
      if vaddr.None? {
        count := count - 1;
      }
      return vmap;
    }

    /** _msm_cvp_dma_kmap_put: also harmless when nobody uses the view. */
    method Put()
      requires Valid()
      modifies this
      ensures Valid() && count == Minus(old(count), 1) && (count > 0 ==> vaddr == old(vaddr))
    {
      if count > 0 {
        count := count - 1;
        if count > 0 {
          return;
        }
      }
      vaddr := None;
    }
  }
}
