/** The table of source buffers for warp-NCC frames: ids are given out on registration, and packets name buffers by
    id and offset. */
module WnccTable {
  import opened Lists
  import opened Packets

  const EINVAL: int := -22
  const ENOMEM: int := -12
  const MAX_BUFS: nat := 2400
  const ID_OFFSET: nat := 1

  type Iova = w: Word | w != 0 witness 1

  /** A slot of the table; free when its iova is zero. */
  datatype Entry = Entry(fd: int, iova: Word, size: Word)

  const FREE := Entry(0, 0, 0)

  /** A buffer on the list, with the id it was given. */
  datatype Buf = Buf(fd: int, size: Word, id: nat)

  /** What the kernel answers to a registration: the dma_buf, two records, the mapping, and the table if it has to be
      made. */
  datatype Mapping = Mapping(iova: Iova, size: Word)
  datatype Env = Env(dmaBuf: bool, records: bool, mapping: Option<Mapping>, table: bool)

  /** An address a packet asks to have filled in, and the two halves it is filled in as. */
  datatype Addr = Addr(bufferId: Word, offset: Word)
  datatype Meta = Meta(lsb: nat, msb: nat)

  function Join(m: Meta): nat {
    m.msb * 0x40_0000 + m.lsb
  }

  /** The low 22 bits and the 10 above them. */
  function Split(iova: Word): Meta {
    Meta(iova % 0x40_0000, iova / 0x40_0000 % 0x400)
  }

  lemma SplitJoins(iova: Word)
    ensures Join(Split(iova)) == iova && Split(iova).lsb < 0x40_0000 && Split(iova).msb < 0x400
  {
    assert iova / 0x40_0000 < 0x400;
  }

  predicate IdInRange(id: int) {
    ID_OFFSET <= id < MAX_BUFS + ID_OFFSET
  }

  /** An address names a registered buffer and an offset inside it. */
  predicate Named(entries: seq<Entry>, a: Addr) {
    |entries| == MAX_BUFS && IdInRange(a.bufferId) && entries[a.bufferId - ID_OFFSET].iova != 0 &&
    a.offset < entries[a.bufferId - ID_OFFSET].size
  }

  function AddressOf(entries: seq<Entry>, a: Addr): Word
    requires Named(entries, a)
  {
    (entries[a.bufferId - ID_OFFSET].iova + a.offset) % 0x1_0000_0000
  }

  /** An address is good exactly if a registered buffer has the id, and the offset is inside its mapping. */
  lemma NamedExactly(list: seq<Buf>, entries: seq<Entry>, a: Addr)
    requires Matched(list, entries)
    ensures Named(entries, a) <==>
            exists k :: 0 <= k < |list| && list[k].id == a.bufferId && IsPlaced(list[k], entries) &&
                        a.offset < entries[list[k].id - ID_OFFSET].size
  {
    if Named(entries, a) {
      var i := a.bufferId - ID_OFFSET;
      assert entries[i] != FREE && HasId(list, i + ID_OFFSET);
      var k :| 0 <= k < |list| && list[k].id == i + ID_OFFSET;
      assert IsPlaced(list[k], entries);
    }
  }

  // The list and the table, as values.

  /** Every buffer on the list has an occupied slot, the one of its id, with its fd. */
  ghost predicate Placed(list: seq<Buf>, entries: seq<Entry>) {
    && |entries| == MAX_BUFS
    && forall k :: 0 <= k < |list| ==> IsPlaced(list[k], entries)
  }

  predicate IsPlaced(b: Buf, entries: seq<Entry>) {
    && |entries| == MAX_BUFS && IdInRange(b.id)
    && entries[b.id - ID_OFFSET].iova != 0 && entries[b.id - ID_OFFSET].fd == b.fd
  }

  ghost predicate DistinctFds(list: seq<Buf>) {
    forall j, k :: 0 <= j < k < |list| ==> list[j].fd != list[k].fd
  }

  ghost predicate HasId(list: seq<Buf>, id: nat) {
    exists k :: 0 <= k < |list| && list[k].id == id
  }

  /** Ids go one to one between the list and the occupied slots, and no two buffers have the same fd. */
  ghost predicate Matched(list: seq<Buf>, entries: seq<Entry>) {
    && Placed(list, entries)
    && DistinctFds(list)
    && (forall i: nat :: i < MAX_BUFS && entries[i] != FREE ==> entries[i].iova != 0 && HasId(list, i + ID_OFFSET))
  }

  ghost function Occupied(entries: seq<Entry>): set<nat>
    requires |entries| == MAX_BUFS
  {
    set i: nat | i < MAX_BUFS && entries[i].iova != 0 :: i + ID_OFFSET
  }

  lemma OccupiedExactly(entries: seq<Entry>, id: nat)
    requires |entries| == MAX_BUFS
    ensures id in Occupied(entries) <==> IdInRange(id) && entries[id - ID_OFFSET].iova != 0
  {
    if IdInRange(id) && entries[id - ID_OFFSET].iova != 0 {
      assert id == (id - ID_OFFSET) + ID_OFFSET;
    }
  }

  function IdsOf(list: seq<Buf>): set<nat> {
    if list == [] then {} else IdsOf(list[..|list| - 1]) + {list[|list| - 1].id}
  }

  lemma {:induction false} IdsExactly(list: seq<Buf>, id: nat)
    ensures id in IdsOf(list) <==> HasId(list, id)
  {
    if list != [] {
      var n := |list| - 1;
      IdsExactly(list[..n], id);
      if HasId(list[..n], id) {
        var k :| 0 <= k < n && list[..n][k].id == id;
        assert list[k].id == id;
      }
      if HasId(list, id) {
        var k :| 0 <= k < |list| && list[k].id == id;
        assert k < n ==> list[..n][k].id == id;
      }
    }
  }

  lemma {:induction false} DistinctIds(list: seq<Buf>, entries: seq<Entry>)
    requires Placed(list, entries) && DistinctFds(list)
    ensures |IdsOf(list)| == |list|
  {
    if list != [] {
      var n := |list| - 1;
      DistinctIds(list[..n], entries);
      IdsExactly(list[..n], list[n].id);
      forall k | 0 <= k < n ensures list[..n][k].id != list[n].id {
        assert IsPlaced(list[k], entries) && IsPlaced(list[n], entries);
      }
    }
  }

  /** There are as many occupied slots as buffers on the list, and their ids are the buffers'. */
  lemma OccupiedCount(list: seq<Buf>, entries: seq<Entry>)
    requires Matched(list, entries)
    ensures Occupied(entries) == IdsOf(list) && |Occupied(entries)| == |list|
  {
    forall id: nat ensures id in Occupied(entries) <==> id in IdsOf(list) {
      IdsExactly(list, id);
      OccupiedExactly(entries, id);
      if id in Occupied(entries) {
        assert HasId(list, (id - ID_OFFSET) + ID_OFFSET);
      }
      if HasId(list, id) {
        var k :| 0 <= k < |list| && list[k].id == id;
        assert IsPlaced(list[k], entries);
      }
    }
    DistinctIds(list, entries);
  }

  lemma MoreIds(list: seq<Buf>, b: Buf, id: nat)
    ensures HasId(list + [b], id) <==> HasId(list, id) || b.id == id
  {
    var more := list + [b];
    if HasId(list, id) {
      var k :| 0 <= k < |list| && list[k].id == id;
      assert more[k].id == id;
    }
    assert more[|list|].id == b.id;
  }

  lemma Registered(list: seq<Buf>, entries: seq<Entry>, b: Buf, e: Entry)
    requires Matched(list, entries) && IdInRange(b.id) && entries[b.id - ID_OFFSET].iova == 0
    requires e.iova != 0 && e.fd == b.fd && forall k :: 0 <= k < |list| ==> list[k].fd != b.fd
    ensures Matched(list + [b], entries[b.id - ID_OFFSET := e])
  {
    var more, after := list + [b], entries[b.id - ID_OFFSET := e];
    forall k | 0 <= k < |more| ensures IsPlaced(more[k], after) {
      assert k < |list| ==> IsPlaced(list[k], entries);
    }
    forall i: nat | i < MAX_BUFS && after[i].iova != 0 ensures HasId(more, i + ID_OFFSET) {
      MoreIds(list, b, i + ID_OFFSET);
    }
  }

  lemma Unregistered(list: seq<Buf>, entries: seq<Entry>, n: nat)
    requires Matched(list, entries) && n < |list|
    ensures IdInRange(list[n].id) && Matched(Without(list, n), entries[list[n].id - ID_OFFSET := FREE])
  {
    assert IsPlaced(list[n], entries);
    var rest, after := Without(list, n), entries[list[n].id - ID_OFFSET := FREE];
    forall k | 0 <= k < |rest| ensures rest[k] == list[if k < n then k else k + 1] && IsPlaced(rest[k], after) {
      var j := if k < n then k else k + 1;
      assert IsPlaced(list[j], entries) && list[j].fd != list[n].fd;
    }
    forall i: nat | i < MAX_BUFS && after[i].iova != 0 ensures HasId(rest, i + ID_OFFSET) {
      assert HasId(list, i + ID_OFFSET);
      var k :| 0 <= k < |list| && list[k].id == i + ID_OFFSET;
      assert rest[if k < n then k else k - 1].id == i + ID_OFFSET;
    }
  }

  /** The buffer an occupied slot belongs to is the one on the list with the slot's fd. */
  lemma OwnerByFd(list: seq<Buf>, entries: seq<Entry>, i: nat)
    requires Matched(list, entries) && i < MAX_BUFS && entries[i].iova != 0
    ensures exists n :: 0 <= n < |list| && list[n].fd == entries[i].fd
    ensures forall n :: 0 <= n < |list| && list[n].fd == entries[i].fd ==> list[n].id == i + ID_OFFSET
  {
    assert HasId(list, i + ID_OFFSET);
    var k :| 0 <= k < |list| && list[k].id == i + ID_OFFSET;
    assert IsPlaced(list[k], entries);
  }

  function UpTo(n: nat): set<nat> {
    if n == 0 then {} else UpTo(n - 1) + {n}
  }

  lemma {:induction false} UpToExactly(n: nat)
    ensures |UpTo(n)| == n && forall id: nat :: id in UpTo(n) <==> 1 <= id <= n
  {
    if n > 0 {
      UpToExactly(n - 1);
    }
  }

  lemma {:induction false} Subset(a: set<nat>, b: set<nat>)
    requires a <= b
    ensures |a| <= |b|
  {
    if a != {} {
      var x :| x in a;
      Subset(a - {x}, b - {x});
    }
  }

  lemma AllIn(occupied: set<nat>, n: nat)
    requires forall id: nat :: id in occupied <==> 1 <= id <= n
    ensures |occupied| == n
  {
    UpToExactly(n);
    assert occupied == UpTo(n);
  }

  lemma NotAllIn(occupied: set<nat>, n: nat, x: nat)
    requires (forall id: nat :: id in occupied ==> 1 <= id <= n) && 1 <= x <= n && x !in occupied
    ensures |occupied| < n
  {
    UpToExactly(n);
    Subset(occupied, UpTo(n) - {x});
  }

  /** A search finds no free slot exactly when as many are occupied as there are. */
  lemma FullTable(es: seq<Entry>, i: nat)
    requires |es| == MAX_BUFS && i <= MAX_BUFS && (i < MAX_BUFS ==> es[i].iova == 0)
    requires forall j :: 0 <= j < i ==> es[j].iova != 0
    ensures if i < MAX_BUFS then |Occupied(es)| < MAX_BUFS else |Occupied(es)| == MAX_BUFS
  {
    forall id: nat ensures id in Occupied(es) <==> IdInRange(id) && es[id - ID_OFFSET].iova != 0 {
      OccupiedExactly(es, id);
    }
    if i == MAX_BUFS {
      AllIn(Occupied(es), MAX_BUFS);
    } else {
      NotAllIn(Occupied(es), MAX_BUFS, i + ID_OFFSET);
    }
  }

  class Table {
    var list: seq<Buf>            // cvpwnccbufs
    var num: nat                  // cvpwnccbufs_num
    var slots: array?<Entry>      // cvpwnccbufs_table, there only while a buffer is registered

    ghost function Entries(): (es: seq<Entry>)
      reads this, slots
    {
      if slots == null then seq(MAX_BUFS, i => FREE) else slots[..]
    }

    ghost predicate Valid()
      reads this, slots
    {
      && num == |list| && (slots == null <==> num == 0)
      && (slots != null ==> slots.Length == MAX_BUFS)
      && Matched(list, Entries())
    }

    constructor ()
      ensures Valid() && list == [] && Entries() == seq(MAX_BUFS, i => FREE)
    {
      list, num, slots := [], 0, null;
    }

    ghost predicate Listed(fd: int)
      reads this
    {
      exists k :: 0 <= k < |list| && list[k].fd == fd
    }

    // The walk of the list for an fd; |list| if there is none.
    method Find(fd: int) returns (n: nat)
      ensures n <= |list| && (n < |list| ==> list[n].fd == fd)
      ensures n == |list| <==> !Listed(fd)
    {
      n := 0;
      while n < |list| && list[n].fd != fd
        invariant n <= |list| && forall k :: 0 <= k < n ==> list[k].fd != fd
      {
        n := n + 1;
      }
    }

    // The first free slot; MAX_BUFS if there is none.
    method FindFree() returns (i: nat)
      requires slots != null && slots.Length == MAX_BUFS
      ensures i <= MAX_BUFS && (i < MAX_BUFS ==> slots[i].iova == 0)
      ensures forall j :: 0 <= j < i ==> slots[j].iova != 0
    {
      i := 0;
      while i < MAX_BUFS && slots[i].iova != 0
        invariant i <= MAX_BUFS && forall j :: 0 <= j < i ==> slots[j].iova != 0
      {
        i := i + 1;
      }
    }

    predicate MayMap(fd: int, index: Word, offset: Word, env: Env) {
      index == 0 && fd >= 0 && offset == 0 && env.dmaBuf && env.records && env.mapping.Some?
    }

    /** msm_cvp_map_buf_wncc. A buffer that is taken in gets the least free id; otherwise the id is 0 and nothing has
        changed. With the table full, or no memory for it, the result is 0 all the same. */
    method Register(fd: int, size: Word, index: Word, offset: Word, env: Env) returns (rc: int, id: nat)
      requires Valid()
      modifies this, slots
      ensures Valid()
      ensures id != 0 <==> MayMap(fd, index, offset, env) && !old(Listed(fd)) && old(num) < MAX_BUFS &&
                           (old(slots) == null ==> env.table)
      ensures id != 0 ==>
                && rc == 0 && IdInRange(id) && list == old(list) + [Buf(fd, size, id)]
                && old(Entries())[id - ID_OFFSET].iova == 0
                && (forall j :: 0 <= j < id - ID_OFFSET ==> old(Entries())[j].iova != 0)
                && var m := env.mapping.value;
                   Entries() == old(Entries())[id - ID_OFFSET := Entry(fd, m.iova, m.size)]
      ensures id == 0 ==> list == old(list) && num == old(num) && slots == old(slots) && Entries() == old(Entries())
      ensures rc == 0 <==> MayMap(fd, index, offset, env) && !old(Listed(fd))
    {
      if index != 0 || fd < 0 || offset != 0 {
        return EINVAL, 0;
      }
      var n := Find(fd);
      if n < |list| || !env.dmaBuf {
        return EINVAL, 0;
      }
      if !env.records {
        return ENOMEM, 0;
      }
      if env.mapping.None? {
        return EINVAL, 0;
      }
      id := Place(fd, size, env.mapping.value, env.table);
      return 0, id;
    }

    // Gives a mapped buffer a slot, if there is one.
    method Place(fd: int, size: Word, mapping: Mapping, memory: bool) returns (id: nat)
      requires Valid() && !Listed(fd)
      modifies this, slots
      ensures Valid()
      ensures id != 0 <==> old(num) < MAX_BUFS && (old(slots) == null ==> memory)
      ensures id != 0 ==>
                && IdInRange(id) && list == old(list) + [Buf(fd, size, id)]
                && old(Entries())[id - ID_OFFSET].iova == 0
                && (forall j :: 0 <= j < id - ID_OFFSET ==> old(Entries())[j].iova != 0)
                && Entries() == old(Entries())[id - ID_OFFSET := Entry(fd, mapping.iova, mapping.size)]
      ensures id == 0 ==> list == old(list) && num == old(num) && slots == old(slots) && Entries() == old(Entries())
    {
      if slots == null && !memory {
        return 0;
      }
      var i := FirstFree();
      if i == MAX_BUFS {
        return 0;
      }
      TakeSlot(i, Buf(fd, size, i + ID_OFFSET), Entry(fd, mapping.iova, mapping.size));
      return i + ID_OFFSET;
    }

    // The first free slot, of the table that is there or of a new one; there is one unless all are taken.
    method FirstFree() returns (i: nat)
      requires Valid()
      modifies `slots
      ensures slots != null && slots.Length == MAX_BUFS && Entries() == old(Entries())
      ensures slots == old(slots) || (old(slots) == null && fresh(slots))
      ensures i <= MAX_BUFS && (if i < MAX_BUFS then num < MAX_BUFS else num == MAX_BUFS && slots == old(slots))
      ensures i < MAX_BUFS ==> Entries()[i] == FREE && forall j :: 0 <= j < i ==> Entries()[j].iova != 0
    {
      ghost var es := Entries();
      OccupiedCount(list, es);
      if slots == null {
        slots := new Entry[MAX_BUFS](i => FREE);
        assert slots[..] == es && es[0] == FREE;
      }
      i := FindFree();
      FullTable(es, i);
    }

    method TakeSlot(i: nat, b: Buf, e: Entry)
      requires slots != null && slots.Length == MAX_BUFS && num == |list| && Matched(list, slots[..])
      requires i < MAX_BUFS && slots[i] == FREE && b.id == i + ID_OFFSET && e.iova != 0 && e.fd == b.fd && !Listed(b.fd)
      modifies `list, `num, slots
      ensures Valid() && list == old(list) + [b] && Entries() == old(slots[..])[i := e]
    {
      ghost var es := slots[..];
      Registered(list, es, b, e);
      list, num := list + [b], num + 1;
      slots[i] := e;
      assert slots[..] == es[i := e];
    }

    /** msm_cvp_unmap_buf_wncc: the buffer with this id goes, and its slot is free again. */
    method Unregister(index: Word, id: Word) returns (rc: int)
      requires Valid()
      modifies this, slots
      ensures Valid()
      ensures rc == 0 <==> index == 0 && IdInRange(id) && old(Entries())[id - ID_OFFSET].iova != 0
      ensures rc == 0 ==>
                && Entries() == old(Entries())[id - ID_OFFSET := FREE]
                && exists n :: 0 <= n < |old(list)| && old(list)[n].id == id && list == Without(old(list), n)
      ensures rc != 0 ==> rc == EINVAL && list == old(list) && slots == old(slots) && Entries() == old(Entries())
    {
      if index != 0 || !IdInRange(id) || num == 0 {
        return EINVAL;
      }
      var i := id - ID_OFFSET;
      if slots[i].iova == 0 {
        return EINVAL;
      }
      OwnerByFd(list, Entries(), i);
      var n := Find(slots[i].fd);
      Release(n, i);
      return 0;
    }

    // list_del of a buffer, and its slot freed; the table goes with the last one.
    method Release(n: nat, i: nat)
      requires Valid() && n < |list| && list[n].id == i + ID_OFFSET && i < MAX_BUFS && slots != null
      modifies this, slots
      ensures Valid() && list == Without(old(list), n) && Entries() == old(Entries())[i := FREE]
    {
      ghost var es := Entries();
      Unregistered(list, es, n);
      list := list[..n] + list[n + 1..];
      slots[i] := FREE;
      num := num - 1;
      assert slots[..] == es[i := FREE];
      if num == 0 {
        NoneOccupied(list, slots[..]);
        slots := null;
      }
    }

    lemma NoneOccupied(list: seq<Buf>, es: seq<Entry>)
      requires Matched(list, es) && list == []
      ensures es == seq(MAX_BUFS, i => FREE)
    {
      forall j: nat | j < MAX_BUFS ensures es[j] == FREE {
        assert !HasId(list, j + ID_OFFSET);
      }
    }

    /** The inner loop of msm_cvp_proc_oob_wncc: the addresses of one layer, up to the first bad one. */
    method PatchLayer(addrs: seq<Addr>, meta: array<Meta>) returns (ok: bool)
      requires Valid() && slots != null && |addrs| <= meta.Length
      modifies meta
      ensures ok <==> forall j :: 0 <= j < |addrs| ==> Named(Entries(), addrs[j])
      ensures ok ==> Patched(Entries(), addrs, meta)
      ensures FilledIn(Entries(), addrs, old(meta[..]), meta[..])
    {
      for j := 0 to |addrs|
        invariant forall n :: j <= n < meta.Length ==> meta[n] == old(meta[n])
        invariant forall n :: 0 <= n < j ==> Named(Entries(), addrs[n])
        invariant forall n :: 0 <= n < j ==> meta[n] == Split(AddressOf(Entries(), addrs[n]))
      {
        var id := addrs[j].bufferId;
        if !IdInRange(id) {
          return false;
        }
        if slots[id - ID_OFFSET].iova == 0 || addrs[j].offset >= slots[id - ID_OFFSET].size {
          return false;
        }
        meta[j] := Split((slots[id - ID_OFFSET].iova + addrs[j].offset) % 0x1_0000_0000);
      }
      return true;
    }

    /** msm_cvp_proc_oob_wncc, once the metadata is mapped: `dmaOk` says of each layer whether its metadata buffer can
        still be had afterwards. A bad address ends its layer only, but the result stays an error. */
    method ProcOob(layers: seq<seq<Addr>>, metas: seq<array<Meta>>, dmaOk: seq<bool>) returns (rc: int)
      requires Valid() && |layers| == |metas| == |dmaOk|
      requires forall i :: 0 <= i < |layers| ==> |layers[i]| <= metas[i].Length
      requires forall i, k :: 0 <= i < k < |metas| ==> metas[i] != metas[k]
      modifies metas
      ensures rc == 0 <==> num != 0 && forall i :: 0 <= i < |layers| ==> dmaOk[i] && LayerNamed(Entries(), layers[i])
      ensures rc == 0 ==> forall i :: 0 <= i < |layers| ==> Patched(Entries(), layers[i], metas[i])
      ensures num != 0 ==> forall i :: 0 <= i < |layers| && Reached(dmaOk, i) && LayerNamed(Entries(), layers[i]) ==>
                             Patched(Entries(), layers[i], metas[i])
    {
      if num == 0 {
        return EINVAL;
      }
      rc := 0;
      for i := 0 to |layers|
        invariant rc == 0 <==> forall n :: 0 <= n < i ==> dmaOk[n] && LayerNamed(Entries(), layers[n])
        invariant LayersPatched(Entries(), layers, metas, i) && Reached(dmaOk, i)
      {
        var ok := PatchNext(layers, metas, i);
        if !ok {
          rc := EINVAL;
        }
        if !dmaOk[i] {
          return EINVAL;
        }
      }
    }

    // One layer more.
    method PatchNext(layers: seq<seq<Addr>>, metas: seq<array<Meta>>, i: nat) returns (ok: bool)
      requires Valid() && slots != null && i < |layers| == |metas| && |layers[i]| <= metas[i].Length
      requires forall j, k :: 0 <= j < k < |metas| ==> metas[j] != metas[k]
      requires LayersPatched(Entries(), layers, metas, i)
      modifies metas[i]
      ensures (ok <==> LayerNamed(Entries(), layers[i])) && LayersPatched(Entries(), layers, metas, i + 1)
    {
      ghost var es := Entries();
      ok := PatchWhole(layers[i], metas[i]);
      forall n | 0 <= n < i && LayerNamed(es, layers[n]) ensures Patched(es, layers[n], metas[n]) {
        assert metas[n] != metas[i];
      }
    }

    method PatchWhole(addrs: seq<Addr>, meta: array<Meta>) returns (ok: bool)
      requires Valid() && slots != null && |addrs| <= meta.Length
      modifies meta
      ensures ok <==> LayerNamed(Entries(), addrs)
      ensures ok ==> Patched(Entries(), addrs, meta)
    {
      ok := PatchLayer(addrs, meta);
    }
  }

  /** Of the first n layers, each whose addresses are all good has been filled in. */
  ghost predicate LayersPatched(entries: seq<Entry>, layers: seq<seq<Addr>>, metas: seq<array<Meta>>, n: nat)
    reads metas
  {
    && n <= |layers| == |metas|
    && forall i :: 0 <= i < n && LayerNamed(entries, layers[i]) ==> Patched(entries, layers[i], metas[i])
  }

  /** Exactly the addresses before the first bad one have been filled in. */
  ghost predicate FilledIn(entries: seq<Entry>, addrs: seq<Addr>, before: seq<Meta>, after: seq<Meta>) {
    && |after| == |before|
    && forall j :: 0 <= j < |after| ==>
         after[j] == if j < |addrs| && AllNamed(entries, addrs, j + 1) then Split(AddressOf(entries, addrs[j]))
                     else before[j]
  }

  /** The first n addresses are good. */
  ghost predicate AllNamed(entries: seq<Entry>, addrs: seq<Addr>, n: nat) {
    n <= |addrs| && forall j :: 0 <= j < n ==> Named(entries, addrs[j])
  }

  /** The loop over the layers gets to layer i: the metadata of those before it could be had. */
  predicate Reached(dmaOk: seq<bool>, i: nat) {
    i <= |dmaOk| && forall k :: 0 <= k < i ==> dmaOk[k]
  }

  ghost predicate LayerNamed(entries: seq<Entry>, addrs: seq<Addr>) {
    forall j :: 0 <= j < |addrs| ==> Named(entries, addrs[j])
  }

  /** Every address has been filled in, and the halves join to the buffer's base plus the offset. */
  ghost predicate Patched(entries: seq<Entry>, addrs: seq<Addr>, meta: array<Meta>)
    reads meta
  {
    && |addrs| <= meta.Length
    && forall j :: 0 <= j < |addrs| ==> Named(entries, addrs[j]) && meta[j] == Split(AddressOf(entries, addrs[j]))
  }

  /** What the hardware reads back for a patched address: the base of the buffer it names plus an offset inside the
      buffer, if the buffer lies in the 32-bit address space. */
  lemma PatchedAddress(entries: seq<Entry>, addrs: seq<Addr>, meta: array<Meta>, j: nat)
    requires Patched(entries, addrs, meta) && j < |addrs|
    ensures var e := entries[addrs[j].bufferId - ID_OFFSET];
            && e.iova != 0 && addrs[j].offset < e.size
            && (e.iova + e.size <= 0x1_0000_0000 ==> Join(meta[j]) == e.iova + addrs[j].offset)
  {
    assert Named(entries, addrs[j]);
    SplitJoins(AddressOf(entries, addrs[j]));
  }
}
