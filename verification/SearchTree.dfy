/** The search tree behind the mapping cache, keyed by dma_buf address. Colours are left out: what
    red-black rebalancing does to the shape is an arbitrary run of rotations. */
module SearchTree {
  import opened Lists
  import opened Packets

  datatype Entry = Entry(key: nat, id: nat)

  datatype Tree = Leaf | Node(left: Tree, entry: Entry, right: Tree)

  /** The entries from left to right: what a walk by rb_first and rb_next visits. */
  function InOrder(t: Tree): seq<Entry> {
    match t
    case Leaf => []
    case Node(l, e, r) => InOrder(l) + [e] + InOrder(r)
  }

  ghost predicate Sorted(es: seq<Entry>) {
    forall i, j :: 0 <= i < j < |es| ==> es[i].key < es[j].key
  }

  ghost predicate Ordered(t: Tree) {
    Sorted(InOrder(t))
  }

  ghost predicate AllBelow(es: seq<Entry>, key: nat) {
    forall i :: 0 <= i < |es| ==> es[i].key < key
  }

  ghost predicate AllAbove(es: seq<Entry>, key: nat) {
    forall i :: 0 <= i < |es| ==> key < es[i].key
  }

  ghost predicate Absent(es: seq<Entry>, key: nat) {
    forall i :: 0 <= i < |es| ==> es[i].key != key
  }

  // The search-tree order as usually stated: smaller keys to the left, greater to the right, all the way down.
  lemma OrderedParts(t: Tree)
    requires t.Node?
    ensures Ordered(t) <==>
              && Ordered(t.left) && Ordered(t.right)
              && AllBelow(InOrder(t.left), t.entry.key) && AllAbove(InOrder(t.right), t.entry.key)
  {
    var l, r := InOrder(t.left), InOrder(t.right);
    if Ordered(t) {
      SortedApart(l, t.entry, r);
    } else if Ordered(t.left) && Ordered(t.right) && AllBelow(l, t.entry.key) && AllAbove(r, t.entry.key) {
      SortedTogether(l, t.entry, r);
    }
  }

  lemma SortedApart(l: seq<Entry>, e: Entry, r: seq<Entry>)
    requires Sorted(l + [e] + r)
    ensures Sorted(l) && Sorted(r) && AllBelow(l, e.key) && AllAbove(r, e.key)
  {
    var all := l + [e] + r;
    assert all[|l|] == e;
    assert forall i :: 0 <= i < |l| ==> l[i] == all[i];
    assert forall i :: 0 <= i < |r| ==> r[i] == all[|l| + 1 + i];
  }

  lemma SortedTogether(l: seq<Entry>, e: Entry, r: seq<Entry>)
    requires Sorted(l) && Sorted(r) && AllBelow(l, e.key) && AllAbove(r, e.key)
    ensures Sorted(l + [e] + r)
  {
    var all := l + [e] + r;
    forall i, j | 0 <= i < j < |all| ensures all[i].key < all[j].key {
      assert all[i] == if i < |l| then l[i] else if i == |l| then e else r[i - |l| - 1];
      assert all[j] == if j < |l| then l[j] else if j == |l| then e else r[j - |l| - 1];
    }
  }

  /** What a search by comparisons from the root finds. */
  function Lookup(t: Tree, key: nat): Option<nat> {
    match t
    case Leaf => None
    case Node(l, e, r) =>
      if key < e.key then Lookup(l, key) else if key > e.key then Lookup(r, key) else Some(e.id)
  }

  /** In a search tree that is the one entry with the key, if there is one. */
  lemma {:induction false} LookupInOrder(t: Tree, key: nat)
    requires Ordered(t)
    ensures Lookup(t, key) == None <==> Absent(InOrder(t), key)
    ensures forall id: nat :: Lookup(t, key) == Some(id) <==> Entry(key, id) in InOrder(t)
  {
    if t.Node? {
      OrderedParts(t);
      LookupInOrder(t.left, key);
      LookupInOrder(t.right, key);
      var ls, rs := InOrder(t.left), InOrder(t.right);
      assert forall e :: e in InOrder(t) <==> e in ls || e == t.entry || e in rs;
    }
  }

  /** find_smem_rb_node: one comparison a level, down from the root. */
  method Find(t: Tree, key: nat) returns (r: Option<nat>)
    ensures r == Lookup(t, key)
  {
    var node := t;
    while node.Node?
      invariant Lookup(t, key) == Lookup(node, key)
      decreases node
    {
      if key < node.entry.key {
        node := node.left;
      } else if key > node.entry.key {
        node := node.right;
      } else {
        return Some(node.entry.id);
      }
    }
    return None;
  }

  /** rb_link_node below the last node of the descent: left when smaller, right otherwise. */
  function Link(t: Tree, e: Entry): Tree {
    match t
    case Leaf => Node(Leaf, e, Leaf)
    case Node(l, f, r) => if e.key < f.key then Node(Link(l, e), f, r) else Node(l, f, Link(r, e))
  }

  /** Where a new entry goes in a sorted run: before the first greater key. */
  function Insert(es: seq<Entry>, e: Entry): seq<Entry> {
    if es == [] || e.key < es[0].key then [e] + es else [es[0]] + Insert(es[1..], e)
  }

  lemma {:induction false} InsertLeft(a: seq<Entry>, b: seq<Entry>, e: Entry)
    requires b != [] && e.key < b[0].key
    ensures Insert(a + b, e) == Insert(a, e) + b
  {
    if a == [] {
      assert a + b == b;
    } else {
      assert (a + b)[1..] == a[1..] + b;
      InsertLeft(a[1..], b, e);
    }
  }

  lemma {:induction false} InsertRight(a: seq<Entry>, b: seq<Entry>, e: Entry)
    requires forall i :: 0 <= i < |a| ==> a[i].key <= e.key
    ensures Insert(a + b, e) == a + Insert(b, e)
  {
    if a == [] {
      assert a + b == b;
    } else {
      assert (a + b)[1..] == a[1..] + b;
      InsertRight(a[1..], b, e);
    }
  }

  /** A linked entry lands between the smaller and the greater keys, and moves no other entry. */
  lemma {:induction false} LinkInOrder(t: Tree, e: Entry)
    requires Ordered(t)
    ensures InOrder(Link(t, e)) == Insert(InOrder(t), e)
  {
    match t {
      case Leaf =>
      case Node(l, f, r) =>
        OrderedParts(t);
        LinkInOrder(l, e);
        LinkInOrder(r, e);
        LinkNode(InOrder(l), f, InOrder(r), e);
    }
  }

  lemma LinkNode(ls: seq<Entry>, f: Entry, rs: seq<Entry>, e: Entry)
    requires AllBelow(ls, f.key)
    ensures Insert(ls + [f] + rs, e) ==
            if e.key < f.key then Insert(ls, e) + [f] + rs else ls + [f] + Insert(rs, e)
  {
    if e.key < f.key {
      assert ls + [f] + rs == ls + ([f] + rs);
      InsertLeft(ls, [f] + rs, e);
      assert Insert(ls, e) + ([f] + rs) == Insert(ls, e) + [f] + rs;
    } else {
      InsertRight(ls + [f], rs, e);
    }
  }

  lemma {:induction false} InsertContents(es: seq<Entry>, e: Entry)
    ensures multiset(Insert(es, e)) == multiset(es) + multiset{e}
  {
    if es != [] && es[0].key <= e.key {
      assert es == [es[0]] + es[1..];
      InsertContents(es[1..], e);
    }
  }

  lemma {:induction false} InsertAbove(es: seq<Entry>, e: Entry, key: nat)
    requires AllAbove(es, key) && key < e.key
    ensures AllAbove(Insert(es, e), key)
  {
    if es != [] {
      InsertAbove(es[1..], e, key);
    }
  }

  lemma {:induction false} InsertKeepsOrder(es: seq<Entry>, e: Entry)
    requires Sorted(es) && Absent(es, e.key)
    ensures Sorted(Insert(es, e))
  {
    if es != [] && es[0].key < e.key {
      InsertKeepsOrder(es[1..], e);
      InsertAbove(es[1..], e, es[0].key);
    }
  }

  datatype Direction = ToLeft | ToRight

  /** A rotation at the node a path leads to. */
  datatype Rotation = Rotation(path: seq<Direction>, turn: Direction)

  function RotateAt(t: Tree, turn: Direction): Tree {
    match (turn, t)
    case (ToRight, Node(Node(a, x, b), y, c)) => Node(a, x, Node(b, y, c))
    case (ToLeft, Node(a, x, Node(b, y, c))) => Node(Node(a, x, b), y, c)
    case _ => t
  }

  function Rotate(t: Tree, path: seq<Direction>, turn: Direction): Tree
    decreases |path|
  {
    if path == [] || t.Leaf? then RotateAt(t, turn)
    else if path[0] == ToLeft then t.(left := Rotate(t.left, path[1..], turn))
    else t.(right := Rotate(t.right, path[1..], turn))
  }

  function Rebalance(t: Tree, moves: seq<Rotation>): Tree
    decreases |moves|
  {
    if moves == [] then t else Rebalance(Rotate(t, moves[0].path, moves[0].turn), moves[1..])
  }

  lemma {:induction false} RotateInOrder(t: Tree, path: seq<Direction>, turn: Direction)
    ensures InOrder(Rotate(t, path, turn)) == InOrder(t)
    decreases |path|
  {
    if path == [] || t.Leaf? {
    } else if path[0] == ToLeft {
      RotateInOrder(t.left, path[1..], turn);
    } else {
      RotateInOrder(t.right, path[1..], turn);
    }
  }

  /** No run of rotations changes what the tree holds or the order it is walked in. */
  lemma {:induction false} RebalanceInOrder(t: Tree, moves: seq<Rotation>)
    ensures InOrder(Rebalance(t, moves)) == InOrder(t)
    decreases |moves|
  {
    if moves != [] {
      RotateInOrder(t, moves[0].path, moves[0].turn);
      RebalanceInOrder(Rotate(t, moves[0].path, moves[0].turn), moves[1..]);
    }
  }

  /** rb_first. */
  function First(t: Tree): (r: Option<Entry>)
    ensures r.None? <==> t.Leaf?
  {
    match t
    case Leaf => None
    case Node(l, e, _) => if l.Leaf? then Some(e) else First(l)
  }

  /** rb_next: the entry a walk visits after the one with this key. */
  function Next(t: Tree, key: nat): Option<Entry> {
    match t
    case Leaf => None
    case Node(l, e, r) =>
      if e.key <= key then Next(r, key)
      else if Next(l, key).Some? then Next(l, key) else Some(e)
  }

  lemma {:induction false} FirstInOrder(t: Tree)
    ensures First(t) == if t.Leaf? then None else Some(InOrder(t)[0])
    ensures t.Leaf? <==> InOrder(t) == []
  {
    if t.Node? && t.left.Node? {
      FirstInOrder(t.left);
    }
  }

  lemma {:induction false} NextInOrder(t: Tree, i: nat)
    requires Ordered(t) && i < |InOrder(t)|
    ensures Next(t, InOrder(t)[i].key) == if i + 1 < |InOrder(t)| then Some(InOrder(t)[i + 1]) else None
  {
    NextIsLeast(t, InOrder(t)[i].key);
  }

  lemma {:induction false} NextIsLeast(t: Tree, key: nat)
    requires Ordered(t)
    ensures Next(t, key).None? ==> forall e <- InOrder(t) :: e.key <= key
    ensures Next(t, key).Some? ==>
              && Next(t, key).value in InOrder(t) && Next(t, key).value.key > key
              && forall e <- InOrder(t) :: e.key > key ==> Next(t, key).value.key <= e.key
  {
    if t.Node? {
      OrderedParts(t);
      NextIsLeast(t.left, key);
      NextIsLeast(t.right, key);
    }
  }

  /** rb_erase, up to rebalancing: a node with two children is replaced by its successor. */
  function Erase(t: Tree, key: nat): Tree {
    match t
    case Leaf => Leaf
    case Node(l, e, r) =>
      if key < e.key then Node(Erase(l, key), e, r)
      else if key > e.key then Node(l, e, Erase(r, key))
      else Join(l, r)
  }

  function Join(l: Tree, r: Tree): Tree {
    if l.Leaf? then r else if r.Leaf? then l else Node(l, First(r).value, EraseFirst(r))
  }

  function EraseFirst(t: Tree): Tree {
    match t
    case Leaf => Leaf
    case Node(l, e, r) => if l.Leaf? then r else Node(EraseFirst(l), e, r)
  }

  lemma {:induction false} EraseFirstInOrder(t: Tree)
    requires t.Node?
    ensures InOrder(t) == [First(t).value] + InOrder(EraseFirst(t))
  {
    if t.left.Node? {
      EraseFirstInOrder(t.left);
    }
  }

  lemma JoinInOrder(l: Tree, r: Tree)
    ensures InOrder(Join(l, r)) == InOrder(l) + InOrder(r)
  {
    if l.Node? && r.Node? {
      EraseFirstInOrder(r);
    }
  }

  lemma WithoutNode(ls: seq<Entry>, f: Entry, rs: seq<Entry>, i: nat)
    requires i <= |ls| + |rs|
    ensures Without(ls + [f] + rs, i) ==
            if i < |ls| then Without(ls, i) + [f] + rs
            else if i == |ls| then ls + rs
            else ls + [f] + Without(rs, i - |ls| - 1)
  {
  }

  lemma KeyAt(ls: seq<Entry>, f: Entry, rs: seq<Entry>, i: nat)
    requires i <= |ls| + |rs| && AllBelow(ls, f.key) && AllAbove(rs, f.key)
    ensures var key := (ls + [f] + rs)[i].key;
            if i < |ls| then key == ls[i].key < f.key
            else if i == |ls| then key == f.key
            else key == rs[i - |ls| - 1].key > f.key
  {
  }

  /** Erasing the i-th entry leaves every other one, in the same order. */
  lemma {:induction false} EraseInOrder(t: Tree, i: nat)
    requires Ordered(t) && i < |InOrder(t)|
    ensures InOrder(Erase(t, InOrder(t)[i].key)) == Without(InOrder(t), i)
    decreases t
  {
    OrderedParts(t);
    var ls, rs := InOrder(t.left), InOrder(t.right);
    WithoutNode(ls, t.entry, rs, i);
    KeyAt(ls, t.entry, rs, i);
    if i < |ls| {
      EraseInOrder(t.left, i);
    } else if i == |ls| {
      JoinInOrder(t.left, t.right);
    } else {
      EraseInOrder(t.right, i - |ls| - 1);
    }
  }

  /** Insertions of absent keys and removals, each followed by whatever rebalancing does. */
  datatype TreeOp = Add(entry: Entry, moves: seq<Rotation>) | Remove(key: nat, moves: seq<Rotation>)

  function Apply(t: Tree, op: TreeOp): Tree {
    match op
    case Add(e, moves) => if Lookup(t, e.key) == None then Rebalance(Link(t, e), moves) else t
    case Remove(key, moves) => if Lookup(t, key) == None then t else Rebalance(Erase(t, key), moves)
  }

  function Replay(t: Tree, ops: seq<TreeOp>): Tree {
    if ops == [] then t else Apply(Replay(t, ops[..|ops| - 1]), ops[|ops| - 1])
  }

  function ReplayMap(ops: seq<TreeOp>): map<nat, nat> {
    if ops == [] then map[]
    else
      var m := ReplayMap(ops[..|ops| - 1]);
      match ops[|ops| - 1]
      case Add(e, _) => if e.key in m then m else m[e.key := e.id]
      case Remove(key, _) => m - {key}
  }

  ghost predicate Agrees(t: Tree, m: map<nat, nat>) {
    Ordered(t) && forall key: nat :: Lookup(t, key) == if key in m then Some(m[key]) else None
  }

  /** What linking a new key and rebalancing do to the walk. */
  lemma AddInOrder(t: Tree, e: Entry, moves: seq<Rotation>)
    requires Ordered(t) && Absent(InOrder(t), e.key)
    ensures var u := Rebalance(Link(t, e), moves);
            && Ordered(u) && InOrder(u) == Insert(InOrder(t), e)
            && multiset(InOrder(u)) == multiset(InOrder(t)) + multiset{e}
  {
    RebalanceInOrder(Link(t, e), moves);
    LinkInOrder(t, e);
    InsertKeepsOrder(InOrder(t), e);
    InsertContents(InOrder(t), e);
  }

  lemma MemberAfterAdd(es: seq<Entry>, fs: seq<Entry>, e: Entry, f: Entry)
    requires multiset(fs) == multiset(es) + multiset{e}
    ensures f in fs <==> f in es || f == e
  {
    assert f in fs <==> f in multiset(fs);
    assert f in es <==> f in multiset(es);
  }

  // A search after one entry is added finds it, and finds everything else as before.
  lemma AddLookup(t: Tree, u: Tree, e: Entry, key: nat)
    requires Ordered(t) && Ordered(u) && Lookup(t, e.key) == None
    requires multiset(InOrder(u)) == multiset(InOrder(t)) + multiset{e}
    ensures Lookup(u, key) == if key == e.key then Some(e.id) else Lookup(t, key)
  {
    LookupInOrder(t, e.key);
    LookupInOrder(t, key);
    LookupInOrder(u, key);
    forall id: nat {
      MemberAfterAdd(InOrder(t), InOrder(u), e, Entry(key, id));
    }
    if Lookup(u, key).Some? {
      assert Entry(key, Lookup(u, key).value) in InOrder(u);
    }
    assert Lookup(t, key).Some? ==> Entry(key, Lookup(t, key).value) in InOrder(u);
  }

  lemma AddAgrees(t: Tree, m: map<nat, nat>, e: Entry, moves: seq<Rotation>)
    requires Agrees(t, m) && e.key !in m
    ensures Agrees(Rebalance(Link(t, e), moves), m[e.key := e.id])
  {
    LookupInOrder(t, e.key);
    AddInOrder(t, e, moves);
    AddLookups(t, Rebalance(Link(t, e), moves), m, e);
  }

  lemma AddLookups(t: Tree, u: Tree, m: map<nat, nat>, e: Entry)
    requires Agrees(t, m) && e.key !in m && Ordered(u)
    requires multiset(InOrder(u)) == multiset(InOrder(t)) + multiset{e}
    ensures Agrees(u, m[e.key := e.id])
  {
    forall key: nat ensures Lookup(u, key) == if key == e.key then Some(e.id) else Lookup(t, key) {
      AddLookup(t, u, e, key);
    }
  }

  lemma RemoveInOrder(t: Tree, key: nat, moves: seq<Rotation>) returns (i: nat)
    requires Ordered(t) && Lookup(t, key) != None
    ensures i < |InOrder(t)| && InOrder(t)[i].key == key
    ensures var u := Rebalance(Erase(t, key), moves); Ordered(u) && InOrder(u) == Without(InOrder(t), i)
  {
    LookupInOrder(t, key);
    i :| 0 <= i < |InOrder(t)| && InOrder(t)[i].key == key;
    RebalanceInOrder(Erase(t, key), moves);
    EraseInOrder(t, i);
  }

  lemma RemoveAgrees(t: Tree, m: map<nat, nat>, key: nat, moves: seq<Rotation>)
    requires Agrees(t, m) && key in m
    ensures Agrees(Rebalance(Erase(t, key), moves), m - {key})
  {
    var u := Rebalance(Erase(t, key), moves);
    var i := RemoveInOrder(t, key, moves);
    forall k: nat ensures Lookup(u, k) == if k == key then None else Lookup(t, k) {
      LookupInOrder(t, k);
      LookupInOrder(u, k);
      WithoutEntries(InOrder(t), i, k);
    }
  }

  lemma WithoutEntries(es: seq<Entry>, i: nat, k: nat)
    requires Sorted(es) && i < |es|
    ensures forall id: nat :: Entry(k, id) in Without(es, i) <==> Entry(k, id) in es && k != es[i].key
  {
    assert forall j :: 0 <= j < |es| && j != i ==> es[j] == Without(es, i)[if j < i then j else j - 1];
  }

  /** After any run of insertions and removals, with any rebalancing, the search-tree order holds and a search
      finds exactly what a plain map holds. */
  lemma {:induction false} TreeIsMap(ops: seq<TreeOp>)
    ensures Agrees(Replay(Leaf, ops), ReplayMap(ops))
  {
    if ops != [] {
      var rest, op := ops[..|ops| - 1], ops[|ops| - 1];
      TreeIsMap(rest);
      var t, m := Replay(Leaf, rest), ReplayMap(rest);
      match op {
        case Add(e, moves) => if e.key !in m { AddAgrees(t, m, e, moves); }
        case Remove(key, moves) =>
          if key in m { RemoveAgrees(t, m, key, moves); } else { assert m - {key} == m; }
      }
    }
  }
}
