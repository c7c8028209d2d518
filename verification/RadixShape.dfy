/** The shape of the radix tree behind an IDR (`lib/radix-tree.c` on a root with `ROOT_IS_IDR`).

    A node is known by its level and the index prefix it covers, a name that no growing or
    shrinking of the tree ever changes. Everything a sound tree must satisfy is then local:
    `Sound` relates a node to its neighbours only, and what a free tag means for the ids below
    it (`TagMeaning`) is a theorem. */
module RadixShape {

  /** `RADIX_TREE_MAP_SIZE` and the number of levels of 4 bits in an `unsigned long` of 32. */
  const MAP_SIZE: nat := 16
  const LEVELS: nat := 8

  datatype Addr = Addr(level: nat, prefix: nat)

  /** A slot: empty, a user's pointer, or a node of the tree. */
  datatype Entry = Null | Item(ptr: int) | Internal(node: Addr)

  datatype Link = None | Some(addr: Addr)

  /** `struct radix_tree_node`; `level` is `shift` in units of `RADIX_TREE_MAP_SHIFT`, `free` the
      tag `IDR_FREE`. */
  datatype Node = Node(level: nat, offset: nat, parent: Link, count: int, slots: seq<Entry>, free: seq<bool>)

  type Nodes = map<Addr, Node>

  // ---------------------------------------------------------------- indices

  /** `index >> shift`. */
  function Prefix(x: nat, level: nat): nat {
    if level == 0 then x else Prefix(x, level - 1) / 16
  }

  /** The least index with prefix `q`. */
  function First(level: nat, q: nat): nat {
    if level == 0 then q else First(level - 1, q * 16)
  }

  lemma {:induction false} FirstPrefix(level: nat, q: nat, x: nat)
    ensures x < First(level, q) <==> Prefix(x, level) < q
    ensures Prefix(First(level, q), level) == q
    decreases level
  {
    if level > 0 {
      FirstPrefix(level - 1, q * 16, x);
    }
  }

  lemma {:induction false} FirstUp(level: nat, q: nat)
    ensures First(level, q * 16) == First(level + 1, q)
  {}

  lemma {:induction false} PrefixUp(x: nat, low: nat, high: nat, y: nat)
    requires low <= high && Prefix(x, low) == Prefix(y, low)
    ensures Prefix(x, high) == Prefix(y, high)
    decreases high
  {
    if low < high {
      PrefixUp(x, low, high - 1, y);
    }
  }

  // ---------------------------------------------------------------- sound trees

  /** `xa_head`, the root's own `IDR_FREE` tag and the nodes. */
  datatype Tree = Tree(head: Entry, free: bool, nodes: Nodes)

  /** The prefix that slot `i` of a node with prefix `q` covers. */
  function Kid(q: nat, i: nat): nat {
    q * 16 + i
  }

  function Child(a: Addr, i: nat): Addr
    requires a.level > 0
  {
    Addr(a.level - 1, Kid(a.prefix, i))
  }

  function Up(a: Addr): Addr {
    Addr(a.level + 1, a.prefix / 16)
  }

  /** Node `a` of a tree of height `top`: its fields, and the children in its slots. */
  predicate LinkedAt(nodes: Nodes, top: nat, a: Addr)
    requires a in nodes
  {
    var n := nodes[a];
    true == (|n.slots| == |n.free| == MAP_SIZE && n.level == a.level <= top < LEVELS && n.offset == a.prefix % 16
    && (if a.level == top then a.prefix == 0 && n.parent == None else n.parent == Some(Up(a)) && Up(a) in nodes)
    && forall i :: 0 <= i < MAP_SIZE ==>
      if a.level == 0 then !n.slots[i].Internal? else n.slots[i] == if Child(a, i) in nodes then Internal(Child(a, i))
          else Null)
  }

  predicate Linked(t: Tree) {
    true == (match t.head
    case Null => t.nodes == map[]
    case Item(_) => false
    case Internal(root) =>
      root.prefix == 0 && root in t.nodes
      && forall a {:trigger LinkedAt(t.nodes, root.level, a)} :: a in t.nodes ==> LinkedAt(t.nodes, root.level, a))
  }

  /** The slot content that stands for the pointer `p`. */
  function Wrap(p: int): Entry {
    if p == 0 then Null else Item(p)
  }

  function Users(ids: map<nat, int>, a: Addr, n: Node): set<int>
    requires |n.slots| == MAP_SIZE
  {
    set i | 0 <= i < MAP_SIZE && if a.level == 0 then Kid(a.prefix, i) in ids else n.slots[i] != Null
  }

  /** A leaf holds the pointers of its ids; `count` counts the slots in use. */
  predicate StoredAt(ids: map<nat, int>, a: Addr, n: Node) {
    true == (|n.slots| == MAP_SIZE && n.count == |Users(ids, a, n)|
    && (a.level == 0 ==> forall i :: 0 <= i < MAP_SIZE ==>
      n.slots[i] == if Kid(a.prefix, i) in ids then Wrap(ids[Kid(a.prefix, i)]) else Null))
  }

  predicate Stored(t: Tree, ids: map<nat, int>)
    requires Linked(t)
  {
    true == ((forall x :: x in ids ==> Addr(0, x / 16) in t.nodes)
    && forall a {:trigger StoredAt(ids, a, t.nodes[a])} :: a in t.nodes ==> StoredAt(ids, a, t.nodes[a]))
  }

  predicate AnyFree(n: Node) {
    exists i :: 0 <= i < |n.free| && n.free[i]
  }

  /** What the free tag of a slot ought to be, given the level below. */
  predicate Ought(nodes: Nodes, ids: map<nat, int>, a: Addr, i: nat) {
    if a.level == 0 then Kid(a.prefix, i) !in ids
    else Child(a, i) in nodes ==> AnyFree(nodes[Child(a, i)])
  }

  /** A tag that is not yet what it ought to be. */
  datatype Spot = Nowhere | TagOf(node: Addr, offset: nat) | RootTag

  predicate TaggedAt(nodes: Nodes, ids: map<nat, int>, spot: Spot, a: Addr)
    requires a in nodes
  {
    true == (|nodes[a].free| == MAP_SIZE
    && forall i :: 0 <= i < MAP_SIZE && spot != TagOf(a, i) ==> (nodes[a].free[i] <==> Ought(nodes, ids, a, i)))
  }

  /** Every tag but the one at `spot` is what it ought to be. */
  predicate Tagged(t: Tree, ids: map<nat, int>, spot: Spot)
    requires Linked(t)
  {
    true == ((forall a {:trigger TaggedAt(t.nodes, ids, spot, a)} :: a in t.nodes ==> TaggedAt(t.nodes, ids, spot, a))
    && (spot != RootTag ==> (t.free <==> (t.head.Internal? ==> AnyFree(t.nodes[t.head.node])))))
  }

  ghost predicate Sound(t: Tree, ids: map<nat, int>) {
    true == (Linked(t) && Stored(t, ids) && Tagged(t, ids, Nowhere))
  }

  // ---------------------------------------------------------------- what tags mean

  /** The way up from a leaf is complete. */
  lemma {:induction false} Ancestors(t: Tree, x: nat, level: nat)
    requires Linked(t) && t.head.Internal? && level <= t.head.node.level && Addr(0, Prefix(x, 1)) in t.nodes
    ensures Addr(level, Prefix(x, level + 1)) in t.nodes
    decreases level
  {
    if level > 0 {
      Ancestors(t, x, level - 1);
      assert LinkedAt(t.nodes, t.head.node.level, Addr(level - 1, Prefix(x, level)));
    }
  }

  /** Ids exist only below the nodes that cover them. */
  lemma {:induction false} Covered(t: Tree, ids: map<nat, int>, x: nat, level: nat)
    requires Linked(t) && Stored(t, ids) && x in ids && t.head.Internal? && level <= t.head.node.level
    ensures Addr(level, Prefix(x, level + 1)) in t.nodes
  {
    assert Prefix(x, 1) == x / 16;
    Ancestors(t, x, level);
  }

  /** Some id whose prefix is `q` is free. */
  ghost predicate FreeBelow(ids: map<nat, int>, level: nat, q: nat) {
    exists x: nat :: Prefix(x, level) == q && x !in ids
  }

  lemma {:induction false} BelowBelow(ids: map<nat, int>, level: nat, q: nat)
    ensures FreeBelow(ids, level + 1, q) <==> exists j :: 0 <= j < MAP_SIZE && FreeBelow(ids, level, Kid(q, j))
  {
    if FreeBelow(ids, level + 1, q) {
      var x: nat :| Prefix(x, level + 1) == q && x !in ids;
      var j := Prefix(x, level) % 16;
      assert Prefix(x, level) == Kid(q, j);
      assert FreeBelow(ids, level, Kid(q, j));
    }
    forall j | 0 <= j < MAP_SIZE && FreeBelow(ids, level, Kid(q, j))
      ensures FreeBelow(ids, level + 1, q)
    {
      var x: nat :| Prefix(x, level) == Kid(q, j) && x !in ids;
      assert Prefix(x, level + 1) == q;
    }
  }

  /** Where there is no node, everything is free. */
  lemma {:induction false} NothingBelow(t: Tree, ids: map<nat, int>, level: nat, q: nat)
    requires Linked(t) && Stored(t, ids) && t.head.Internal? && level <= t.head.node.level && Addr(level, q) !in t.nodes
    ensures FreeBelow(ids, level + 1, q)
  {
    FirstPrefix(level + 1, q, 0);
    var x := First(level + 1, q);
    if x in ids {
      Covered(t, ids, x, level);
    }
  }

  /** The free tag of a slot says exactly whether some id below the slot is free. */
  lemma {:induction false} TagMeaning(t: Tree, ids: map<nat, int>, a: Addr, i: nat)
    requires Sound(t, ids) && a in t.nodes && i < MAP_SIZE
    ensures |t.nodes[a].free| == MAP_SIZE && (t.nodes[a].free[i] <==> FreeBelow(ids, a.level, Kid(a.prefix, i)))
    decreases a.level, 0
  {
    assert LinkedAt(t.nodes, t.head.node.level, a) && TaggedAt(t.nodes, ids, Nowhere, a);
    if a.level == 0 {
      assert Prefix(Kid(a.prefix, i), 0) == Kid(a.prefix, i);
    } else if Child(a, i) in t.nodes {
      AnyMeaning(t, ids, Child(a, i));
    } else {
      NothingBelow(t, ids, a.level - 1, Kid(a.prefix, i));
    }
  }

  lemma {:induction false} AnyMeaning(t: Tree, ids: map<nat, int>, a: Addr)
    requires Sound(t, ids) && a in t.nodes
    ensures AnyFree(t.nodes[a]) <==> FreeBelow(ids, a.level + 1, a.prefix)
    decreases a.level, 1
  {
    var n := t.nodes[a];
    assert LinkedAt(t.nodes, t.head.node.level, a);
    forall j | 0 <= j < MAP_SIZE
      ensures n.free[j] <==> FreeBelow(ids, a.level, Kid(a.prefix, j))
    {
      TagMeaning(t, ids, a, j);
    }
    BelowBelow(ids, a.level, a.prefix);
  }

  /** The root tag says whether some id within the reach of the tree is free. */
  lemma {:induction false} RootTagMeaning(t: Tree, ids: map<nat, int>)
    requires Sound(t, ids)
    ensures t.head.Null? ==> t.free && ids == map[]
    ensures t.head.Internal? ==> (t.free <==> FreeBelow(ids, t.head.node.level + 1, 0))
  {
    if t.head.Internal? {
      AnyMeaning(t, ids, t.head.node);
    }
  }
}
