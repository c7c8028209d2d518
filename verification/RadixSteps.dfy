/** What each write of `lib/radix-tree.c` does to a sound tree. */
module RadixSteps {

  import opened RadixShape

  /** `radix_tree_node_alloc` followed by `all_tag_set`. */
  function NewNode(level: nat, offset: nat, parent: Link): Node {
    Node(level, offset, parent, 0, seq(MAP_SIZE, _ => Null), seq(MAP_SIZE, _ => true))
  }

  function SetSlot(n: Node, i: nat, e: Entry, count: int): Node
    requires i < |n.slots|
  {
    n.(slots := n.slots[i := e], count := n.count + count)
  }

  // ---------------------------------------------------------------- new nodes

  function WithRoot(t: Tree, level: nat): Tree {
    Tree(Internal(Addr(level, 0)), t.free, map[Addr(level, 0) := NewNode(level, 0, None)])
  }

  lemma {:induction false} AllocRoot(t: Tree, ids: map<nat, int>, level: nat)
    requires Sound(t, ids) && t.head.Null? && level < LEVELS
    ensures Sound(WithRoot(t, level), ids)
  {
    var t' := WithRoot(t, level);
    var a := Addr(level, 0);
    assert LinkedAt(t'.nodes, level, a);
    assert Users(ids, a, t'.nodes[a]) == {};
    assert t'.nodes[a].free[0];
    assert TaggedAt(t'.nodes, ids, Nowhere, a);
  }

  function WithChild(t: Tree, a: Addr, i: nat): Tree
    requires a in t.nodes && a.level > 0 && i < |t.nodes[a].slots|
  {
    var c := Child(a, i);
    t.(nodes := t.nodes[c := NewNode(a.level - 1, i, Some(a))][a := SetSlot(t.nodes[a], i, Internal(c), 1)])
  }

  /** A child more in a node is a slot more in use. */
  lemma {:induction false} AddUser(ids: map<nat, int>, a: Addr, n: Node, n': Node, i: nat)
    requires a.level > 0 && |n.slots| == |n'.slots| == MAP_SIZE && i < MAP_SIZE
    requires n'.slots[i] != Null && n.slots == n'.slots[i := Null]
    ensures |Users(ids, a, n')| == |Users(ids, a, n)| + 1
  {
    var s, s' := Users(ids, a, n), Users(ids, a, n');
    forall j
      ensures j in s' <==> j in s + {i}
    {
      if 0 <= j < MAP_SIZE && j != i {
        assert n.slots[j] == n'.slots[j];
      }
    }
    assert s' == s + {i};
  }

  lemma {:induction false} KidUnique(p: nat, i: nat, q: nat, j: nat)
    requires Kid(p, i) == Kid(q, j) && i < MAP_SIZE && j < MAP_SIZE
    ensures p == q && i == j
  {
    assert p == Kid(p, i) / 16 && q == Kid(q, j) / 16;
  }

  lemma {:induction false} AllocChildLinkedAt(t: Tree, t': Tree, a: Addr, i: nat, b: Addr)
    requires Linked(t) && a in t.nodes && a.level > 0 && i < MAP_SIZE && Child(a, i) !in t.nodes && b in t.nodes
    requires |t.nodes[a].slots| == MAP_SIZE && t' == WithChild(t, a, i)
    ensures LinkedAt(t'.nodes, t.head.node.level, b)
  {
    assert LinkedAt(t.nodes, t.head.node.level, b);
    if b.level == a.level {
      forall j | 0 <= j < MAP_SIZE
        ensures Child(b, j) == Child(a, i) <==> b == a && j == i
      {
        if Child(b, j) == Child(a, i) {
          KidUnique(b.prefix, j, a.prefix, i);
        }
      }
    }
  }

  lemma {:induction false} AllocChildLinks(t: Tree, a: Addr, i: nat)
    requires Linked(t) && a in t.nodes && a.level > 0 && i < MAP_SIZE && Child(a, i) !in t.nodes
    ensures |t.nodes[a].slots| == MAP_SIZE && Linked(WithChild(t, a, i))
  {
    var top := t.head.node.level;
    assert LinkedAt(t.nodes, top, a);
    var t' := WithChild(t, a, i);
    var c := Child(a, i);
    assert Up(c) == a;
    forall j | 0 <= j < MAP_SIZE && c.level > 0
      ensures Child(c, j) !in t'.nodes
    {
      NoChild(t, c, j);
    }
    assert LinkedAt(t'.nodes, top, c);
    forall b | b in t'.nodes
      ensures LinkedAt(t'.nodes, top, b)
    {
      if b != c {
        AllocChildLinkedAt(t, t', a, i, b);
      }
    }
  }

  lemma {:induction false} AllocChildStored(t: Tree, ids: map<nat, int>, a: Addr, i: nat)
    requires Linked(t) && Stored(t, ids) && a in t.nodes && a.level > 0 && i < MAP_SIZE && Child(a, i) !in t.nodes
    requires |t.nodes[a].slots| == MAP_SIZE && Linked(WithChild(t, a, i))
    ensures Stored(WithChild(t, a, i), ids)
  {
    assert LinkedAt(t.nodes, t.head.node.level, a);
    var t' := WithChild(t, a, i);
    var c := Child(a, i);
    forall b | b in t'.nodes
      ensures StoredAt(ids, b, t'.nodes[b])
    {
      if b == c {
        forall j | 0 <= j < MAP_SIZE && c.level == 0
          ensures Kid(c.prefix, j) !in ids
        {
          NoIds(t, ids, c, j);
        }
        assert Users(ids, c, t'.nodes[c]) == {};
      } else {
        assert StoredAt(ids, b, t.nodes[b]);
        if b == a {
          AddUser(ids, a, t.nodes[a], t'.nodes[a], i);
        }
      }
    }
  }

  lemma {:induction false} AllocChild(t: Tree, ids: map<nat, int>, a: Addr, i: nat)
    requires Sound(t, ids) && a in t.nodes && a.level > 0 && i < MAP_SIZE && Child(a, i) !in t.nodes
    ensures |t.nodes[a].slots| == MAP_SIZE && Sound(WithChild(t, a, i), ids)
  {
    AllocChildLinks(t, a, i);
    AllocChildStored(t, ids, a, i);
    assert LinkedAt(t.nodes, t.head.node.level, a);
    var t' := WithChild(t, a, i);
    var c := Child(a, i);
    assert t'.nodes[c].free[0];
    assert t'.nodes[a].free == t.nodes[a].free;
    forall b | b in t'.nodes
      ensures TaggedAt(t'.nodes, ids, Nowhere, b)
    {
      if b == c {
        forall j | 0 <= j < MAP_SIZE
          ensures Ought(t'.nodes, ids, c, j)
        {
          if c.level == 0 {
            NoIds(t, ids, c, j);
          } else {
            NoChild(t, c, j);
          }
        }
      } else {
        assert TaggedAt(t.nodes, ids, Nowhere, b);
      }
    }
  }

  /** Where a node can be. */
  lemma {:induction false} Place(t: Tree, b: Addr)
    requires Linked(t) && b in t.nodes
    ensures t.head.Internal? && b.level <= t.head.node.level
    ensures (if b.level == t.head.node.level then b.prefix == 0 else Up(b) in t.nodes)
  {
    assert LinkedAt(t.nodes, t.head.node.level, b);
  }

  /** A node that is not there has no children. */
  lemma {:induction false} NoChild(t: Tree, c: Addr, i: nat)
    requires Linked(t) && c !in t.nodes && t.head.Internal? && 0 < c.level < t.head.node.level && i < MAP_SIZE
    ensures Child(c, i) !in t.nodes
  {
    assert Up(Child(c, i)) == c;
    if Child(c, i) in t.nodes {
      Place(t, Child(c, i));
    }
  }

  /** A leaf that is not there has no ids. */
  lemma {:induction false} NoIds(t: Tree, ids: map<nat, int>, c: Addr, i: nat)
    requires Linked(t) && Stored(t, ids) && c !in t.nodes && c.level == 0 && i < MAP_SIZE
    ensures Kid(c.prefix, i) !in ids
  {
    assert Kid(c.prefix, i) / 16 == c.prefix;
  }

  // ---------------------------------------------------------------- growing at the root

  /** One round of the loop of `radix_tree_extend`. */
  function Grown(t: Tree): Tree
    requires t.head.Internal? && t.head.node in t.nodes
  {
    var old_ := t.head.node;
    var a := Addr(old_.level + 1, 0);
    var n := NewNode(a.level, 0, None).(count := 1);
    Tree(Internal(a), true,
         t.nodes[a := n.(slots := n.slots[0 := t.head],
             free := n.free[0 := t.free])][old_ := t.nodes[old_].(parent := Some(a))])
  }

  lemma {:induction false} GrowLinks(t: Tree)
    requires Linked(t) && t.head.Internal? && t.head.node.level + 1 < LEVELS
    ensures Linked(Grown(t)) && Addr(t.head.node.level + 1, 0) !in t.nodes
  {
    var old_ := t.head.node;
    var t' := Grown(t);
    var a := t'.head.node;
    if a in t.nodes {
      Place(t, a);
    }
    assert LinkedAt(t.nodes, old_.level, old_);
    forall b | b in t'.nodes
      ensures LinkedAt(t'.nodes, a.level, b)
    {
      if b == a {
        forall i | 0 < i < MAP_SIZE
          ensures Child(a, i) !in t.nodes
        {
          if Child(a, i) in t.nodes {
            Place(t, Child(a, i));
          }
        }
      } else {
        assert LinkedAt(t.nodes, old_.level, b);
      }
    }
  }

  lemma {:induction false} GrowStored(t: Tree, ids: map<nat, int>)
    requires Linked(t) && Stored(t, ids) && t.head.Internal? && t.head.node.level + 1 < LEVELS && Linked(Grown(t))
    ensures Stored(Grown(t), ids)
  {
    var t' := Grown(t);
    var a := t'.head.node;
    forall b | b in t'.nodes
      ensures StoredAt(ids, b, t'.nodes[b])
    {
      if b == a {
        assert Users(ids, a, t'.nodes[a]) == {0};
      } else {
        assert StoredAt(ids, b, t.nodes[b]);
        assert Users(ids, b, t'.nodes[b]) == Users(ids, b, t.nodes[b]);
      }
    }
  }

  lemma {:induction false} GrowTaggedAt(t: Tree, ids: map<nat, int>, t': Tree, b: Addr)
    requires Sound(t, ids) && t.head.Internal? && t.head.node.level + 1 < LEVELS && t' == Grown(t) && b in t.nodes
    ensures b in t'.nodes && TaggedAt(t'.nodes, ids, Nowhere, b)
  {
    assert TaggedAt(t.nodes, ids, Nowhere, b);
    Place(t, b);
    forall i | 0 <= i < MAP_SIZE
      ensures Ought(t'.nodes, ids, b, i) == Ought(t.nodes, ids, b, i)
    {
      GrowOught(t, ids, t', b, i);
    }
  }

  lemma {:induction false} GrowOught(t: Tree, ids: map<nat, int>, t': Tree, b: Addr, i: nat)
    requires t.head.Internal? && t.head.node in t.nodes && t' == Grown(t) && i < MAP_SIZE
    requires b.level <= t.head.node.level
    ensures Ought(t'.nodes, ids, b, i) == Ought(t.nodes, ids, b, i)
  {
    if b.level > 0 {
      var c := Child(b, i);
      assert c != t'.head.node;
      assert c in t.nodes ==> t'.nodes[c].free == t.nodes[c].free;
    }
  }

  lemma {:induction false} GrowRootTag(t: Tree, ids: map<nat, int>, t': Tree)
    requires Sound(t, ids) && t.head.Internal? && t.head.node.level + 1 < LEVELS && t' == Grown(t) && Linked(t')
    ensures TaggedAt(t'.nodes, ids, Nowhere, t'.head.node) && AnyFree(t'.nodes[t'.head.node])
  {
    var a := t'.head.node;
    assert LinkedAt(t'.nodes, a.level, a) && Child(a, 0) == t.head.node;
    assert t'.nodes[t.head.node].free == t.nodes[t.head.node].free;
    assert t'.nodes[a].free[1];
  }

  lemma {:induction false} Grow(t: Tree, ids: map<nat, int>)
    requires Sound(t, ids) && t.head.Internal? && t.head.node.level + 1 < LEVELS
    ensures Sound(Grown(t), ids)
  {
    var t' := Grown(t);
    GrowLinks(t);
    GrowStored(t, ids);
    GrowRootTag(t, ids, t');
    forall b | b in t'.nodes
      ensures TaggedAt(t'.nodes, ids, Nowhere, b)
    {
      if b != t'.head.node {
        GrowTaggedAt(t, ids, t', b);
      }
    }
  }

  // ---------------------------------------------------------------- tags

  function SetFree(t: Tree, a: Addr, i: nat, v: bool): Tree
    requires a in t.nodes && i < |t.nodes[a].free|
  {
    t.(nodes := t.nodes[a := t.nodes[a].(free := t.nodes[a].free[i := v])])
  }

  /** Where the tag of node `a` as a whole is kept. */
  function Above(t: Tree, a: Addr): Spot {
    if t.head == Internal(a) then RootTag else TagOf(Up(a), a.prefix % 16)
  }

  /** The trees have the same nodes, slots and counts. */
  ghost predicate SameButTags(t: Tree, t': Tree) {
    t.head == t'.head && t.nodes.Keys == t'.nodes.Keys
    && forall a :: a in t.nodes ==>
        t'.nodes[a] == t.nodes[a].(free := t'.nodes[a].free) && |t'.nodes[a].free| == |t.nodes[a].free|
  }

  lemma {:induction false} SameLinks(t: Tree, t': Tree)
    requires Linked(t) && SameButTags(t, t')
    ensures Linked(t')
    ensures forall ids :: Stored(t, ids) ==> Stored(t', ids)
  {
    if t.head.Internal? {
      forall a | a in t'.nodes
        ensures LinkedAt(t'.nodes, t.head.node.level, a)
      {
        assert LinkedAt(t.nodes, t.head.node.level, a);
      }
    }
    forall ids | Stored(t, ids)
      ensures Stored(t', ids)
    {
      forall a | a in t'.nodes
        ensures StoredAt(ids, a, t'.nodes[a])
      {
        assert StoredAt(ids, a, t.nodes[a]);
      }
    }
  }

  /** Only the tag above `a` looks at the tags of `a`. */
  lemma {:induction false} OughtElsewhere(t: Tree, t': Tree, ids: map<nat, int>, a: Addr, b: Addr, j: nat)
    requires Linked(t) && a in t.nodes && b in t.nodes && j < MAP_SIZE && SameButTags(t, t')
    requires t'.nodes == t.nodes[a := t'.nodes[a]]
    requires Above(t, a) != TagOf(b, j) || AnyFree(t'.nodes[a]) == AnyFree(t.nodes[a])
    ensures Ought(t'.nodes, ids, b, j) == Ought(t.nodes, ids, b, j)
  {
    if b.level > 0 && Child(b, j) == a {
      Place(t, b);
      assert Up(a) == b && a.prefix % 16 == j;
    }
  }

  lemma {:induction false} CorrectTagAt(t: Tree, t': Tree, ids: map<nat, int>, a: Addr, i: nat, b: Addr)
    requires Linked(t) && a in t.nodes && i < MAP_SIZE && Tagged(t, ids, TagOf(a, i)) && |t.nodes[a].free| == MAP_SIZE
    requires t' == SetFree(t, a, i, Ought(t.nodes, ids, a, i)) && b in t.nodes && SameButTags(t, t')
    ensures TaggedAt(t'.nodes, ids, Above(t, a), b)
    ensures AnyFree(t'.nodes[a]) == AnyFree(t.nodes[a]) ==> TaggedAt(t'.nodes, ids, Nowhere, b)
  {
    assert TaggedAt(t.nodes, ids, TagOf(a, i), b);
    forall j | 0 <= j < MAP_SIZE && (Above(t, a) != TagOf(b, j) || AnyFree(t'.nodes[a]) == AnyFree(t.nodes[a]))
      ensures Ought(t'.nodes, ids, b, j) == Ought(t.nodes, ids, b, j)
    {
      OughtElsewhere(t, t', ids, a, b, j);
    }
  }

  /** Correcting the tag at a spot can only unsettle the tag above. */
  lemma {:induction false} CorrectTag(t: Tree, t': Tree, ids: map<nat, int>, a: Addr, i: nat)
    requires Linked(t) && a in t.nodes && i < MAP_SIZE && Tagged(t, ids, TagOf(a, i)) && |t.nodes[a].free| == MAP_SIZE
    requires t' == SetFree(t, a, i, Ought(t.nodes, ids, a, i))
    ensures SameButTags(t, t') && Linked(t') && Tagged(t', ids, Above(t, a))
    ensures AnyFree(t'.nodes[a]) == AnyFree(t.nodes[a]) ==> Tagged(t', ids, Nowhere)
  {
    SameLinks(t, t');
    forall b | b in t'.nodes
      ensures TaggedAt(t'.nodes, ids, Above(t, a), b)
      ensures AnyFree(t'.nodes[a]) == AnyFree(t.nodes[a]) ==> TaggedAt(t'.nodes, ids, Nowhere, b)
    {
      CorrectTagAt(t, t', ids, a, i, b);
    }
  }

  /** A tag that is what it ought to be is no exception. */
  lemma {:induction false} RightAlready(t: Tree, ids: map<nat, int>, a: Addr, i: nat)
    requires Linked(t) && a in t.nodes && i < |t.nodes[a].free| && Tagged(t, ids, TagOf(a, i))
    requires t.nodes[a].free[i] <==> Ought(t.nodes, ids, a, i)
    ensures Tagged(t, ids, Nowhere)
  {
    forall b | b in t.nodes
      ensures TaggedAt(t.nodes, ids, Nowhere, b)
    {
      assert TaggedAt(t.nodes, ids, TagOf(a, i), b);
    }
  }

  lemma {:induction false} CorrectRootTag(t: Tree, ids: map<nat, int>)
    requires Linked(t) && t.head.Internal? && Tagged(t, ids, RootTag)
    ensures Linked(t.(free := AnyFree(t.nodes[t.head.node])))
    ensures Tagged(t.(free := AnyFree(t.nodes[t.head.node])), ids, Nowhere)
  {
    var t' := t.(free := AnyFree(t.nodes[t.head.node]));
    SameLinks(t, t');
    forall b | b in t'.nodes
      ensures TaggedAt(t'.nodes, ids, Nowhere, b)
    {
      assert TaggedAt(t.nodes, ids, RootTag, b);
    }
  }

  // ---------------------------------------------------------------- slots of leaves

  function LeafOf(x: nat): Addr {
    Addr(0, x / 16)
  }

  /** The maps differ at `x` at most. */
  ghost predicate AgreeBut(ids: map<nat, int>, ids': map<nat, int>, x: nat) {
    forall y :: y != x ==> (y in ids <==> y in ids') && (y in ids ==> ids[y] == ids'[y])
  }

  lemma {:induction false} LeafKid(a: Addr, i: nat, x: nat)
    requires a.level == 0 && i < MAP_SIZE
    ensures Kid(a.prefix, i) == x <==> a == LeafOf(x) && i == x % 16
  {}

  /** With another set of ids only the tag of `x` itself need be wrong. */
  lemma {:induction false} TagsOfOthers(t: Tree, ids: map<nat, int>, ids': map<nat, int>, x: nat)
    requires Linked(t) && Tagged(t, ids, Nowhere) && AgreeBut(ids, ids', x)
    ensures Tagged(t, ids', TagOf(LeafOf(x), x % 16))
  {
    forall a | a in t.nodes
      ensures TaggedAt(t.nodes, ids', TagOf(LeafOf(x), x % 16), a)
    {
      assert TaggedAt(t.nodes, ids, Nowhere, a);
      forall i | 0 <= i < MAP_SIZE && TagOf(LeafOf(x), x % 16) != TagOf(a, i)
        ensures Ought(t.nodes, ids', a, i) == Ought(t.nodes, ids, a, i)
      {
        if a.level == 0 {
          LeafKid(a, i, x);
        }
      }
    }
  }

  function WriteSlot(t: Tree, a: Addr, i: nat, e: Entry, count: int): Tree
    requires a in t.nodes && i < |t.nodes[a].slots|
  {
    t.(nodes := t.nodes[a := SetSlot(t.nodes[a], i, e, count)])
  }

  lemma {:induction false} WriteLeafTags(t: Tree, ids: map<nat, int>, spot: Spot, a: Addr, i: nat, e: Entry, count: int)
    requires Linked(t) && a in t.nodes && a.level == 0 && i < |t.nodes[a].slots| && !e.Internal? && Tagged(t, ids, spot)
    ensures Linked(WriteSlot(t, a, i, e, count)) && Tagged(WriteSlot(t, a, i, e, count), ids, spot)
  {
    var t' := WriteSlot(t, a, i, e, count);
    forall b | b in t'.nodes
      ensures LinkedAt(t'.nodes, t.head.node.level, b)
    {
      assert LinkedAt(t.nodes, t.head.node.level, b);
    }
    assert AnyFree(t'.nodes[a]) == AnyFree(t.nodes[a]);
    forall b | b in t'.nodes
      ensures TaggedAt(t'.nodes, ids, spot, b)
    {
      assert TaggedAt(t.nodes, ids, spot, b);
    }
  }

  /** The leaf slot of `x` is made to hold what `ids'` says. */
  lemma {:induction false} WriteLeaf(t: Tree, ids: map<nat, int>, ids': map<nat, int>, x: nat, e: Entry, count: int)
    requires Linked(t) && Stored(t, ids) && LeafOf(x) in t.nodes && AgreeBut(ids, ids', x)
    requires e == if x in ids' then Wrap(ids'[x]) else Null
    requires count == (if x in ids' then 1 else 0) - (if x in ids then 1 else 0)
    requires |t.nodes[LeafOf(x)].slots| == MAP_SIZE && Linked(WriteSlot(t, LeafOf(x), x % 16, e, count))
    ensures Stored(WriteSlot(t, LeafOf(x), x % 16, e, count), ids')
  {
    var a, i := LeafOf(x), x % 16;
    var t' := WriteSlot(t, a, i, e, count);
    forall b | b in t'.nodes
      ensures StoredAt(ids', b, t'.nodes[b])
    {
      assert StoredAt(ids, b, t.nodes[b]);
      if b == a {
        WriteLeafUsers(ids, ids', x, t.nodes[a], t'.nodes[a]);
      } else {
        assert b.level == 0 ==> forall j :: 0 <= j < MAP_SIZE ==> Kid(b.prefix, j) != x;
        assert Users(ids', b, t'.nodes[b]) == Users(ids, b, t.nodes[b]);
      }
    }
  }

  lemma {:induction false} WriteLeafUsers(ids: map<nat, int>, ids': map<nat, int>, x: nat, n: Node, n': Node)
    requires AgreeBut(ids, ids', x) && |n.slots| == |n'.slots| == MAP_SIZE
    ensures |Users(ids', LeafOf(x), n')| == |Users(ids, LeafOf(x), n)| + (if x in ids' then 1
        else 0) - (if x in ids then 1 else 0)
  {
    var a, i := LeafOf(x), x % 16;
    var s, s' := Users(ids, a, n), Users(ids', a, n');
    SplitUser(s, i);
    SplitUser(s', i);
    forall j
      ensures j in s' - {i} <==> j in s - {i}
      ensures (i in s <==> x in ids) && (i in s' <==> x in ids')
    {
      KidOf(x, i);
      if 0 <= j < MAP_SIZE {
        KidOf(x, j);
      }
    }
    assert s' - {i} == s - {i};
  }

  lemma {:induction false} KidOf(x: nat, j: nat)
    requires j < MAP_SIZE
    ensures Kid(x / 16, j) == x <==> j == x % 16
  {}

  lemma {:induction false} SplitUser(s: set<int>, i: int)
    ensures |s| == |s - {i}| + if i in s then 1 else 0
  {
    if i in s {
      assert s == (s - {i}) + {i};
    } else {
      assert s == s - {i};
    }
  }

  // ---------------------------------------------------------------- removing nodes

  function WithoutNode(t: Tree, a: Addr): Tree
    requires a in t.nodes && Up(a) in t.nodes && a.prefix % 16 < |t.nodes[Up(a)].slots|
  {
    t.(nodes := t.nodes[Up(a) := SetSlot(t.nodes[Up(a)], a.prefix % 16, Null, -1)] - {a})
  }

  /** An empty node has no children, no ids and all its tags set. */
  lemma {:induction false} EmptyNode(t: Tree, ids: map<nat, int>, a: Addr, i: nat)
    requires Sound(t, ids) && a in t.nodes && t.nodes[a].count == 0 && i < MAP_SIZE
    ensures |t.nodes[a].slots| == |t.nodes[a].free| == MAP_SIZE
    ensures t.nodes[a].slots[i] == Null && t.nodes[a].free[i]
    ensures if a.level == 0 then Kid(a.prefix, i) !in ids else Child(a, i) !in t.nodes
  {
    assert LinkedAt(t.nodes, t.head.node.level, a) && StoredAt(ids, a, t.nodes[a])
      && TaggedAt(t.nodes, ids, Nowhere, a);
    assert i !in Users(ids, a, t.nodes[a]);
  }

  lemma {:induction false} DropLinks(t: Tree, ids: map<nat, int>, a: Addr)
    requires Sound(t, ids) && a in t.nodes && t.nodes[a].count == 0 && t.nodes[a].parent != None
    ensures Up(a) in t.nodes && |t.nodes[Up(a)].slots| == MAP_SIZE && Linked(WithoutNode(t, a))
    ensures t.nodes[a].parent == Some(Up(a)) && t.nodes[a].offset == a.prefix % 16
  {
    var top := t.head.node.level;
    assert LinkedAt(t.nodes, top, a);
    assert LinkedAt(t.nodes, top, Up(a));
    var t' := WithoutNode(t, a);
    forall b | b in t'.nodes
      ensures LinkedAt(t'.nodes, top, b)
    {
      assert LinkedAt(t.nodes, top, b);
      if b.level + 1 == a.level && Up(b) == a {
        assert Child(a, b.prefix % 16) == b;
        EmptyNode(t, ids, a, b.prefix % 16);
      }
      forall j | 0 <= j < MAP_SIZE && b.level > 0 && Child(b, j) == a
        ensures b == Up(a) && j == a.prefix % 16
      {
      }
    }
  }

  /** `delete_node` takes an empty node out of its parent. */
  lemma {:induction false} Drop(t: Tree, ids: map<nat, int>, a: Addr)
    requires Sound(t, ids) && a in t.nodes && t.nodes[a].count == 0 && t.nodes[a].parent != None
    ensures Up(a) in t.nodes && |t.nodes[Up(a)].slots| == MAP_SIZE && Sound(WithoutNode(t, a), ids)
  {
    DropLinks(t, ids, a);
    DropStored(t, ids, a);
    var t' := WithoutNode(t, a);
    EmptyNode(t, ids, a, 0);
    assert AnyFree(t.nodes[a]);
    assert t'.nodes[Up(a)].free == t.nodes[Up(a)].free;
    forall b | b in t'.nodes
      ensures TaggedAt(t'.nodes, ids, Nowhere, b)
    {
      assert TaggedAt(t.nodes, ids, Nowhere, b);
    }
  }

  lemma {:induction false} DropStored(t: Tree, ids: map<nat, int>, a: Addr)
    requires Sound(t, ids) && a in t.nodes && t.nodes[a].count == 0 && t.nodes[a].parent != None
    requires Up(a) in t.nodes && |t.nodes[Up(a)].slots| == MAP_SIZE && Linked(WithoutNode(t, a))
    ensures Stored(WithoutNode(t, a), ids)
  {
    var t' := WithoutNode(t, a);
    var p, j := Up(a), a.prefix % 16;
    forall x | x in ids
      ensures Addr(0, x / 16) in t'.nodes
    {
      if Addr(0, x / 16) == a {
        EmptyNode(t, ids, a, x % 16);
      }
    }
    forall b | b in t'.nodes
      ensures StoredAt(ids, b, t'.nodes[b])
    {
      assert StoredAt(ids, b, t.nodes[b]);
      if b == p {
        assert LinkedAt(t.nodes, t.head.node.level, p) && Child(p, j) == a;
        AddUser(ids, p, t'.nodes[p], t.nodes[p], j);
      }
    }
  }

  /** An empty root is the whole tree. */
  lemma {:induction false} RootAlone(t: Tree, ids: map<nat, int>, b: Addr)
    requires Sound(t, ids) && t.head.Internal? && t.nodes[t.head.node].count == 0 && b in t.nodes
    ensures b == t.head.node
    decreases t.head.node.level - b.level
  {
    Place(t, b);
    if b.level < t.head.node.level {
      RootAlone(t, ids, Up(b));
      EmptyNode(t, ids, t.head.node, b.prefix % 16);
    }
  }

  /** `delete_node` on an empty root: the tree is empty. */
  lemma {:induction false} DropRoot(t: Tree, ids: map<nat, int>)
    requires Sound(t, ids) && t.head.Internal? && t.nodes[t.head.node].count == 0
    ensures Sound(Tree(Null, t.free, t.nodes - {t.head.node}), ids)
  {
    forall b | b in t.nodes
      ensures b == t.head.node
    {
      RootAlone(t, ids, b);
    }
    EmptyNode(t, ids, t.head.node, 0);
    assert AnyFree(t.nodes[t.head.node]);
    forall x | x in ids
      ensures false
    {
      EmptyNode(t, ids, t.head.node, x % 16);
    }
    assert t.nodes - {t.head.node} == map[];
  }

  // ---------------------------------------------------------------- shrinking at the root

  /** The root, above the leaves, has its only child in slot 0. */
  predicate OnlyFirst(t: Tree) {
    true == (t.head.Internal? && t.head.node.level > 0 && t.head.node in t.nodes
    && var n := t.nodes[t.head.node];
      n.count == 1 && |n.slots| == |n.free| == MAP_SIZE && n.slots[0] == Internal(Child(t.head.node, 0))
      && Child(t.head.node, 0) in t.nodes)
  }

  lemma {:induction false} FindOnlyFirst(t: Tree)
    requires Linked(t) && t.head.Internal? && t.head.node.level > 0
    requires var n := t.nodes[t.head.node]; n.count == 1 && |n.slots| == |n.free| == MAP_SIZE && n.slots[0] != Null
    ensures OnlyFirst(t)
  {
    assert LinkedAt(t.nodes, t.head.node.level, t.head.node);
  }

  /** One round of the loop of `radix_tree_shrink`. */
  function Shrunk(t: Tree): Tree
    requires OnlyFirst(t)
  {
    var root := t.nodes[t.head.node];
    var c := root.slots[0].node;
    Tree(root.slots[0], t.free && root.free[0], t.nodes[c := t.nodes[c].(parent := None)] - {t.head.node})
  }

  /** The root covers nothing else. */
  lemma {:induction false} NoOther(t: Tree, ids: map<nat, int>, i: nat)
    requires Linked(t) && Stored(t, ids) && OnlyFirst(t) && 0 < i < MAP_SIZE
    ensures Child(t.head.node, i) !in t.nodes
  {
    var a := t.head.node;
    assert LinkedAt(t.nodes, a.level, a) && StoredAt(ids, a, t.nodes[a]);
    SplitUser(Users(ids, a, t.nodes[a]), 0);
    assert i !in Users(ids, a, t.nodes[a]) - {0};
  }

  /** The nodes just below the root. */
  lemma {:induction false} UnderRoot(t: Tree, b: Addr)
    requires Linked(t) && b in t.nodes && b.level + 1 == t.head.node.level
    ensures b.prefix < MAP_SIZE && b == Child(t.head.node, b.prefix)
  {
    Place(t, b);
    Place(t, Up(b));
  }

  lemma {:induction false} ShrinkLinkedAt(t: Tree, ids: map<nat, int>, t': Tree, b: Addr)
    requires Linked(t) && Stored(t, ids) && OnlyFirst(t) && b in t.nodes && b != t.head.node && t' == Shrunk(t)
    ensures b in t'.nodes && LinkedAt(t'.nodes, t.head.node.level - 1, b)
  {
    var a := t.head.node;
    assert LinkedAt(t.nodes, a.level, b);
    Place(t, b);
    if b.level + 1 == a.level {
      UnderRoot(t, b);
      if b.prefix > 0 {
        NoOther(t, ids, b.prefix);
      }
    }
  }

  lemma {:induction false} ShrinkLinks(t: Tree, ids: map<nat, int>)
    requires Linked(t) && Stored(t, ids) && OnlyFirst(t)
    ensures Linked(Shrunk(t))
  {
    var t' := Shrunk(t);
    forall b | b in t'.nodes
      ensures LinkedAt(t'.nodes, t'.head.node.level, b)
    {
      ShrinkLinkedAt(t, ids, t', b);
    }
  }

  lemma {:induction false} ShrinkStored(t: Tree, ids: map<nat, int>, t': Tree)
    requires Linked(t) && Stored(t, ids) && OnlyFirst(t) && t' == Shrunk(t) && Linked(t')
    ensures Stored(t', ids)
  {
    forall b | b in t'.nodes
      ensures StoredAt(ids, b, t'.nodes[b])
    {
      assert StoredAt(ids, b, t.nodes[b]);
      assert Users(ids, b, t'.nodes[b]) == Users(ids, b, t.nodes[b]);
    }
  }

  lemma {:induction false} ShrinkOught(t: Tree, ids: map<nat, int>, t': Tree, b: Addr, i: nat)
    requires OnlyFirst(t) && t' == Shrunk(t) && i < MAP_SIZE && b.level <= t.head.node.level
    ensures Ought(t'.nodes, ids, b, i) == Ought(t.nodes, ids, b, i)
  {
    if b.level > 0 {
      var c := Child(b, i);
      assert c != t.head.node;
      assert c in t.nodes ==> t'.nodes[c].free == t.nodes[c].free;
    }
  }

  lemma {:induction false} ShrinkTaggedAt(t: Tree, ids: map<nat, int>, t': Tree, b: Addr)
    requires Sound(t, ids) && OnlyFirst(t) && b in t.nodes && b != t.head.node && t' == Shrunk(t)
    ensures b in t'.nodes && TaggedAt(t'.nodes, ids, Nowhere, b)
  {
    Place(t, b);
    assert TaggedAt(t.nodes, ids, Nowhere, b);
    forall i | 0 <= i < MAP_SIZE
      ensures Ought(t'.nodes, ids, b, i) == Ought(t.nodes, ids, b, i)
    {
      ShrinkOught(t, ids, t', b, i);
    }
  }

  lemma {:induction false} ShrinkRootTag(t: Tree, ids: map<nat, int>, t': Tree)
    requires Sound(t, ids) && OnlyFirst(t) && t' == Shrunk(t)
    ensures t'.free == AnyFree(t'.nodes[Child(t.head.node, 0)])
  {
    var a := t.head.node;
    assert TaggedAt(t.nodes, ids, Nowhere, a);
    assert t.nodes[a].free[0] == Ought(t.nodes, ids, a, 0);
  }

  lemma {:induction false} Shrink(t: Tree, ids: map<nat, int>)
    requires Sound(t, ids) && OnlyFirst(t)
    ensures Sound(Shrunk(t), ids)
  {
    var t' := Shrunk(t);
    ShrinkLinks(t, ids);
    ShrinkStored(t, ids, t');
    ShrinkRootTag(t, ids, t');
    forall b | b in t'.nodes
      ensures TaggedAt(t'.nodes, ids, Nowhere, b)
    {
      ShrinkTaggedAt(t, ids, t', b);
    }
  }
}
