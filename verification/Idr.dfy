/** `lib/idr.c` over `lib/radix-tree.c`: the tree is walked and written through its links, tags
    and counts; `ids` is the partial map it stands for. */
module Idr {

  import opened Machine
  import opened RadixShape
  import opened RadixSteps

  /** Where a pointer to an entry is kept: the root, or a slot of a node. */
  datatype Slot = HeadSlot | SlotOf(node: Addr, offset: nat)

  /** `shift_maxindex`. */
  function MaxIndex(level: nat): nat {
    FirstPositive(level + 1, 1);
    First(level + 1, 1) - 1
  }

  lemma {:induction false} FirstPositive(level: nat, q: nat)
    ensures First(level, q) >= q
    decreases level
  {
    if level > 0 {
      FirstPositive(level - 1, q * 16);
    }
  }

  lemma {:induction false} Reach(level: nat, x: nat)
    ensures x <= MaxIndex(level) <==> Prefix(x, level + 1) == 0
  {
    FirstPrefix(level + 1, 1, x);
  }

  lemma {:induction false} WordReach()
    ensures MaxIndex(LEVELS - 1) == WORD - 1
  {
    assert First(8, 1) == First(7, 16) == First(6, 0x100) == First(5, 0x1000) == First(4, 0x1_0000);
    assert First(4, 0x1_0000) == First(3, 0x10_0000) == First(2, 0x100_0000) == First(1, 0x1000_0000) == First(0,
        0x1_0000_0000);
  }

  // ---------------------------------------------------------------- the arithmetic of a search

  lemma {:induction false} PrefixMono(x: nat, y: nat, level: nat)
    requires x <= y
    ensures Prefix(x, level) <= Prefix(y, level)
  {
    FirstPrefix(level, Prefix(x, level), x);
    FirstPrefix(level, Prefix(x, level), y);
  }

  lemma {:induction false} FirstMono(level: nat, p: nat, q: nat)
    requires p <= q
    ensures First(level, p) <= First(level, q)
  {
    FirstPrefix(level, p, 0);
    FirstPrefix(level, p, First(level, q));
    FirstPrefix(level, q, First(level, q));
  }

  /** The word is a whole number of subtrees of any level. */
  lemma {:induction false} WordWhole(level: nat) returns (q: nat)
    requires level <= LEVELS
    ensures First(level, q) == WORD
    decreases LEVELS - level
  {
    if level == LEVELS {
      WordReach();
      q := 1;
    } else {
      q := WordWhole(level + 1);
      q := q * 16;
    }
  }

  /** `next_index` of a slot within a node that covers `x` stays within the word. */
  lemma {:induction false} NextInWord(level: nat, x: nat, i: nat)
    requires level < LEVELS && x < WORD && i <= MAP_SIZE
    ensures First(level, Kid(Prefix(x, level + 1), i)) <= WORD
  {
    var q := WordWhole(level + 1);
    FirstPrefix(level + 1, q, x);
    FirstMono(level, Kid(Prefix(x, level + 1), i), (Prefix(x, level + 1) + 1) * 16);
    FirstMono(level + 1, Prefix(x, level + 1) + 1, q);
  }

  /** All indices from `from` up to `to` are taken. */
  ghost predicate Taken(ids: map<nat, int>, from: nat, to: nat) {
    forall x :: from <= x < to ==> x in ids
  }

  /** Slots without free tag are skipped rightly. */
  lemma {:induction false} SkipTaken(t: Tree, ids: map<nat, int>, a: Addr, start: nat, j: nat)
    requires Sound(t, ids) && a in t.nodes && a.prefix == Prefix(start, a.level + 1)
    requires Prefix(start, a.level) % 16 < j <= MAP_SIZE
    requires |t.nodes[a].free| == MAP_SIZE && forall i :: Prefix(start, a.level) % 16 <= i < j ==> !t.nodes[a].free[i]
    ensures start < First(a.level, Kid(a.prefix, j)) && Taken(ids, start, First(a.level, Kid(a.prefix, j)))
  {
    var offset := Prefix(start, a.level) % 16;
    assert Prefix(start, a.level) == Kid(a.prefix, offset);
    FirstPrefix(a.level, Kid(a.prefix, j), start);
    forall x | start <= x < First(a.level, Kid(a.prefix, j))
      ensures x in ids
    {
      FirstPrefix(a.level, Kid(a.prefix, j), x);
      PrefixMono(start, x, a.level);
      var i := Prefix(x, a.level) - Kid(a.prefix, 0);
      assert Prefix(x, a.level) == Kid(a.prefix, i) && offset <= i < j;
      TagMeaning(t, ids, a, i);
    }
  }

  /** How a round of the search ends. */
  datatype Status = Going | Full | Beyond

  /** The local variables of `idr_get_free`. */
  datatype Search = Search(start: nat, levels: nat, node: Link, offset: nat, slot: Slot, child: Entry)

  class Root {
    var head: Entry
    var free: bool
    var nodes: Nodes
    ghost var ids: map<nat, int>

    ghost function Snapshot(): Tree
      reads this
    {
      Tree(head, free, nodes)
    }

    ghost predicate Valid()
      reads this
    {
      Sound(Snapshot(), ids)
    }

    /** `radix_tree_load_root`: the number of levels and the largest index in reach. */
    method LoadRoot() returns (levels: nat, maxindex: nat)
      requires Valid()
      ensures head.Internal? ==> levels == head.node.level + 1 && maxindex == MaxIndex(head.node.level)
      ensures head.Null? ==> levels == 0 && maxindex == 0
    {
      if head.Internal? {
        assert LinkedAt(nodes, head.node.level, head.node);
        return nodes[head.node].level + 1, MaxIndex(nodes[head.node].level);
      }
      return 0, 0;
    }

    /** `radix_tree_extend`. */
    method Extend(index: nat, levels: nat) returns (levels': nat)
      requires Valid() && index < WORD
      requires (head.Internal? ==> levels == head.node.level + 1 && index > MaxIndex(head.node.level))
      requires head.Null? ==> levels == 0
      modifies this`head, this`free, this`nodes
      ensures Valid() && 0 < levels' <= LEVELS && Prefix(index, levels') == 0
      ensures if old(head).Null? then head == old(head) else head == Internal(Addr(levels' - 1, 0))
    {
      var max := levels;
      WordReach();
      Reach(LEVELS - 1, index);
      if levels > 0 {
        assert LinkedAt(nodes, head.node.level, head.node);
      }
      while index > MaxIndex(max)
        invariant levels <= max < LEVELS
        decreases LEVELS - max
      {
        assert max != LEVELS - 1;
        max := max + 1;
      }
      Reach(max, index);
      if head == Null {
        return max + 1;
      }
      var level := levels;
      while level <= max
        invariant Valid() && levels <= level <= max + 1 && level > 0 && head == Internal(Addr(level - 1, 0))
      {
        Grow(Snapshot(), ids);
        AddLevel(level);
        level := level + 1;
      }
      return max + 1;
    }

    method AddLevel(level: nat)
      requires level > 0 && head == Internal(Addr(level - 1, 0)) && head.node in nodes
      modifies this`head, this`free, this`nodes
      ensures Snapshot() == Grown(old(Snapshot()))
    {
      var a := Addr(level, 0);
      var node := NewNode(level, 0, None).(count := 1);
      if !free {
        node := node.(free := node.free[0 := false]);
        free := true;
      }
      var child := head.node;
      nodes := nodes[child := nodes[child].(parent := Some(a))];
      node := node.(slots := node.slots[0 := head]);
      nodes := nodes[a := node];
      head := Internal(a);
      assert node.free == NewNode(level, 0, None).free[0 := old(free)];
      assert nodes == Grown(old(Snapshot())).nodes;
    }

    /** `child` is where the search goes next, on the way to index `start`. */
    ghost predicate Searching(v: Search)
      reads this
    {
      true == (v.start < WORD
      && match v.node
         case None => v.child == head && 0 < v.levels <= LEVELS && Prefix(v.start, v.levels) == 0
                   && (if head.Internal? then v.levels == head.node.level + 1 else v.slot == HeadSlot && v.offset == 0)
         case Some(a) => OnNode(v, a) && v.offset < MAP_SIZE && v.child == nodes[a].slots[v.offset]
                         && (v.levels == 0 ==> nodes[a].free[v.offset]))
    }

    ghost predicate OnNode(v: Search, a: Addr)
      reads this
    {
      true == (a in nodes && a.level == v.levels && |nodes[a].slots| == |nodes[a].free| == MAP_SIZE
      && a.prefix == Prefix(v.start, v.levels + 1) && v.offset == Prefix(v.start, v.levels) % 16
      && v.slot == SlotOf(a, v.offset))
    }

    /** The node that is to be visited, allocated if need be. */
    method Visit(v: Search) returns (a: Addr)
      requires Valid() && Searching(v) && v.levels > 0
      modifies this`head, this`nodes
      ensures Valid() && a == Addr(v.levels - 1, Prefix(v.start, v.levels)) && a in nodes
      ensures v.node.None? ==> head.Internal?
    {
      if v.node.Some? {
        assert LinkedAt(nodes, head.node.level, v.node.addr);
        assert Child(v.node.addr, v.offset) == Addr(v.levels - 1, Prefix(v.start, v.levels));
      }
      if v.child == Null {
        a := Addr(v.levels - 1, Prefix(v.start, v.levels));
        match v.node {
          case None =>
            AllocRoot(Snapshot(), ids, v.levels - 1);
            nodes := nodes[a := NewNode(v.levels - 1, v.offset, v.node)];
            head := Internal(a);
            assert Snapshot() == WithRoot(old(Snapshot()), v.levels - 1);
          case Some(p) =>
            AllocChild(Snapshot(), ids, p, v.offset);
            nodes := nodes[a := NewNode(v.levels - 1, v.offset, v.node)];
            nodes := nodes[p := SetSlot(nodes[p], v.offset, Internal(a), 1)];
            assert Snapshot() == WithChild(old(Snapshot()), p, v.offset);
        }
      } else {
        a := v.child.node;
      }
    }

    /** `radix_tree_find_next_bit` on the free tags. */
    method FindNextBit(a: Addr, from: nat) returns (j: nat)
      requires a in nodes && |nodes[a].free| == MAP_SIZE && from <= MAP_SIZE
      ensures from <= j <= MAP_SIZE && (j < MAP_SIZE ==> nodes[a].free[j])
      ensures forall i :: from <= i < j ==> !nodes[a].free[i]
    {
      j := from;
      while j < MAP_SIZE && !nodes[a].free[j]
        invariant from <= j <= MAP_SIZE && forall i :: from <= i < j ==> !nodes[a].free[i]
      {
        j := j + 1;
      }
    }

    /** Up to the first ancestor with a slot after the one that is done. */
    method Climb(a0: Addr, offset0: nat, ghost start: nat) returns (up: Link, offset: nat)
      requires Valid() && a0 in nodes && 0 < offset0 <= MAP_SIZE && start == First(a0.level, Kid(a0.prefix, offset0))
      ensures up.Some? ==>
        up.addr in nodes && offset < MAP_SIZE && start == First(up.addr.level, Kid(up.addr.prefix, offset))
      ensures up.Some? ==> if offset0 < MAP_SIZE then up.addr == a0 && offset == offset0 else up.addr.level > 0
      ensures up.None? ==> head.Internal? && start == MaxIndex(head.node.level) + 1
    {
      up, offset := Some(a0), offset0;
      while offset == MAP_SIZE
        invariant up.Some? && up.addr in nodes && 0 < offset <= MAP_SIZE
        invariant start == First(up.addr.level, Kid(up.addr.prefix, offset))
        invariant offset0 < MAP_SIZE ==> up.addr == a0 && offset == offset0
        invariant up.addr.level > 0 || (up.addr == a0 && offset == offset0)
        decreases LEVELS - up.addr.level, offset
      {
        var a := up.addr;
        assert LinkedAt(nodes, head.node.level, a);
        FirstUp(a.level, a.prefix + 1);
        offset := nodes[a].offset + 1;
        up := nodes[a].parent;
        if up == None {
          assert head.node == a;
          return;
        }
        assert Kid(Up(a).prefix, offset) == a.prefix + 1;
      }
    }

    /** After a slot with nothing free: the next free slot of the node, or its end, and the first index there. */
    method NextSlot(v: Search, a: Addr) returns (offset: nat, first: nat)
      requires Valid() && OnNode(v, a) && !nodes[a].free[v.offset] && v.start < WORD
      ensures 0 < offset <= MAP_SIZE && (offset < MAP_SIZE ==> nodes[a].free[offset])
      ensures first == First(a.level, Kid(a.prefix, offset)) && v.start < first <= WORD && Taken(ids, v.start, first)
    {
      assert LinkedAt(nodes, head.node.level, a);
      offset := FindNextBit(a, v.offset + 1);
      SkipTaken(Snapshot(), ids, a, v.start, offset);
      NextInWord(a.level, v.start, offset);
      first := First(a.level, Kid(Prefix(v.start, a.level + 1), offset));
    }

    /** The search goes on at this slot. */
    method Resume(b: Addr, offset: nat, start: nat) returns (v: Search)
      requires Valid() && b in nodes && offset < MAP_SIZE && start == First(b.level, Kid(b.prefix, offset)) < WORD
      requires |nodes[b].free| == MAP_SIZE && (b.level == 0 ==> nodes[b].free[offset])
      ensures Searching(v) && v.start == start
    {
      FirstPrefix(b.level, Kid(b.prefix, offset), start);
      assert LinkedAt(nodes, head.node.level, b);
      v := Search(start, nodes[b].level, Some(b), offset, SlotOf(b, offset), nodes[b].slots[offset]);
    }

    /** From such a slot on to the next free one. */
    method SkipSlots(v: Search, a: Addr, max: nat) returns (status: Status, v': Search)
      requires Valid() && OnNode(v, a) && !nodes[a].free[v.offset] && v.start <= max < WORD
      ensures status != Full ==> v.start < v'.start <= max && Taken(ids, v.start, v'.start)
      ensures status.Going? ==> Searching(v')
      ensures status.Full? ==> Taken(ids, v.start, max + 1)
      ensures status.Beyond? ==> head.Internal? && v'.start == MaxIndex(head.node.level) + 1 && v'.start < WORD
    {
      var offset, first := NextSlot(v, a);
      var start := first % WORD;
      v' := v.(start := start);
      if start > max || start == 0 {
        return Full, v';
      }
      var up, offset' := Climb(a, offset, start);
      if up == None {
        return Beyond, v';
      }
      assert LinkedAt(nodes, head.node.level, up.addr);
      v' := Resume(up.addr, offset', start);
      return Going, v';
    }

    /** One round of the loop of `idr_get_free`. */
    method Step(v: Search, max: nat) returns (status: Status, v': Search)
      requires Valid() && Searching(v) && v.levels > 0 && v.start <= max < WORD
      modifies this`head, this`nodes
      ensures Valid()
      ensures status != Full ==>
        v.start <= v'.start <= max && Taken(ids, v.start, v'.start) && (v'.start == v.start ==> v'.levels < v.levels)
      ensures status.Going? ==> Searching(v')
      ensures status.Full? ==> Taken(ids, v.start, max + 1)
      ensures status.Beyond? ==> head.Internal? && v.start < v'.start == MaxIndex(head.node.level) + 1 < WORD
    {
      var a := Visit(v);
      assert LinkedAt(nodes, head.node.level, a);
      var offset := Prefix(v.start, a.level) % 16;
      v' := Search(v.start, v.levels - 1, Some(a), offset, SlotOf(a, offset), nodes[a].slots[offset]);
      if nodes[a].free[offset] {
        return Going, v';
      }
      status, v' := SkipSlots(v', a, max);
    }

    /** One pass of `idr_get_free` from the root. */
    method Pass(v0: Search, max: nat) returns (status: Status, v: Search)
      requires Valid() && Searching(v0) && v0.levels > 0 && v0.start <= max < WORD
      modifies this`head, this`nodes
      ensures Valid()
      ensures status != Full ==> v0.start <= v.start <= max && Taken(ids, v0.start, v.start)
      ensures status.Going? ==> Searching(v) && v.levels == 0
      ensures status.Full? ==> Taken(ids, v0.start, max + 1)
      ensures status.Beyond? ==> head.Internal? && v0.start < v.start == MaxIndex(head.node.level) + 1 < WORD
    {
      v := v0;
      status := Going;
      while v.levels > 0
        invariant Valid() && Searching(v) && v0.start <= v.start <= max && Taken(ids, v0.start, v.start)
        invariant status == Going
        decreases max - v.start, v.levels
      {
        status, v := Step(v, max);
        if status != Going {
          return;
        }
      }
    }

    /** What the root tag says when it is clear: everything in reach is taken. */
    lemma NothingFree(start: nat)
      requires Valid() && !free
      ensures head.Internal? && Taken(ids, start, MaxIndex(head.node.level) + 1)
    {
      RootTagMeaning(Snapshot(), ids);
      forall x | start <= x < MaxIndex(head.node.level) + 1
        ensures x in ids
      {
        Reach(head.node.level, x);
      }
    }

    /** The head of `idr_get_free`, at the label `grow`. */
    method Start(v0: Search, max: nat) returns (full: bool, v: Search)
      requires Valid() && v0.start < WORD && max < WORD && v0.node == None
      requires (head.Null? ==> v0.slot == HeadSlot && v0.offset == 0)
      modifies this`head, this`free, this`nodes
      ensures Valid() && v0.start <= v.start < WORD && Taken(ids, v0.start, v.start)
      ensures full == (v.start > max) && (!full ==> Searching(v) && v.levels > 0)
    {
      v := v0;
      var levels, maxindex := LoadRoot();
      if !free {
        NothingFree(v.start);
        if v.start < (maxindex + 1) % WORD {
          v := v.(start := (maxindex + 1) % WORD);
        }
      }
      if v.start > max {
        return true, v;
      }
      if v.start > maxindex {
        levels := Extend(v.start, levels);
      } else if head.Internal? {
        Reach(head.node.level, v.start);
        assert LinkedAt(nodes, head.node.level, head.node);
      }
      if v.start == 0 && levels == 0 {
        levels := 1;
      }
      full, v := false, v.(levels := levels, child := head);
    }

    lemma AtLeaf(v: Search)
      requires Valid() && Searching(v) && v.levels == 0
      ensures v.start !in ids && v.node == Some(LeafOf(v.start)) && LeafOf(v.start) in nodes
      ensures v.offset == v.start % 16 && v.slot == SlotOf(LeafOf(v.start), v.offset)
    {
      assert Prefix(v.start, 1) == v.start / 16;
      assert TaggedAt(nodes, ids, Nowhere, LeafOf(v.start));
      assert Kid(v.start / 16, v.offset) == v.start;
    }

    /** `idr_get_free`: the least free index from `start` to `max`, or none. */
    method GetFree(start: nat, max: nat) returns (found: bool, v: Search)
      requires Valid() && start < WORD && max < WORD
      modifies this`head, this`free, this`nodes
      ensures Valid()
      ensures !found ==> Taken(ids, start, max + 1)
      ensures found ==> start <= v.start <= max && v.start !in ids && Taken(ids, start, v.start)
      ensures found ==>
          LeafOf(v.start) in nodes && v.node == Some(LeafOf(v.start)) && v.offset == v.start % 16
          && v.slot == SlotOf(LeafOf(v.start), v.offset)
    {
      v := Search(start, 0, None, 0, HeadSlot, Null);
      while true
        invariant Valid() && start <= v.start < WORD && Taken(ids, start, v.start) && v.node == None
        invariant head.Null? ==> v.slot == HeadSlot && v.offset == 0
        decreases WORD - v.start
      {
        var full, status;
        full, v := Start(v, max);
        if full {
          return false, v;
        }
        status, v := Pass(v, max);
        if status == Full {
          return false, v;
        }
        if status == Going {
          AtLeaf(v);
          return true, v;
        }
        v := v.(node := None);
      }
    }

    /** Only the tag of one slot, or of the root, may be wrong; it ought to be `on`. */
    ghost predicate Retagging(was: Tree, node: Link, offset: nat, on: bool)
      reads this
    {
      true == (Linked(Snapshot()) && SameButTags(was, Snapshot()) && head.Internal?
      && match node
         case Some(a) => a in nodes && offset < MAP_SIZE && Tagged(Snapshot(), ids, TagOf(a, offset))
                         && (Ought(nodes, ids, a, offset) <==> on)
         case None => head.node in nodes && Tagged(Snapshot(), ids, RootTag) && (AnyFree(nodes[head.node]) <==> on))
    }

    /** `tag_set` or `tag_clear` on one slot: now this tag is right, and the one above may be wrong. */
    method SetTag(a: Addr, offset: nat, on: bool, ghost was: Tree)
      requires Retagging(was, Some(a), offset, on) && a in nodes && |nodes[a].free| == MAP_SIZE
      modifies this`nodes
      ensures Linked(Snapshot()) && SameButTags(was, Snapshot()) && head.Internal? && a in nodes
      ensures Tagged(Snapshot(), ids, Above(Snapshot(), a))
      ensures |nodes[a].free| == MAP_SIZE && nodes[a].free[offset] == on
      ensures nodes[a] == old(nodes)[a].(free := nodes[a].free)
      ensures AnyFree(nodes[a]) == AnyFree(old(nodes)[a]) ==> Tagged(Snapshot(), ids, Nowhere)
    {
      ghost var t := Snapshot();
      nodes := nodes[a := nodes[a].(free := nodes[a].free[offset := on])];
      CorrectTag(t, Snapshot(), ids, a, offset);
    }

    /** On to the tag above. */
    lemma RetagAbove(was: Tree, a: Addr, on: bool)
      requires Linked(Snapshot()) && SameButTags(was, Snapshot()) && head.Internal? && a in nodes
      requires Tagged(Snapshot(), ids, Above(Snapshot(), a)) && (AnyFree(nodes[a]) <==> on)
      ensures Retagging(was, nodes[a].parent, nodes[a].offset, on)
      ensures nodes[a].parent.Some? ==> nodes[a].parent.addr.level == a.level + 1 <= LEVELS
    {
      assert LinkedAt(nodes, head.node.level, a);
      if nodes[a].parent.Some? {
        assert Child(Up(a), nodes[a].offset) == a;
      }
    }

    /** The root's tag is right too. */
    method SetRootTag(on: bool, ghost was: Tree)
      requires Retagging(was, None, 0, on)
      modifies this`free
      ensures Linked(Snapshot()) && SameButTags(was, Snapshot()) && Tagged(Snapshot(), ids, Nowhere)
    {
      CorrectRootTag(Snapshot(), ids);
      free := on;
    }

    lemma NodeSizes(a: Addr)
      requires Linked(Snapshot()) && head.Internal? && a in nodes
      ensures |nodes[a].free| == MAP_SIZE && a.level < LEVELS
    {
      assert LinkedAt(nodes, head.node.level, a);
    }

    /** `node_tag_clear`, called where nothing is free any more. */
    method NodeTagClear(node0: Link, offset0: nat)
      requires Linked(Snapshot()) && node0.Some? && node0.addr in nodes && offset0 < MAP_SIZE
      requires Tagged(Snapshot(), ids, TagOf(node0.addr, offset0)) && !Ought(nodes, ids, node0.addr, offset0)
      modifies this`free, this`nodes
      ensures Linked(Snapshot()) && SameButTags(old(Snapshot()), Snapshot()) && Tagged(Snapshot(), ids, Nowhere)
    {
      var node, offset: nat := node0, offset0;
      ghost var was := Snapshot();
      while node.Some?
        invariant Retagging(was, node, offset, false)
        decreases if node.None? then 0 else LEVELS + 1 - node.addr.level
      {
        var a := node.addr;
        NodeSizes(a);
        if !nodes[a].free[offset] {
          RightAlready(Snapshot(), ids, a, offset);
          return;
        }
        SetTag(a, offset, false, was);
        if AnyFree(nodes[a]) {
          return;
        }
        RetagAbove(was, a, false);
        offset, node := nodes[a].offset, nodes[a].parent;
      }
      SetRootTag(false, was);
    }

    /** `node_tag_set`, called where something has become free. */
    method NodeTagSet(node0: Link, offset0: nat)
      requires Linked(Snapshot()) && node0.Some? && node0.addr in nodes && offset0 < MAP_SIZE
      requires Tagged(Snapshot(), ids, TagOf(node0.addr, offset0)) && Ought(nodes, ids, node0.addr, offset0)
      modifies this`free, this`nodes
      ensures Linked(Snapshot()) && SameButTags(old(Snapshot()), Snapshot()) && Tagged(Snapshot(), ids, Nowhere)
    {
      var node, offset: nat := node0, offset0;
      ghost var was := Snapshot();
      while node.Some?
        invariant Retagging(was, node, offset, true)
        decreases if node.None? then 0 else LEVELS + 1 - node.addr.level
      {
        var a := node.addr;
        NodeSizes(a);
        if nodes[a].free[offset] {
          RightAlready(Snapshot(), ids, a, offset);
          return;
        }
        SetTag(a, offset, true, was);
        RetagAbove(was, a, true);
        offset, node := nodes[a].offset, nodes[a].parent;
      }
      SetRootTag(true, was);
    }

    /** `radix_tree_shrink`. */
    method ShrinkTree()
      requires Linked(Snapshot()) && head.Internal? && (head.node.level > 0 ==> Valid())
      modifies this`head, this`free, this`nodes
      ensures if old(head).node.level == 0 then Snapshot() == old(Snapshot()) else Valid()
    {
      while head.Internal?
        invariant Linked(Snapshot()) && if old(head).node.level == 0 then Snapshot() == old(Snapshot()) else Valid()
        decreases if head.Internal? then head.node.level + 1 else 0
      {
        var a := head.node;
        assert LinkedAt(nodes, a.level, a);
        var node := nodes[a];
        if node.count != 1 {
          break;
        }
        var child := node.slots[0];
        if child == Null {
          break;
        }
        if node.level == 0 {
          break;
        }
        FindOnlyFirst(Snapshot());
        Shrink(Snapshot(), ids);
        ghost var t := Snapshot();
        nodes := nodes[child.node := nodes[child.node].(parent := None)];
        head := child;
        if !node.free[0] {
          free := false;
        }
        nodes := nodes - {a};
        assert Snapshot() == Shrunk(t);
      }
    }

    /** `delete_node`; a leaf in use stays, whatever the state of its tags. */
    method DeleteNode(a0: Addr)
      requires Linked(Snapshot()) && a0 in nodes && (Valid() || (a0.level == 0 && nodes[a0].count != 0))
      modifies this`head, this`free, this`nodes
      ensures if a0.level == 0 && old(nodes)[a0].count != 0 then Snapshot() == old(Snapshot()) else Valid()
    {
      var a := a0;
      while true
        invariant Linked(Snapshot()) && a in nodes && head.Internal?
        invariant if a0.level == 0 && old(nodes)[a0].count != 0 then a == a0 && Snapshot() == old(Snapshot())
          else Valid()
        decreases LEVELS - a.level
      {
        assert LinkedAt(nodes, head.node.level, a);
        if nodes[a].count != 0 {
          if head == Internal(a) {
            ShrinkTree();
          }
          return;
        }
        var parent := nodes[a].parent;
        if parent == None {
          DropRoot(Snapshot(), ids);
          nodes := nodes - {a};
          head := Null;
          return;
        }
        Drop(Snapshot(), ids, a);
        var p := parent.addr;
        nodes := nodes[p := SetSlot(nodes[p], nodes[a].offset, Null, -1)];
        nodes := nodes - {a};
        a := p;
      }
    }

    /** `__radix_tree_replace` on a leaf slot, before `delete_node`: `ids'` is what it makes of
        the map. */
    method WriteSlot(x: nat, item: Entry, ghost ids': map<nat, int>)
      requires Valid() && LeafOf(x) in nodes && AgreeBut(ids, ids', x) && x in ids' && item == Wrap(ids'[x])
      modifies this`nodes, this`ids
      ensures Linked(Snapshot()) && Stored(Snapshot(), ids) && Tagged(Snapshot(), ids, TagOf(LeafOf(x), x % 16))
      ensures ids == ids' && LeafOf(x) in nodes
      ensures nodes[LeafOf(x)].count > 0 && (x in old(ids) ==> Valid())
    {
      var a, i := LeafOf(x), x % 16;
      assert LinkedAt(nodes, head.node.level, a) && StoredAt(ids, a, nodes[a]) && TaggedAt(nodes, ids, Nowhere, a);
      assert Kid(a.prefix, i) == x;
      var old_ := nodes[a].slots[i];
      var count := if !nodes[a].free[i] then 0 else if old_ == Null then 1 else (if item != Null then 1 else 0) - 1;
      ghost var t := Snapshot();
      TagsOfOthers(t, ids, ids', x);
      WriteLeafTags(t, ids', TagOf(a, i), a, i, item, count);
      WriteLeaf(t, ids, ids', x, item, count);
      if x in ids {
        RightAlready(t, ids', a, i);
        WriteLeafTags(t, ids', Nowhere, a, i, item, count);
      }
      nodes := nodes[a := SetSlot(nodes[a], i, item, count)];
      ids := ids';
      assert StoredAt(ids, a, nodes[a]) && i in Users(ids, a, nodes[a]);
    }

    /** `idr_alloc_u32` in terms of indices: the least free one from `start` to `max` is taken. */
    method AllocIndex(ptr: int, start: nat, max: nat) returns (found: bool, x: nat)
      requires Valid() && start < WORD && max < WORD
      modifies this
      ensures Valid()
      ensures found ==> start <= x <= max && x !in old(ids) && Taken(old(ids), start, x) && ids == old(ids)[x := ptr]
      ensures !found ==> Taken(old(ids), start, max + 1) && ids == old(ids)
    {
      var v;
      found, v := GetFree(start, max);
      x := v.start;
      if found {
        WriteSlot(x, Wrap(ptr), ids[x := ptr]);
        DeleteNode(v.node.addr);
        ghost var t := Snapshot();
        assert Kid(LeafOf(x).prefix, x % 16) == x;
        NodeTagClear(v.node, v.offset);
        SameLinks(t, Snapshot());
      }
    }

    /** Where a lookup of `index` may end: at its leaf, or at a slot above with nothing below. */
    ghost predicate EndsAt(index: nat, node: Link, offset: nat)
      reads this
    {
      match node
      case None => head.Null?
      case Some(a) =>
        a in nodes && a.prefix == Prefix(index, a.level + 1) && offset == Prefix(index, a.level) % 16
        && |nodes[a].slots| == |nodes[a].free| == MAP_SIZE && (a.level == 0 || nodes[a].slots[offset] == Null)
    }

    /** `__radix_tree_lookup`; `hit` says that `*slotp` was set. */
    method Lookup(index: nat) returns (entry: Entry, hit: bool, node: Link, offset: nat)
      requires Valid()
      ensures hit == (index <= if head.Internal? then MaxIndex(head.node.level) else 0)
      ensures hit ==>
        EndsAt(index, node, offset) && entry == if node.Some? then nodes[node.addr].slots[offset] else Null
      ensures !hit ==> entry == Null
    {
      var levels, maxindex := LoadRoot();
      node, offset, entry := None, 0, Null;
      if index > maxindex {
        return Null, false, None, 0;
      }
      hit, entry := true, head;
      if head.Internal? {
        Reach(head.node.level, index);
      }
      while entry.Internal?
        invariant match entry
          case Internal(a) => a in nodes && a.prefix == Prefix(index, a.level + 1)
          case _ => EndsAt(index, node, offset) && entry == if node.Some? then nodes[node.addr].slots[offset] else Null
        decreases if entry.Internal? then entry.node.level + 1 else 0
      {
        var a := entry.node;
        assert LinkedAt(nodes, head.node.level, a);
        node := Some(a);
        offset := Prefix(index, nodes[a].level) % 16;
        entry := nodes[a].slots[offset];
        if nodes[a].level == 0 {
          break;
        }
        assert Child(a, offset).prefix == Prefix(index, a.level);
      }
    }

    /** Where a lookup ends shows whether the index is in use, and what it holds. */
    lemma LookupEnd(index: nat, node: Link, offset: nat)
      requires Valid() && EndsAt(index, node, offset)
      ensures (if node.Some? then nodes[node.addr].free[offset] else free) <==> index !in ids
      ensures index in ids ==>
        node == Some(LeafOf(index)) && offset == index % 16 && nodes[LeafOf(index)].slots[offset] == Wrap(ids[index])
      ensures index !in ids && node.Some? ==> nodes[node.addr].slots[offset] == Null
    {
      if node.Some? {
        var a := node.addr;
        assert LinkedAt(nodes, head.node.level, a) && TaggedAt(nodes, ids, Nowhere, a) && StoredAt(ids, a, nodes[a]);
        if a.level == 0 {
          assert Prefix(index, 1) == index / 16 && Kid(a.prefix, offset) == index;
        } else {
          assert Child(a, offset) == Addr(a.level - 1, Prefix(index, a.level)) && Child(a, offset) !in nodes;
          if index in ids {
            Covered(Snapshot(), ids, index, a.level - 1);
          }
        }
      }
    }

    /** Beyond the reach of the tree nothing is in use. */
    lemma BeyondReach(index: nat)
      requires Valid() && index in ids
      ensures head.Internal? && index <= MaxIndex(head.node.level)
    {
      Covered(Snapshot(), ids, index, head.node.level);
      Place(Snapshot(), Addr(head.node.level, Prefix(index, head.node.level + 1)));
      Reach(head.node.level, index);
    }

    /** `radix_tree_lookup`. */
    method Find(index: nat) returns (entry: Entry)
      requires Valid()
      ensures entry == if index in ids then Wrap(ids[index]) else Null
    {
      var hit, node, offset;
      entry, hit, node, offset := Lookup(index);
      if hit {
        LookupEnd(index, node, offset);
      } else if index in ids {
        BeyondReach(index);
      }
    }

    /** `radix_tree_tag_get` for `IDR_FREE`: for an index in reach, whether it is free. */
    method TagGet(index: nat) returns (set_: bool)
      requires Valid()
      ensures set_ == (index !in ids && index <= if head.Internal? then MaxIndex(head.node.level) else 0)
    {
      if !free {
        NothingFree(0);
        return false;
      }
      var levels, maxindex := LoadRoot();
      if index > maxindex {
        return false;
      }
      var node := head;
      if head.Internal? {
        Reach(head.node.level, index);
      } else {
        RootTagMeaning(Snapshot(), ids);
      }
      while node.Internal?
        invariant if node.Internal? then node.node in nodes && node.node.prefix == Prefix(index, node.node.level + 1)
          else index !in ids
        decreases if node.Internal? then node.node.level + 1 else 0
      {
        var a := node.node;
        assert LinkedAt(nodes, head.node.level, a);
        var offset := Prefix(index, nodes[a].level) % 16;
        assert Prefix(index, a.level) == Kid(a.prefix, offset);
        TagMeaning(Snapshot(), ids, a, offset);
        if !nodes[a].free[offset] {
          return false;
        }
        node := nodes[a].slots[offset];
        if !node.Internal? {
          LookupEnd(index, Some(a), offset);
        }
      }
      return true;
    }

    /** `radix_tree_delete_item` with no expected item. */
    method Delete(index: nat) returns (entry: Entry)
      requires Valid()
      modifies this
      ensures Valid() && ids == old(ids) - {index}
      ensures entry == if index in old(ids) then Wrap(old(ids)[index]) else Null
    {
      var hit, node, offset;
      entry, hit, node, offset := Lookup(index);
      if !hit {
        assert index !in ids by {
          if index in ids {
            BeyondReach(index);
          }
        }
        return Null;
      }
      LookupEnd(index, node, offset);
      if entry == Null && (if node.Some? then nodes[node.addr].free[offset] else free) {
        return Null;
      }
      DeleteSlot(index, node.addr, offset);
    }

    /** `__radix_tree_delete`. */
    method DeleteSlot(index: nat, a: Addr, offset: nat)
      requires Valid() && index in ids && a == LeafOf(index) && offset == index % 16 && a in nodes
      modifies this
      ensures Valid() && ids == old(ids) - {index}
    {
      ghost var ids' := ids - {index};
      assert Kid(a.prefix, offset) == index;
      ghost var t := Snapshot();
      TagsOfOthers(t, ids, ids', index);
      ids := ids';
      NodeTagSet(Some(a), offset);
      SameLinks(t, Snapshot());
      assert LinkedAt(nodes, head.node.level, a);
      WriteLeafTags(Snapshot(), ids', Nowhere, a, offset, Null, -1);
      WriteLeaf(Snapshot(), old(ids), ids', index, Null, -1);
      nodes := nodes[a := SetSlot(nodes[a], offset, Null, -1)];
      DeleteNode(a);
    }

    /** `idr_replace` in terms of indices. */
    method ReplaceIndex(ptr: int, index: nat) returns (found: bool, entry: Entry)
      requires Valid()
      modifies this
      ensures Valid() && found == (index in old(ids)) && !entry.Internal?
      ensures if found then entry == Wrap(old(ids)[index]) && ids == old(ids)[index := ptr] else ids == old(ids)
    {
      var hit, node, offset;
      entry, hit, node, offset := Lookup(index);
      var isFree := TagGet(index);
      if !hit || isFree {
        assert index !in ids by {
          if index in ids {
            BeyondReach(index);
          }
        }
        return false, Null;
      }
      LookupEnd(index, node, offset);
      WriteSlot(index, Wrap(ptr), ids[index := ptr]);
      DeleteNode(node.addr);
      found := true;
    }

    constructor ()
      ensures Valid() && ids == map[]
    {
      head, free, nodes, ids := Null, true, map[], map[];
    }
  }

  // ---------------------------------------------------------------- ids

  predicate IsInt(x: int) {
    -0x8000_0000 <= x <= 0x7fff_ffff
  }

  datatype Result = Id(id: nat) | ENOSPC | EINVAL

  /** A pointer, `NULL` being 0. */
  function Pointer(e: Entry): int
    requires !e.Internal?
  {
    if e.Null? then 0 else e.ptr
  }

  /** `struct idr`. */
  class Table {
    const root: Root
    const base: nat
    var next: nat

    ghost predicate Valid()
      reads this, root
    {
      root.Valid() && base < WORD && next < WORD
    }

    /** `idr_init_base`. */
    constructor (base: nat)
      requires base < WORD
      ensures Valid() && fresh(root) && root.ids == map[] && this.base == base && next == 0
    {
      this.base := base;
      next := 0;
      root := new Root();
    }

    /** The outcome of an allocation in `lo..hi`: the lowest free id, or none is free. */
    ghost predicate Lowest(was: map<nat, int>, now: map<nat, int>, ptr: int, lo: int, hi: int, r: Result) {
      match r
      case Id(id) =>
        lo <= id <= hi && base <= id && Index(id) !in was && now == was[Index(id) := ptr] && AllUsed(was, lo, id - 1)
      case ENOSPC => now == was && AllUsed(was, lo, hi)
      case EINVAL => now == was
    }

    ghost predicate AllUsed(was: map<nat, int>, lo: int, hi: int) {
      forall y: nat :: lo <= y <= hi && base <= y ==> Index(y) in was
    }

    /** The index of an id, in unsigned arithmetic. */
    function Index(id: nat): (x: nat)
      ensures base <= id < WORD ==> x == id - base
    {
      (id + WORD - base) % WORD
    }

    /** The last id of the range that ends before `end`; `end <= 0` stands for no limit. */
    static function Last(end: int): (max: nat)
      ensures end > 0 ==> max + 1 == end
      ensures end <= 0 ==> max == 0x7fff_ffff
    {
      if end > 0 then end - 1 else INT_MAX
    }

    lemma IndexOf(x: nat)
      requires x + base < WORD
      ensures Index(x + base) == x
    {}

    /** Taken indices are used ids. */
    lemma TakenUsed(was: map<nat, int>, nextid: nat, to: nat)
      requires to + base <= WORD && base < WORD && Taken(was, if nextid < base then 0 else nextid - base, to)
      ensures AllUsed(was, nextid, to + base - 1)
    {
      forall y: nat | nextid <= y <= to + base - 1 && base <= y
        ensures Index(y) in was
      {
        IndexOf(y - base);
      }
    }

    /** Where the search for an id from `nextid` on starts. */
    function First(nextid: nat): nat {
      if nextid < base then 0 else nextid - base
    }

    /** No index from that of `nextid` to that of `max` is free. */
    ghost predicate Exhausted(was: map<nat, int>, nextid: nat, max: nat) {
      Taken(was, First(nextid), Index(max) + 1)
    }

    /** The outcome in terms of indices, whatever the base: the first free one, if there is one, and no other. */
    ghost predicate Given(was: map<nat, int>, now: map<nat, int>, ptr: int, nextid: nat, max: nat, r: Result) {
      true == (if Exhausted(was, nextid, max) then r == ENOSPC && now == was
      else
        r.Id? && r.id < WORD && First(nextid) <= Index(r.id) <= Index(max) && Index(r.id) !in was
        && Taken(was, First(nextid), Index(r.id)) && now == was[Index(r.id) := ptr])
    }

    lemma IndexBack(x: nat)
      requires x < WORD && base < WORD
      ensures Index((x + base) % WORD) == x
    {}

    /** With `max` below the base the bound wraps around: whatever is allocated then is no id of the range. */
    lemma GivenLowest(was: map<nat, int>, now: map<nat, int>, ptr: int, nextid: nat, max: nat, r: Result)
      requires base < WORD && nextid < WORD && max < WORD && Given(was, now, ptr, nextid, max, r)
      ensures base <= max ==> Lowest(was, now, ptr, nextid, max, r)
      ensures base > max ==> (Lowest(was, now, ptr, nextid, max, r) <==> Exhausted(was, nextid, max))
    {
      if base <= max {
        GivenWithin(was, now, ptr, nextid, max, r);
      }
    }

    lemma GivenWithin(was: map<nat, int>, now: map<nat, int>, ptr: int, nextid: nat, max: nat, r: Result)
      requires base <= max < WORD && nextid < WORD && Given(was, now, ptr, nextid, max, r)
      ensures Lowest(was, now, ptr, nextid, max, r)
    {
      if r.Id? {
        IndexWithin(nextid, max, r.id);
        TakenUsed(was, nextid, Index(r.id));
      } else {
        TakenUsed(was, nextid, Index(max) + 1);
      }
    }

    lemma IndexWithin(nextid: nat, max: nat, id: nat)
      requires base <= max < WORD && nextid < WORD && id < WORD && First(nextid) <= Index(id) <= Index(max)
      ensures base <= id <= max && nextid <= id && Index(id) == id - base && Index(max) == max - base
    {}

    /** In an empty table it is the base itself, beyond `max`. */
    lemma BelowBase(now: map<nat, int>, ptr: int, nextid: nat, max: nat, r: Result)
      requires max < base < WORD && nextid <= base && Given(map[], now, ptr, nextid, max, r)
      ensures r == Id(base) && now == map[0 := ptr] && !Lowest(map[], now, ptr, nextid, max, r)
    {
      var was: map<nat, int> := map[];
      assert 0 !in was && First(nextid) == 0 && !Exhausted(was, nextid, max);
      assert Index(r.id) == 0 by {
        assert Taken(was, 0, Index(r.id));
      }
    }

    /** `idr_alloc_u32`. */
    method AllocU32(ptr: int, nextid: nat, max: nat) returns (r: Result)
      requires Valid() && nextid < WORD && max < WORD
      modifies root
      ensures Valid() && Given(old(root.ids), root.ids, ptr, nextid, max, r)
      ensures base <= max ==> Lowest(old(root.ids), root.ids, ptr, nextid, max, r)
      ensures base > max ==>
        (Lowest(old(root.ids), root.ids, ptr, nextid, max, r) <==> Exhausted(old(root.ids), nextid, max))
    {
      ghost var was := root.ids;
      var found, x := root.AllocIndex(ptr, if nextid < base then 0 else nextid - base, Index(max));
      if found {
        IndexBack(x);
        assert !Exhausted(was, nextid, max);
      }
      r := if found then Id((x + base) % WORD) else ENOSPC;
      GivenLowest(was, root.ids, ptr, nextid, max, r);
    }

    /** `idr_alloc`. */
    method Alloc(ptr: int, start: int, end: int) returns (r: Result)
      requires Valid() && IsInt(start) && IsInt(end)
      modifies root
      ensures Valid() && (r.EINVAL? <==> start < 0)
      ensures if start < 0 then root.ids == old(root.ids)
        else Given(old(root.ids), root.ids, ptr, start, Last(end), r)
      ensures start >= 0 && base <= Last(end) ==> Lowest(old(root.ids), root.ids, ptr, start, Last(end), r)
    {
      if start < 0 {
        return EINVAL;
      }
      r := AllocU32(ptr, start, Last(end));
    }

    /** The first id that `idr_alloc_cyclic` tries: the cursor, unless as an `int` it is below `start`. */
    static function From(next: nat, start: int): (from: nat)
      requires next < WORD && IsInt(start)
      ensures start >= 0 && next <= INT_MAX ==> from >= next && from >= start && (from == next || from == start)
      ensures start >= 0 && next > INT_MAX ==> from == start
      ensures start < 0 && next <= INT_MAX ==> from == next
    {
      if (if next > INT_MAX then next - WORD else next) < start then start % WORD else next
    }

    /** The outcome of an attempt from `from` on and, if that finds nothing, one from `again` on. */
    ghost predicate Cyclic(was: map<nat, int>, now: map<nat, int>, ptr: int, from: nat, again: nat, max: nat, r: Result)
    {
      if from > again && Exhausted(was, from, max) then Given(was, now, ptr, again, max, r)
      else Given(was, now, ptr, from, max, r)
    }

    static lemma Unsigned(start: int)
      requires IsInt(start)
      ensures if start < 0 then start % WORD == start + WORD > INT_MAX else start % WORD == start
    {}

    /** The lowest free id from the cursor on, else from `start` on. A negative `start` is a large id when it comes to
        the second attempt, so then there is only one. */
    lemma CyclicLowest(was: map<nat, int>, now: map<nat, int>, ptr: int, next: nat, start: int, max: nat, r: Result)
      requires base <= max < WORD && next < WORD && IsInt(start)
      requires Cyclic(was, now, ptr, From(next, start), start % WORD, max, r)
      ensures start < 0 && max <= INT_MAX ==> Lowest(was, now, ptr, From(next, start), max, r)
      ensures start >= 0 ==>
        if AllUsed(was, From(next, start), max) then Lowest(was, now, ptr, start, max, r)
        else Lowest(was, now, ptr, From(next, start), max, r)
    {
      var from, again := From(next, start), start % WORD;
      Unsigned(start);
      ExhaustedUsed(was, from, max);
      if from > again && Exhausted(was, from, max) {
        GivenLowest(was, now, ptr, again, max, r);
      } else {
        GivenLowest(was, now, ptr, from, max, r);
      }
    }

    /** The ids below the cursor are not tried then: there is no room exactly if all from the cursor on are used, */
    lemma OneAttempt(was: map<nat, int>, now: map<nat, int>, ptr: int, next: nat, start: int, max: nat, r: Result)
      requires base <= max <= INT_MAX && next < WORD && IsInt(start) && start < 0
      requires Cyclic(was, now, ptr, From(next, start), start % WORD, max, r)
      ensures r == ENOSPC <==> AllUsed(was, From(next, start), max)
    {
      CyclicLowest(was, now, ptr, next, start, max, r);
    }

    /** though 0 may be free, as with the cursor at 1 and only 1 used of the ids up to 1. */
    lemma ZeroFree(now: map<nat, int>, ptr: int, start: int, r: Result)
      requires base == 0 && IsInt(start) && start < 0
      requires Cyclic(map[1 := 0], now, ptr, From(1, start), start % WORD, 1, r)
      ensures r == ENOSPC && !AllUsed(map[1 := 0], 0, 1)
    {
      OneAttempt(map[1 := 0], now, ptr, 1, start, 1, r);
      assert Index(0) !in map[1 := 0];
    }

    lemma ExhaustedUsed(was: map<nat, int>, nextid: nat, max: nat)
      requires base <= max < WORD
      ensures Exhausted(was, nextid, max) <==> AllUsed(was, nextid, max)
    {
      if Exhausted(was, nextid, max) {
        TakenUsed(was, nextid, Index(max) + 1);
      } else {
        var x :| First(nextid) <= x < Index(max) + 1 && x !in was;
        IndexOf(x);
      }
    }

    /** `idr_alloc_cyclic`. */
    method AllocCyclic(ptr: int, start: int, end: int) returns (r: Result)
      requires Valid() && IsInt(start) && IsInt(end)
      modifies root, this`next
      ensures Valid() && next == if r.Id? then (r.id + 1) % WORD else old(next)
      ensures Cyclic(old(root.ids), root.ids, ptr, From(old(next), start), start % WORD, Last(end), r)
    {
      var id := From(next, start);
      r := AllocU32(ptr, id, Last(end));
      if r == ENOSPC && id > start % WORD {
        r := AllocU32(ptr, start % WORD, Last(end));
      }
      if r.Id? {
        next := (r.id + 1) % WORD;
      }
    }

    /** `idr_find`; the id is an `unsigned long`. */
    method Find(id: nat) returns (ptr: int)
      requires Valid() && id < WORD
      ensures ptr == if Index(id) in root.ids then root.ids[Index(id)] else 0
    {
      var entry := root.Find(Index(id));
      ptr := Pointer(entry);
    }

    /** `idr_remove`. */
    method Remove(id: nat) returns (ptr: int)
      requires Valid() && id < WORD
      modifies root
      ensures Valid() && root.ids == old(root.ids) - {Index(id)}
      ensures ptr == if Index(id) in old(root.ids) then old(root.ids)[Index(id)] else 0
    {
      var entry := root.Delete(Index(id));
      ptr := Pointer(entry);
    }

    /** `idr_replace`; not found is `-ENOENT`. */
    method Replace(ptr: int, id: nat) returns (found: bool, old_: int)
      requires Valid() && id < WORD
      modifies root
      ensures Valid() && found == (Index(id) in old(root.ids))
      ensures if found then old_ == old(root.ids)[Index(id)] && root.ids == old(root.ids)[Index(id) := ptr]
        else root.ids == old(root.ids)
    {
      var entry;
      found, entry := root.ReplaceIndex(ptr, Index(id));
      old_ := Pointer(entry);
    }
  }
}
