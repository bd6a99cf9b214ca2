/** How much memory building and unbuilding take (src/include/cnode.hh): with
    enough of it they go through. */
module CnodeCost {
  import opened Basics
  import opened PacketExpr
  import opened RuleList
  import opened CnodeTree
  import opened CnodeBuild
  import opened CnodeClean

  // ----- The number of rules in a tree

  function Size(n: Node): nat {
    match n.split
    case Leaf => |n.rules|
    case Branch(_, bs, any) => |n.rules| + TableSize(bs) + ChainSize(any)
  }

  function ChainSize(c: Chain): nat {
    match c
    case Nil => 0
    case Link(n, k) => Size(n) + ChainSize(k)
  }

  function TableSize(bs: seq<Chain>): nat {
    if bs == [] then 0 else ChainSize(bs[0]) + TableSize(bs[1..])
  }

  lemma {:induction false} SizeIsEntries(n: Node)
    ensures |Entries(n)| == Size(n)
    decreases n
  {
    if n.split.Branch? {
      TableSizeIsEntries(n.split.buckets);
      ChainSizeIsEntries(n.split.any);
    }
  }

  lemma {:induction false} ChainSizeIsEntries(c: Chain)
    ensures |ChainEntries(c)| == ChainSize(c)
    decreases c
  {
    if c.Link? {
      SizeIsEntries(c.node);
      ChainSizeIsEntries(c.next);
    }
  }

  lemma {:induction false} TableSizeIsEntries(bs: seq<Chain>)
    ensures |TableEntries(bs)| == TableSize(bs)
    decreases bs
  {
    if bs != [] {
      ChainSizeIsEntries(bs[0]);
      TableSizeIsEntries(bs[1..]);
    }
  }

  /** As many entries as ids, if none occurs twice. */
  lemma {:induction false} IdsCount(es: seq<(Addr, Rule)>)
    requires NoIdTwice(es)
    ensures |Ids(es)| == |es|
  {
    if es != [] {
      var last := |es| - 1;
      IdsCount(es[..last]);
      assert es == es[..last] + [es[last]];
      assert Ids(es) == Ids(es[..last]) + {es[last].1.id};
      assert es[last].1.id !in Ids(es[..last]);
    }
  }

  lemma {:induction false} NilsSize(bs: seq<Chain>)
    requires forall b | 0 <= b < |bs| :: bs[b].Nil?
    ensures TableSize(bs) == 0
  {
    if bs != [] { NilsSize(bs[1..]); }
  }

  lemma {:induction false} TableUpdateSize(bs: seq<Chain>, b: nat, c: Chain)
    requires b < |bs|
    ensures TableSize(bs[b := c]) + ChainSize(bs[b]) == TableSize(bs) + ChainSize(c)
  {
    var t := bs[b := c];
    if b == 0 {
      assert t[1..] == bs[1..];
    } else {
      assert t[1..] == bs[1..][b - 1 := c];
      TableUpdateSize(bs[1..], b - 1, c);
    }
  }

  lemma {:induction false} InsertSize(rs: seq<Rule>, r: Rule)
    ensures |Insert(rs, r)| == |rs| + 1
  {
    if rs != [] { InsertSize(rs[1..], r); }
  }

  // ----- Unbuilding

  /** Gathering takes one allocation for each rule, and goes through exactly if
      there are as many. */
  lemma {:induction false} GatherIff(acc: seq<Rule>, n: Node, h: Heap)
    ensures var g := Gather(acc, n, h);
            (g.ok <==> h.left >= Size(n)) && (g.ok ==> g.heap.left == h.left - Size(n))
    decreases n
  {
    if h.left >= |n.rules| && n.split.Branch? {
      var h1 := h.(left := h.left - |n.rules|);
      GatherTableIff(Merge(acc, n.rules), n.split.buckets, h1);
      var t := GatherTable(Merge(acc, n.rules), n.split.buckets, h1);
      if t.ok { GatherChainIff(t.rules, n.split.any, t.heap); }
    }
  }

  lemma {:induction false} GatherChainIff(acc: seq<Rule>, c: Chain, h: Heap)
    ensures var g := GatherChain(acc, c, h);
            (g.ok <==> h.left >= ChainSize(c)) && (g.ok ==> g.heap.left == h.left - ChainSize(c))
    decreases c
  {
    if c.Link? {
      GatherIff(acc, c.node, h);
      var g := Gather(acc, c.node, h);
      if g.ok { GatherChainIff(g.rules, c.next, g.heap); }
    }
  }

  lemma {:induction false} GatherTableIff(acc: seq<Rule>, bs: seq<Chain>, h: Heap)
    ensures var g := GatherTable(acc, bs, h);
            (g.ok <==> h.left >= TableSize(bs)) && (g.ok ==> g.heap.left == h.left - TableSize(bs))
    decreases bs
  {
    if bs != [] {
      GatherChainIff(acc, bs[0], h);
      var g := GatherChain(acc, bs[0], h);
      if g.ok { GatherTableIff(g.rules, bs[1..], g.heap); }
    }
  }

  /** Unbuilding a split tree takes a node and an entry for each rule, and goes
      through exactly if there is that much. */
  lemma UnbuildIff(n: Node, h: Heap, p: Ptrs)
    ensures Unbuild(n, h, p).ok <==> n.split.Leaf? || h.left >= 1 + Size(n)
  {
    if n.split.Branch? && h.left > 0 { GatherIff([], n, Heap(h.next + 1, h.left - 1)); }
  }

  // ----- Splitting

  lemma AddToNodeListSize(n: Node, r: Rule, h: Heap)
    ensures var a := AddToNodeList(n, r, h);
            a.heap.left + 1 >= h.left && (a.placed.Some? ==> Size(a.at) == Size(n) + 1)
  {
    InsertSize(n.rules, r);
  }

  lemma {:induction false} AddRuleSize(n: Node, r: Rule, path: Mask, h: Heap)
    ensures var a := AddRule(n, r, path, h);
            a.heap.left + 2 >= h.left && (a.placed.Some? ==> Size(a.at) == Size(n) + 1)
    decreases n
  {
    if n.split.Leaf? || !Splittable(r.expr, path) || n.split.buckets == [] {
      AddToNodeListSize(n, r, h);
    } else {
      var Branch(f, bs, any) := n.split;
      match GetField(r.expr, f) {
        case Some(v) =>
          var b := GetBucket(v, |bs|);
          AddToChainSize(bs[b], v, r, path + {f}, h);
          TableUpdateSize(bs, b, AddToChain(bs[b], v, r, path + {f}, h).at);
        case None =>
          AddToChainSize(any, AnyValue(any), r, path + {f}, h);
      }
    }
  }

  lemma {:induction false} AddToChainSize(c: Chain, v: uint32, r: Rule, path: Mask, h: Heap)
    ensures var a := AddToChain(c, v, r, path, h);
            a.heap.left + 2 >= h.left && (a.placed.Some? ==> ChainSize(a.at) == ChainSize(c) + 1)
    decreases c
  {
    if HasValue(c, v) {
      if c.node.value == v { AddRuleSize(c.node, r, path, h); } else { AddToChainSize(c.next, v, r, path, h); }
    }
  }

  lemma {:induction false} AddAllSize(n: Node, rs: seq<Rule>, path: Mask, h: Heap)
    requires h.left >= 2 * |rs|
    ensures var d := AddAll(n, rs, path, h);
            d.ok && Size(d.at) == Size(n) + |rs| && d.heap.left + 2 * |rs| >= h.left
    decreases |rs|
  {
    if rs != [] {
      var a := AddRule(n, rs[0], path, h);
      AddRuleIff(n, rs[0], path, h);
      AddRuleSize(n, rs[0], path, h);
      AddAllSize(a.at, rs[1..], path, a.heap);
    }
  }

  /** A split takes at most two allocations for each rule and three besides. */
  lemma SplitNodeSize(n: Node, path: Mask, isCopy: bool, h: Heap)
    requires n.split.Leaf? && h.left >= 3 + 2 * |n.rules|
    ensures var d := SplitNode(n, path, isCopy, h);
            d.ok && Size(d.at) == |n.rules| && d.heap.left + 3 + 2 * |n.rules| >= h.left
  {
    var b := Choose(n.rules, path);
    if b.Best? {
      var e := EmptyBranch(SplitAddr(n, isCopy, h), n.value, b);
      NilsSize(e.split.buckets);
      AddAllSize(e, n.rules, path, SplitHeap(isCopy, h));
    }
  }

  // ----- Building

  /** Enough for a tree of so many rules with so many fields left to split on:
      five allocations for each rule on each level. */
  function Enough(size: nat, fields: nat): nat {
    5 * size + if fields == 0 then 0 else Enough(size, fields - 1)
  }

  lemma {:induction false} EnoughIs(size: nat, fields: nat)
    ensures Enough(size, fields) == 5 * size * (fields + 1)
  {
    if fields > 0 { EnoughIs(size, fields - 1); }
  }

  lemma {:induction false} EnoughSum(a: nat, b: nat, k: nat)
    ensures Enough(a + b, k) == Enough(a, k) + Enough(b, k)
  {
    if k > 0 { EnoughSum(a, b, k - 1); }
  }

  lemma {:induction false} EnoughMore(a: nat, b: nat, k: nat, m: nat)
    requires a <= b && k <= m
    ensures Enough(a, k) <= Enough(b, m)
  {
    if k > 0 { EnoughMore(a, b, k - 1, m - 1); }
  }

  /** Building goes through, within that much, whatever has to be split. */
  lemma {:induction false} BuildGoesThrough(n: Node, path: Mask, isCopy: bool, h: Heap, p: Ptrs)
    requires h.left >= Enough(Size(n), FieldsLeft(path))
    ensures var d := Build(n, path, isCopy, h, p);
            d.ok && d.heap.left + Enough(Size(n), FieldsLeft(path)) >= h.left
    decreases FieldsLeft(path), n
  {
    match n.split
    case Leaf => if |n.rules| > LEAF_THRESHOLD { LeafGoesThrough(n, path, isCopy, h, p); }
    case Branch(f, _, _) =>
      FieldsShrink(path, f);
      EnoughMore(TableSize(n.split.buckets) + ChainSize(n.split.any), Size(n), FieldsLeft(path + {f}), FieldsLeft(path));
      ChildrenGoThrough(n.split, path + {f}, isCopy, h, p);
  }

  /** What building a large leaf comes to: the split, then the children. */
  function LeafBuild(s: Filled, path: Mask, p: Ptrs): (bool, Heap) {
    if !s.ok || s.at.split.Leaf? then (s.ok, s.heap)
    else
      var k := BuildChildren(s.at.split, path + {s.at.split.field}, true, s.heap, p);
      (k.ok, k.heap)
  }

  lemma LeafBuilt(n: Node, path: Mask, isCopy: bool, h: Heap, p: Ptrs)
    requires n.split.Leaf? && |n.rules| > LEAF_THRESHOLD
    ensures var d := Build(n, path, isCopy, h, p);
            (d.ok, d.heap) == LeafBuild(SplitNode(n, path, isCopy, h), path, p)
  {
  }

  lemma {:induction false} SplitGoesThrough(s: Filled, size: nat, path: Mask, h: Heap, p: Ptrs)
    requires s.ok && Size(s.at) == size > 0 && s.heap.left + 3 + 2 * size >= h.left
    requires s.at.split.Branch? && s.at.split.field < NUM_FIELDS && s.at.split.field !in path
    requires h.left >= Enough(size, FieldsLeft(path))
    ensures var (ok, heap) := LeafBuild(s, path, p); ok && heap.left + Enough(size, FieldsLeft(path)) >= h.left
    decreases FieldsLeft(path + {s.at.split.field})
  {
    var path' := path + {s.at.split.field};
    FieldsShrink(path, s.at.split.field);
    EnoughMore(TableSize(s.at.split.buckets) + ChainSize(s.at.split.any), size, FieldsLeft(path'), FieldsLeft(path) - 1);
    ChildrenGoThrough(s.at.split, path', true, s.heap, p);
  }

  lemma {:induction false} LeafGoesThrough(n: Node, path: Mask, isCopy: bool, h: Heap, p: Ptrs)
    requires n.split.Leaf? && |n.rules| > LEAF_THRESHOLD && h.left >= Enough(Size(n), FieldsLeft(path))
    ensures var d := Build(n, path, isCopy, h, p);
            d.ok && d.heap.left + Enough(Size(n), FieldsLeft(path)) >= h.left
    decreases FieldsLeft(path), n, 0
  {
    EnoughMore(|n.rules|, |n.rules|, 0, FieldsLeft(path));
    SplitNodeSize(n, path, isCopy, h);
    SplitNodeShape(n, path, isCopy, h);
    LeafBuilt(n, path, isCopy, h, p);
    var s := SplitNode(n, path, isCopy, h);
    if s.at.split.Branch? {
      FieldsShrink(path, s.at.split.field);
      SplitGoesThrough(s, |n.rules|, path, h, p);
    }
  }

  lemma {:induction false} ChildrenGoThrough(s: Split, path: Mask, isCopy: bool, h: Heap, p: Ptrs)
    requires s.Branch? && h.left >= Enough(TableSize(s.buckets) + ChainSize(s.any), FieldsLeft(path))
    ensures var d := BuildChildren(s, path, isCopy, h, p);
            d.ok && d.heap.left + Enough(TableSize(s.buckets) + ChainSize(s.any), FieldsLeft(path)) >= h.left
    decreases FieldsLeft(path), s
  {
    EnoughSum(TableSize(s.buckets), ChainSize(s.any), FieldsLeft(path));
    TableGoesThrough(s.buckets, path, isCopy, h, p);
    var t := BuildTable(s.buckets, path, isCopy, h, p);
    ChainGoesThrough(s.any, path, isCopy, t.heap, t.ptrs);
  }

  lemma {:induction false} TableGoesThrough(bs: seq<Chain>, path: Mask, isCopy: bool, h: Heap, p: Ptrs)
    requires h.left >= Enough(TableSize(bs), FieldsLeft(path))
    ensures var d := BuildTable(bs, path, isCopy, h, p);
            d.ok && d.heap.left + Enough(TableSize(bs), FieldsLeft(path)) >= h.left
    decreases FieldsLeft(path), bs
  {
    if bs != [] {
      EnoughSum(ChainSize(bs[0]), TableSize(bs[1..]), FieldsLeft(path));
      ChainGoesThrough(bs[0], path, isCopy, h, p);
      var c := BuildChain(bs[0], path, isCopy, h, p);
      TableGoesThrough(bs[1..], path, isCopy, c.heap, c.ptrs);
    }
  }

  lemma {:induction false} ChainGoesThrough(c: Chain, path: Mask, isCopy: bool, h: Heap, p: Ptrs)
    requires h.left >= Enough(ChainSize(c), FieldsLeft(path))
    ensures var d := BuildChain(c, path, isCopy, h, p);
            d.ok && d.heap.left + Enough(ChainSize(c), FieldsLeft(path)) >= h.left
    decreases FieldsLeft(path), c
  {
    if c.Link? {
      EnoughSum(Size(c.node), ChainSize(c.next), FieldsLeft(path));
      BuildGoesThrough(c.node, path, isCopy, h, p);
      var b := Build(c.node, path, isCopy, h, p);
      ChainGoesThrough(c.next, path, isCopy, b.heap, Replaced(b, c.node));
    }
  }
}
