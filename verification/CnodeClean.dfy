/** Cnode::clean and Cnode::unbuild (src/include/cnode.hh). */
module CnodeClean {
  import opened Basics
  import opened PacketExpr
  import opened RuleList
  import opened CnodeTree
  import opened CnodeBuild

  // ----- clean

  /** No rules and no children: what clean() reports for its parent to free. */
  predicate Bare(n: Node) {
    && n.rules == []
    && (n.split.Branch? ==> n.split.any.Nil? && forall b | 0 <= b < |n.split.buckets| :: n.split.buckets[b].Nil?)
  }

  function Clean(n: Node): Node {
    match n.split
    case Leaf => n
    case Branch(f, bs, any) => n.(split := Branch(f, CleanTable(bs), CleanChain(any)))
  }

  function CleanChain(c: Chain): Chain {
    match c
    case Nil => Nil
    case Link(n, k) => if Bare(Clean(n)) then CleanChain(k) else Link(Clean(n), CleanChain(k))
  }

  function CleanTable(bs: seq<Chain>): (t: seq<Chain>)
    ensures |t| == |bs|
  {
    if bs == [] then [] else [CleanChain(bs[0])] + CleanTable(bs[1..])
  }

  lemma BareCopies(n: Node, at: Option<Addr>, x: Rule)
    requires Bare(n)
    ensures Copies(n, at, x) == 0
  {
    if n.split.Branch? { NilsCopies(n.split.buckets, at, x); }
  }

  /** Cleaning moves no rule. */
  lemma {:induction false} CleanCopies(n: Node, at: Option<Addr>, x: Rule)
    ensures Copies(Clean(n), at, x) == Copies(n, at, x)
    decreases n
  {
    if n.split.Branch? {
      CleanTableCopies(n.split.buckets, at, x);
      CleanChainCopies(n.split.any, at, x);
    }
  }

  lemma {:induction false} CleanChainCopies(c: Chain, at: Option<Addr>, x: Rule)
    ensures ChainCopies(CleanChain(c), at, x) == ChainCopies(c, at, x)
    decreases c
  {
    if c.Link? {
      CleanCopies(c.node, at, x);
      CleanChainCopies(c.next, at, x);
      if Bare(Clean(c.node)) { BareCopies(Clean(c.node), at, x); }
    }
  }

  lemma {:induction false} CleanTableCopies(bs: seq<Chain>, at: Option<Addr>, x: Rule)
    ensures TableCopies(CleanTable(bs), at, x) == TableCopies(bs, at, x)
    decreases bs
  {
    if bs != [] {
      CleanChainCopies(bs[0], at, x);
      CleanTableCopies(bs[1..], at, x);
    }
  }

  lemma {:induction false} CleanUses(n: Node, a: Addr)
    ensures Uses(Clean(n), a) <= Uses(n, a)
    decreases n
  {
    if n.split.Branch? {
      CleanTableUses(n.split.buckets, a);
      CleanChainUses(n.split.any, a);
    }
  }

  lemma {:induction false} CleanChainUses(c: Chain, a: Addr)
    ensures ChainUses(CleanChain(c), a) <= ChainUses(c, a)
    decreases c
  {
    if c.Link? {
      CleanUses(c.node, a);
      CleanChainUses(c.next, a);
    }
  }

  lemma {:induction false} CleanTableUses(bs: seq<Chain>, a: Addr)
    ensures TableUses(CleanTable(bs), a) <= TableUses(bs, a)
    decreases bs
  {
    if bs != [] {
      CleanChainUses(bs[0], a);
      CleanTableUses(bs[1..], a);
    }
  }

  lemma {:induction false} CleanWF(n: Node, path: Mask)
    requires NodeWF(n, path)
    ensures NodeWF(Clean(n), path)
    decreases n
  {
    if n.split.Branch? {
      var Branch(f, bs, any) := n.split;
      var t := CleanTable(bs);
      forall b | 0 <= b < |t| ensures ChainWF(t[b], b, |t|, f, path + {f}) {
        CleanTableAt(bs, b);
        CleanChainWF(bs[b], b, |bs|, f, path + {f});
      }
      if any.Link? {
        CleanWF(any.node, path + {f});
        CleanRouted(any.node, f, None);
        assert CleanChain(any.next) == Nil;
      }
    }
  }

  lemma CleanRouted(n: Node, f: Bit, v: Option<uint32>)
    requires Routed(n, f, v)
    ensures Routed(Clean(n), f, v)
  {
    forall x: Rule | Has(Clean(n), x) ensures GetField(x.expr, f) == v {
      CleanCopies(n, None, x);
      assert Has(n, x);
    }
  }

  lemma {:induction false} CleanTableAt(bs: seq<Chain>, b: nat)
    requires b < |bs|
    ensures CleanTable(bs)[b] == CleanChain(bs[b])
  {
    if b > 0 { CleanTableAt(bs[1..], b - 1); }
  }

  lemma {:induction false} CleanChainWF(c: Chain, b: nat, nb: nat, f: Bit, path: Mask)
    requires nb > 0 && ChainWF(c, b, nb, f, path)
    ensures ChainWF(CleanChain(c), b, nb, f, path)
    ensures forall v: uint32 :: HasValue(CleanChain(c), v) ==> HasValue(c, v)
    decreases c
  {
    if c.Link? {
      CleanWF(c.node, path);
      CleanRouted(c.node, f, Some(c.node.value));
      CleanChainWF(c.next, b, nb, f, path);
    }
  }

  /** Afterwards every node below the root leads to a rule. */
  ghost predicate NoBareBelow(n: Node) {
    n.split.Branch? ==>
      && (forall b | 0 <= b < |n.split.buckets| :: NoBareChain(n.split.buckets[b]))
      && NoBareChain(n.split.any)
  }

  ghost predicate NoBareChain(c: Chain) {
    c.Link? ==> !Bare(c.node) && NoBareBelow(c.node) && NoBareChain(c.next)
  }

  lemma {:induction false} CleanLeavesNoneBare(n: Node)
    ensures NoBareBelow(Clean(n))
    decreases n
  {
    if n.split.Branch? {
      forall b | 0 <= b < |n.split.buckets| ensures NoBareChain(CleanTable(n.split.buckets)[b]) {
        CleanTableAt(n.split.buckets, b);
        CleanChainLeavesNoneBare(n.split.buckets[b]);
      }
      CleanChainLeavesNoneBare(n.split.any);
    }
  }

  lemma {:induction false} CleanChainLeavesNoneBare(c: Chain)
    ensures NoBareChain(CleanChain(c))
    decreases c
  {
    if c.Link? {
      CleanLeavesNoneBare(c.node);
      CleanChainLeavesNoneBare(c.next);
    }
  }

  /** In a cleaned tree a node that is not bare has a rule somewhere below. */
  lemma {:induction false} NotBareHasRule(n: Node) returns (x: Rule)
    requires NoBareBelow(n) && !Bare(n)
    ensures Has(n, x)
    decreases n
  {
    if n.rules != [] {
      x := n.rules[0];
    } else if n.split.any.Link? {
      x := NotBareHasRule(n.split.any.node);
    } else {
      var bs := n.split.buckets;
      var b :| 0 <= b < |bs| && bs[b].Link?;
      x := NotBareHasRule(bs[b].node);
      BucketCopies(bs, b, x);
    }
  }

  /** clean() tells its parent to free the node exactly if no rule is below. */
  lemma CleanIsBareIffEmpty(n: Node)
    ensures Bare(Clean(n)) <==> forall x: Rule :: !Has(n, x)
  {
    CleanLeavesNoneBare(n);
    if Bare(Clean(n)) {
      forall x: Rule ensures !Has(n, x) {
        CleanCopies(n, None, x);
        BareCopies(Clean(n), None, x);
      }
    } else {
      var x := NotBareHasRule(Clean(n));
      CleanCopies(n, None, x);
      assert Has(n, x);
    }
  }

  // ----- unbuild

  datatype Gathered = Gathered(rules: seq<Rule>, heap: Heap, ok: bool)

  /** add_node_rules: merges a copy of each list of the subtree into `acc`, one
      allocation per rule copied. */
  function Gather(acc: seq<Rule>, n: Node, h: Heap): Gathered
    decreases n
  {
    if h.left < |n.rules| then Gathered(acc, h.(left := 0), false)
    else
      var own := Merge(acc, n.rules);
      var h1 := h.(left := h.left - |n.rules|);
      match n.split
      case Leaf => Gathered(own, h1, true)
      case Branch(_, bs, any) =>
        var t := GatherTable(own, bs, h1);
        if t.ok then GatherChain(t.rules, any, t.heap) else t
  }

  function GatherChain(acc: seq<Rule>, c: Chain, h: Heap): Gathered
    decreases c
  {
    match c
    case Nil => Gathered(acc, h, true)
    case Link(n, k) =>
      var g := Gather(acc, n, h);
      if g.ok then GatherChain(g.rules, k, g.heap) else g
  }

  function GatherTable(acc: seq<Rule>, bs: seq<Chain>, h: Heap): Gathered
    decreases bs
  {
    if bs == [] then Gathered(acc, h, true)
    else
      var g := GatherChain(acc, bs[0], h);
      if g.ok then GatherTable(g.rules, bs[1..], g.heap) else g
  }

  /** The new root, and the back pointers set to it; on an exception the tree is
      as it was. */
  function Unbuild(n: Node, h: Heap, p: Ptrs): Built<Node> {
    if n.split.Leaf? then Built(n, h, p, true)
    else if h.left == 0 then Built(n, h, p, false)
    else
      var g := Gather([], n, Heap(h.next + 1, h.left - 1));
      if !g.ok then Built(n, g.heap, p, false)
      else
        var m := Node(h.next, n.value, g.rules, Leaf);
        Built(m, g.heap, SetNodePointers(p, m), true)
  }

  /** The gathered list holds what the tree held. */
  lemma {:induction false} GatherCopies(acc: seq<Rule>, n: Node, h: Heap, x: Rule)
    ensures var g := Gather(acc, n, h);
            g.heap.next == h.next && (g.ok ==> multiset(g.rules)[x] == multiset(acc)[x] + Copies(n, None, x))
    decreases n
  {
    if h.left >= |n.rules| {
      MergeBag(acc, n.rules);
      if n.split.Branch? {
        var h1 := h.(left := h.left - |n.rules|);
        GatherTableCopies(Merge(acc, n.rules), n.split.buckets, h1, x);
        var t := GatherTable(Merge(acc, n.rules), n.split.buckets, h1);
        GatherChainCopies(t.rules, n.split.any, t.heap, x);
      }
    }
  }

  lemma {:induction false} GatherChainCopies(acc: seq<Rule>, c: Chain, h: Heap, x: Rule)
    ensures var g := GatherChain(acc, c, h);
            g.heap.next == h.next && (g.ok ==> multiset(g.rules)[x] == multiset(acc)[x] + ChainCopies(c, None, x))
    decreases c
  {
    if c.Link? {
      GatherCopies(acc, c.node, h, x);
      var g := Gather(acc, c.node, h);
      GatherChainCopies(g.rules, c.next, g.heap, x);
    }
  }

  lemma {:induction false} GatherTableCopies(acc: seq<Rule>, bs: seq<Chain>, h: Heap, x: Rule)
    ensures var g := GatherTable(acc, bs, h);
            g.heap.next == h.next && (g.ok ==> multiset(g.rules)[x] == multiset(acc)[x] + TableCopies(bs, None, x))
    decreases bs
  {
    if bs != [] {
      GatherChainCopies(acc, bs[0], h, x);
      var g := GatherChain(acc, bs[0], h);
      GatherTableCopies(g.rules, bs[1..], g.heap, x);
    }
  }

  /** And it is sorted. */
  lemma {:induction false} GatherSorted(acc: seq<Rule>, n: Node, h: Heap, path: Mask)
    requires Sorted(acc) && NodeWF(n, path)
    ensures Sorted(Gather(acc, n, h).rules)
    decreases n
  {
    if h.left >= |n.rules| {
      MergeSorted(acc, n.rules);
      if n.split.Branch? {
        var Branch(f, bs, any) := n.split;
        var h1 := h.(left := h.left - |n.rules|);
        assert ChainsWF(bs, 0, |bs|, f, path + {f});
        GatherTableSorted(Merge(acc, n.rules), bs, h1, |bs|, 0, f, path + {f});
        var t := GatherTable(Merge(acc, n.rules), bs, h1);
        if any.Link? {
          GatherSorted(t.rules, any.node, t.heap, path + {f});
          assert GatherChain(t.rules, any, t.heap).rules == Gather(t.rules, any.node, t.heap).rules;
        }
      }
    }
  }

  lemma {:induction false} GatherChainSorted(acc: seq<Rule>, c: Chain, h: Heap, b: nat, nb: nat, f: Bit, path: Mask)
    requires Sorted(acc) && nb > 0 && ChainWF(c, b, nb, f, path)
    ensures Sorted(GatherChain(acc, c, h).rules)
    decreases c
  {
    if c.Link? {
      GatherSorted(acc, c.node, h, path);
      var g := Gather(acc, c.node, h);
      GatherChainSorted(g.rules, c.next, g.heap, b, nb, f, path);
    }
  }

  lemma {:induction false} GatherTableSorted(acc: seq<Rule>, bs: seq<Chain>, h: Heap, nb: nat, base: nat, f: Bit, path: Mask)
    requires Sorted(acc) && nb > 0 && ChainsWF(bs, base, nb, f, path)
    ensures Sorted(GatherTable(acc, bs, h).rules)
    decreases bs
  {
    if bs != [] {
      assert ChainWF(bs[0], base + 0, nb, f, path);
      GatherChainSorted(acc, bs[0], h, base, nb, f, path);
      var g := GatherChain(acc, bs[0], h);
      forall b | 0 <= b < |bs[1..]| ensures ChainWF(bs[1..][b], base + 1 + b, nb, f, path) {
        assert ChainWF(bs[b + 1], base + (b + 1), nb, f, path);
      }
      GatherTableSorted(g.rules, bs[1..], g.heap, nb, base + 1, f, path);
    }
  }
}
