/** What the tree looks like after a build: which fields it splits on, how deep
    it gets, and that building again changes nothing. */
module CnodeShape {
  import opened Basics
  import opened PacketExpr
  import opened RuleList
  import opened CnodeTree
  import opened CnodeBuild
  import opened CnodeEdit
  import opened CnodeClean

  // ----- Building is idempotent

  /** No leaf of the subtree would be split. */
  ghost predicate Settled(n: Node, path: Mask) {
    match n.split
    case Leaf => |n.rules| <= LEAF_THRESHOLD || Choose(n.rules, path).NoField?
    case Branch(f, bs, any) => TableSettled(bs, path + {f}) && ChainSettled(any, path + {f})
  }

  ghost predicate ChainSettled(c: Chain, path: Mask) {
    c.Link? ==> Settled(c.node, path) && ChainSettled(c.next, path)
  }

  ghost predicate TableSettled(bs: seq<Chain>, path: Mask) {
    bs != [] ==> ChainSettled(bs[0], path) && TableSettled(bs[1..], path)
  }

  lemma {:induction false} BuildSettles(n: Node, path: Mask, isCopy: bool, h: Heap, p: Ptrs)
    ensures var d := Build(n, path, isCopy, h, p); d.ok ==> Settled(d.at, path)
    decreases FieldsLeft(path), n
  {
    match n.split
    case Leaf =>
      if |n.rules| > LEAF_THRESHOLD {
        var s := SplitNode(n, path, isCopy, h);
        SplitNodeShape(n, path, isCopy, h);
        if s.ok && s.at.split.Branch? {
          FieldsShrink(path, s.at.split.field);
          BuildChildrenSettles(s.at.split, path + {s.at.split.field}, true, s.heap, p);
        }
      }
    case Branch(f, _, _) =>
      FieldsShrink(path, f);
      BuildChildrenSettles(n.split, path + {f}, isCopy, h, p);
  }

  lemma {:induction false} BuildChildrenSettles(s: Split, path: Mask, isCopy: bool, h: Heap, p: Ptrs)
    requires s.Branch?
    ensures var d := BuildChildren(s, path, isCopy, h, p);
            d.at.Branch? && d.at.field == s.field
            && (d.ok ==> TableSettled(d.at.buckets, path) && ChainSettled(d.at.any, path))
    decreases FieldsLeft(path), s
  {
    BuildTableSettles(s.buckets, path, isCopy, h, p);
    var t := BuildTable(s.buckets, path, isCopy, h, p);
    BuildChainSettles(s.any, path, isCopy, t.heap, t.ptrs);
  }

  lemma {:induction false} BuildTableSettles(bs: seq<Chain>, path: Mask, isCopy: bool, h: Heap, p: Ptrs)
    ensures var d := BuildTable(bs, path, isCopy, h, p); d.ok ==> TableSettled(d.at, path)
    decreases FieldsLeft(path), bs
  {
    if bs != [] {
      BuildChainSettles(bs[0], path, isCopy, h, p);
      var c := BuildChain(bs[0], path, isCopy, h, p);
      BuildTableSettles(bs[1..], path, isCopy, c.heap, c.ptrs);
    }
  }

  lemma {:induction false} BuildChainSettles(c: Chain, path: Mask, isCopy: bool, h: Heap, p: Ptrs)
    ensures var d := BuildChain(c, path, isCopy, h, p); d.ok ==> ChainSettled(d.at, path)
    decreases FieldsLeft(path), c
  {
    if c.Link? {
      BuildSettles(c.node, path, isCopy, h, p);
      var b := Build(c.node, path, isCopy, h, p);
      BuildChainSettles(c.next, path, isCopy, b.heap, Replaced(b, c.node));
    }
  }

  /** A settled tree comes back as it is, even if memory runs out. */
  lemma {:induction false} SettledStays(n: Node, path: Mask, h: Heap, p: Ptrs)
    requires Settled(n, path)
    ensures var d := Build(n, path, false, h, p); d.at == n && d.ptrs == p
    decreases n
  {
    if n.split.Branch? {
      var Branch(f, bs, any) := n.split;
      SettledTableStays(bs, path + {f}, h, p);
      SettledChainStays(any, path + {f}, BuildTable(bs, path + {f}, false, h, p).heap, p);
    }
  }

  lemma {:induction false} SettledTableStays(bs: seq<Chain>, path: Mask, h: Heap, p: Ptrs)
    requires TableSettled(bs, path)
    ensures var d := BuildTable(bs, path, false, h, p); d.at == bs && d.ptrs == p
    decreases bs
  {
    if bs != [] {
      SettledChainStays(bs[0], path, h, p);
      SettledTableStays(bs[1..], path, BuildChain(bs[0], path, false, h, p).heap, p);
    }
  }

  lemma {:induction false} SettledChainStays(c: Chain, path: Mask, h: Heap, p: Ptrs)
    requires ChainSettled(c, path)
    ensures var d := BuildChain(c, path, false, h, p); d.at == c && d.ptrs == p
    decreases c
  {
    if c.Link? {
      SettledStays(c.node, path, h, p);
      SettledChainStays(c.next, path, Build(c.node, path, false, h, p).heap, p);
    }
  }

  /** A second build alters neither the tree nor any back pointer. */
  lemma SecondBuildIsIdle(n: Node, path: Mask, h: Heap, p: Ptrs, h2: Heap)
    requires Build(n, path, false, h, p).ok
    ensures var d := Build(n, path, false, h, p);
            var e := Build(d.at, path, false, h2, d.ptrs);
            e.at == d.at && e.ptrs == d.ptrs
  {
    var d := Build(n, path, false, h, p);
    BuildSettles(n, path, false, h, p);
    SettledStays(d.at, path, h2, d.ptrs);
  }

  // ----- Which fields are split on

  /** All split fields of the subtree are in `fs`. */
  ghost predicate SplitsIn(n: Node, fs: Mask) {
    match n.split
    case Leaf => true
    case Branch(f, bs, any) => f in fs && TableSplitsIn(bs, fs) && ChainSplitsIn(any, fs)
  }

  ghost predicate ChainSplitsIn(c: Chain, fs: Mask) {
    c.Link? ==> SplitsIn(c.node, fs) && ChainSplitsIn(c.next, fs)
  }

  ghost predicate TableSplitsIn(bs: seq<Chain>, fs: Mask) {
    bs != [] ==> ChainSplitsIn(bs[0], fs) && TableSplitsIn(bs[1..], fs)
  }

  lemma {:induction false} TableSplitsAt(bs: seq<Chain>, b: nat, c: Chain, fs: Mask)
    requires b < |bs| && TableSplitsIn(bs, fs)
    ensures ChainSplitsIn(bs[b], fs)
    ensures ChainSplitsIn(c, fs) ==> TableSplitsIn(bs[b := c], fs)
  {
    if b == 0 {
      assert bs[b := c][1..] == bs[1..];
    } else {
      TableSplitsAt(bs[1..], b - 1, c, fs);
      assert bs[b := c][1..] == bs[1..][b - 1 := c];
    }
  }

  lemma {:induction false} AddRuleSplits(n: Node, r: Rule, path: Mask, h: Heap, fs: Mask)
    requires SplitsIn(n, fs)
    ensures SplitsIn(AddRule(n, r, path, h).at, fs)
    decreases n
  {
    if n.split.Leaf? || !Splittable(r.expr, path) || n.split.buckets == [] {
    } else {
      var Branch(f, bs, any) := n.split;
      match GetField(r.expr, f) {
        case Some(v) =>
          var b := GetBucket(v, |bs|);
          TableSplitsAt(bs, b, AddToChain(bs[b], v, r, path + {f}, h).at, fs);
          AddToChainSplits(bs[b], v, r, path + {f}, h, fs);
        case None =>
          AddToChainSplits(any, AnyValue(any), r, path + {f}, h, fs);
      }
    }
  }

  lemma {:induction false} AddToChainSplits(c: Chain, v: uint32, r: Rule, path: Mask, h: Heap, fs: Mask)
    requires ChainSplitsIn(c, fs)
    ensures ChainSplitsIn(AddToChain(c, v, r, path, h).at, fs)
    decreases c
  {
    if HasValue(c, v) {
      if c.node.value == v {
        AddRuleSplits(c.node, r, path, h, fs);
      } else {
        AddToChainSplits(c.next, v, r, path, h, fs);
      }
    }
  }

  lemma {:induction false} AddAllSplits(n: Node, rs: seq<Rule>, path: Mask, h: Heap, fs: Mask)
    requires SplitsIn(n, fs)
    ensures SplitsIn(AddAll(n, rs, path, h).at, fs)
    decreases |rs|
  {
    if rs != [] {
      var a := AddRule(n, rs[0], path, h);
      AddRuleSplits(n, rs[0], path, h, fs);
      AddAllSplits(a.at, rs[1..], path, a.heap, fs);
    }
  }

  lemma {:induction false} NilsSplit(bs: seq<Chain>, fs: Mask)
    requires forall b | 0 <= b < |bs| :: bs[b].Nil?
    ensures TableSplitsIn(bs, fs)
  {
    if bs != [] { NilsSplit(bs[1..], fs); }
  }

  lemma FillSplits(addr: Addr, value: uint32, b: Best, rs: seq<Rule>, path: Mask, h: Heap, fs: Mask)
    requires b.Best? && b.field in fs
    ensures SplitsIn(Fill(addr, value, b, rs, path, h).at, fs)
  {
    var e := EmptyBranch(addr, value, b);
    NilsSplit(e.split.buckets, fs);
    AddAllSplits(e, rs, path, h, fs);
  }

  /** The rule wildcards the splittable fields outside `fs`. */
  ghost predicate WildOutside(x: Rule, fs: Mask) {
    FIELDS - fs <= x.expr.wildcards
  }

  lemma SplitNodeSplits(n: Node, path: Mask, isCopy: bool, h: Heap, fs: Mask)
    requires n.split.Leaf? && forall x: Rule | Has(n, x) :: WildOutside(x, fs)
    ensures SplitsIn(SplitNode(n, path, isCopy, h).at, fs)
  {
    var b := Choose(n.rules, path);
    if b.Best? && b.field !in fs {
      forall r | r in n.rules ensures b.field in r.expr.wildcards { assert Has(n, r); }
      NeverSplitsOnWildcarded(n.rules, path, b.field);
    }
    SplitBySplits(n, b, path, isCopy, h, fs);
  }

  lemma SplitBySplits(n: Node, b: Best, path: Mask, isCopy: bool, h: Heap, fs: Mask)
    requires n.split.Leaf? && (b.Best? ==> b.field in fs)
    ensures SplitsIn(SplitBy(n, b, path, isCopy, h).at, fs)
  {
    if h.left >= Room(isCopy) && b.Best? {
      FillSplits(SplitAddr(n, isCopy, h), n.value, b, n.rules, path, SplitHeap(isCopy, h), fs);
    }
  }

  lemma {:induction false} BuildSplits(n: Node, path: Mask, isCopy: bool, h: Heap, p: Ptrs, fs: Mask)
    requires SplitsIn(n, fs) && forall x: Rule | Has(n, x) :: WildOutside(x, fs)
    ensures SplitsIn(Build(n, path, isCopy, h, p).at, fs)
    decreases FieldsLeft(path), n
  {
    match n.split
    case Leaf =>
      if |n.rules| > LEAF_THRESHOLD {
        var s := SplitNode(n, path, isCopy, h);
        SplitNodeShape(n, path, isCopy, h);
        SplitNodeSplits(n, path, isCopy, h, fs);
        if s.ok && s.at.split.Branch? {
          FieldsShrink(path, s.at.split.field);
          forall x: Rule | Has(s.at, x) ensures WildOutside(x, fs) {
            SplitNodeCopies(n, path, isCopy, h, x);
            assert Has(n, x);
          }
          RebuiltSplits(s.at, path + {s.at.split.field}, true, s.heap, p, fs);
        }
      }
    case Branch(f, _, _) =>
      FieldsShrink(path, f);
      RebuiltSplits(n, path + {f}, isCopy, h, p, fs);
  }

  lemma {:induction false} RebuiltSplits(n: Node, path: Mask, isCopy: bool, h: Heap, p: Ptrs, fs: Mask)
    requires n.split.Branch? && SplitsIn(n, fs) && forall x: Rule | Has(n, x) :: WildOutside(x, fs)
    ensures SplitsIn(Rebuilt(n, path, isCopy, h, p).at, fs)
    decreases FieldsLeft(path), n.split
  {
    var Branch(f, bs, any) := n.split;
    forall x: Rule | TableCopies(bs, None, x) > 0 ensures WildOutside(x, fs) { assert Has(n, x); }
    forall x: Rule | ChainCopies(any, None, x) > 0 ensures WildOutside(x, fs) { assert Has(n, x); }
    BuildTableSplits(bs, path, isCopy, h, p, fs);
    var t := BuildTable(bs, path, isCopy, h, p);
    BuildChainSplits(any, path, isCopy, t.heap, t.ptrs, fs);
  }

  lemma {:induction false} BuildTableSplits(bs: seq<Chain>, path: Mask, isCopy: bool, h: Heap, p: Ptrs, fs: Mask)
    requires TableSplitsIn(bs, fs) && forall x: Rule | TableCopies(bs, None, x) > 0 :: WildOutside(x, fs)
    ensures TableSplitsIn(BuildTable(bs, path, isCopy, h, p).at, fs)
    decreases FieldsLeft(path), bs
  {
    if bs != [] {
      forall x: Rule | ChainCopies(bs[0], None, x) > 0 ensures WildOutside(x, fs) { assert TableCopies(bs, None, x) > 0; }
      forall x: Rule | TableCopies(bs[1..], None, x) > 0 ensures WildOutside(x, fs) { assert TableCopies(bs, None, x) > 0; }
      BuildChainSplits(bs[0], path, isCopy, h, p, fs);
      var c := BuildChain(bs[0], path, isCopy, h, p);
      BuildTableSplits(bs[1..], path, isCopy, c.heap, c.ptrs, fs);
    }
  }

  lemma {:induction false} BuildChainSplits(c: Chain, path: Mask, isCopy: bool, h: Heap, p: Ptrs, fs: Mask)
    requires ChainSplitsIn(c, fs) && forall x: Rule | ChainCopies(c, None, x) > 0 :: WildOutside(x, fs)
    ensures ChainSplitsIn(BuildChain(c, path, isCopy, h, p).at, fs)
    decreases FieldsLeft(path), c
  {
    if c.Link? {
      forall x: Rule | Has(c.node, x) ensures WildOutside(x, fs) { assert ChainCopies(c, None, x) > 0; }
      forall x: Rule | ChainCopies(c.next, None, x) > 0 ensures WildOutside(x, fs) { assert ChainCopies(c, None, x) > 0; }
      BuildSplits(c.node, path, isCopy, h, p, fs);
      var b := Build(c.node, path, isCopy, h, p);
      BuildChainSplits(c.next, path, isCopy, b.heap, Replaced(b, c.node), fs);
    }
  }

  lemma {:induction false} EditSplits(n: Node, a: Addr, id: uint32, repl: Option<Rule>, fs: Mask)
    requires SplitsIn(n, fs)
    ensures SplitsIn(EditAt(n, a, id, repl), fs)
    decreases n
  {
    if n.split.Branch? {
      EditTableSplits(n.split.buckets, a, id, repl, fs);
      EditChainSplits(n.split.any, a, id, repl, fs);
    }
  }

  lemma {:induction false} EditChainSplits(c: Chain, a: Addr, id: uint32, repl: Option<Rule>, fs: Mask)
    requires ChainSplitsIn(c, fs)
    ensures ChainSplitsIn(EditChain(c, a, id, repl), fs)
    decreases c
  {
    if c.Link? {
      EditSplits(c.node, a, id, repl, fs);
      EditChainSplits(c.next, a, id, repl, fs);
    }
  }

  lemma {:induction false} EditTableSplits(bs: seq<Chain>, a: Addr, id: uint32, repl: Option<Rule>, fs: Mask)
    requires TableSplitsIn(bs, fs)
    ensures TableSplitsIn(EditTable(bs, a, id, repl), fs)
    decreases bs
  {
    if bs != [] {
      EditChainSplits(bs[0], a, id, repl, fs);
      EditTableSplits(bs[1..], a, id, repl, fs);
    }
  }

  lemma {:induction false} CleanSplits(n: Node, fs: Mask)
    requires SplitsIn(n, fs)
    ensures SplitsIn(Clean(n), fs)
    decreases n
  {
    if n.split.Branch? {
      CleanTableSplits(n.split.buckets, fs);
      CleanChainSplits(n.split.any, fs);
    }
  }

  lemma {:induction false} CleanChainSplits(c: Chain, fs: Mask)
    requires ChainSplitsIn(c, fs)
    ensures ChainSplitsIn(CleanChain(c), fs)
    decreases c
  {
    if c.Link? {
      CleanSplits(c.node, fs);
      CleanChainSplits(c.next, fs);
    }
  }

  lemma {:induction false} CleanTableSplits(bs: seq<Chain>, fs: Mask)
    requires TableSplitsIn(bs, fs)
    ensures TableSplitsIn(CleanTable(bs), fs)
    decreases bs
  {
    if bs != [] {
      CleanChainSplits(bs[0], fs);
      CleanTableSplits(bs[1..], fs);
    }
  }

  // ----- Depth

  /** Most splits on a way from the root to a leaf. */
  ghost function Depth(n: Node): nat {
    match n.split
    case Leaf => 0
    case Branch(_, bs, any) => 1 + Max(TableDepth(bs), ChainDepth(any))
  }

  ghost function ChainDepth(c: Chain): nat {
    if c.Nil? then 0 else Max(Depth(c.node), ChainDepth(c.next))
  }

  ghost function TableDepth(bs: seq<Chain>): nat {
    if bs == [] then 0 else Max(ChainDepth(bs[0]), TableDepth(bs[1..]))
  }

  ghost function Max(a: nat, b: nat): nat { if a < b then b else a }

  /** Split fields along a path are distinct, so a tree that splits only on
      splittable fields is no deeper than there are fields left. */
  lemma {:induction false} DepthBound(n: Node, path: Mask)
    requires NodeWF(n, path) && SplitsIn(n, FIELDS)
    ensures Depth(n) <= FieldsLeft(path)
    decreases n
  {
    if n.split.Branch? {
      var Branch(f, bs, any) := n.split;
      FieldsShrink(path, f);
      assert ChainsWF(bs, 0, |bs|, f, path + {f});
      TableDepthBound(bs, 0, |bs|, f, path + {f});
      if any.Link? {
        DepthBound(any.node, path + {f});
        assert ChainDepth(any) == Depth(any.node);
      }
    }
  }

  lemma {:induction false} ChainDepthBound(c: Chain, b: nat, nb: nat, f: Bit, path: Mask)
    requires nb > 0 && ChainWF(c, b, nb, f, path) && ChainSplitsIn(c, FIELDS)
    ensures ChainDepth(c) <= FieldsLeft(path)
    decreases c
  {
    if c.Link? {
      DepthBound(c.node, path);
      ChainDepthBound(c.next, b, nb, f, path);
    }
  }

  lemma {:induction false} TableDepthBound(bs: seq<Chain>, base: nat, nb: nat, f: Bit, path: Mask)
    requires nb > 0 && ChainsWF(bs, base, nb, f, path) && TableSplitsIn(bs, FIELDS)
    ensures TableDepth(bs) <= FieldsLeft(path)
    decreases bs
  {
    if bs != [] {
      assert ChainWF(bs[0], base + 0, nb, f, path);
      ChainDepthBound(bs[0], base, nb, f, path);
      forall b | 0 <= b < |bs[1..]| ensures ChainWF(bs[1..][b], base + 1 + b, nb, f, path) {
        assert ChainWF(bs[b + 1], base + (b + 1), nb, f, path);
      }
      TableDepthBound(bs[1..], base + 1, nb, f, path);
    }
  }

  // ----- A fresh split leaves every child strictly smaller

  ghost predicate InChain(m: Node, c: Chain) {
    c.Link? && (c.node == m || InChain(m, c.next))
  }

  ghost predicate IsChild(m: Node, s: Split) {
    s.Branch? && (InChain(m, s.any) || exists b :: 0 <= b < |s.buckets| && InChain(m, s.buckets[b]))
  }

  lemma {:induction false} InChainFacts(m: Node, c: Chain, b: nat, nb: nat, f: Bit, path: Mask)
    requires InChain(m, c) && nb > 0 && ChainWF(c, b, nb, f, path)
    ensures Routed(m, f, Some(m.value)) && forall x: Rule :: Copies(m, None, x) <= ChainCopies(c, None, x)
    decreases c
  {
    if c.node != m {
      InChainFacts(m, c.next, b, nb, f, path);
    }
  }

  lemma ChildFacts(m: Node, n: Node, path: Mask)
    requires NodeWF(n, path) && IsChild(m, n.split)
    ensures Routed(m, n.split.field, Some(m.value)) || Routed(m, n.split.field, None)
    ensures forall x: Rule :: Copies(m, None, x) <= Copies(n, None, x)
  {
    var Branch(f, bs, any) := n.split;
    if InChain(m, any) {
      assert !InChain(m, any.next);
      assert any.node == m;
    } else {
      var b :| 0 <= b < |bs| && InChain(m, bs[b]);
      InChainFacts(m, bs[b], b, |bs|, f, path + {f});
      forall x: Rule ensures Copies(m, None, x) <= Copies(n, None, x) { BucketCopies(bs, b, x); }
    }
  }

  ghost function RulesOf(es: seq<(Addr, Rule)>): seq<Rule> {
    seq(|es|, i requires 0 <= i < |es| => es[i].1)
  }

  lemma {:induction false} RulesOfCount(es: seq<(Addr, Rule)>, x: Rule)
    ensures multiset(RulesOf(es))[x] == CountRule(es, x)
  {
    if es != [] {
      RulesOfCount(es[1..], x);
      assert RulesOf(es) == [es[0].1] + RulesOf(es[1..]);
    }
  }

  lemma FewerRules(m: Node, rs: seq<Rule>, missing: Rule)
    requires forall x: Rule :: Copies(m, None, x) <= multiset(rs)[x]
    requires missing in rs && !Has(m, missing)
    ensures |Entries(m)| < |rs|
  {
    var a, b := multiset(RulesOf(Entries(m))), multiset(rs);
    forall x: Rule ensures a[x] == Copies(m, None, x) {
      RulesOfCount(Entries(m), x);
      EntriesCount(m, x);
    }
    assert a <= b - multiset{missing};
    var c := b - multiset{missing} - a;
    assert b == a + c + multiset{missing};
  }

  /** Every child of a node that was just split holds strictly fewer rules. */
  lemma FreshSplitShrinks(n: Node, path: Mask, isCopy: bool, h: Heap, m: Node)
    requires n.split.Leaf? && NodeWF(n, path)
    requires SplitNode(n, path, isCopy, h).ok && IsChild(m, SplitNode(n, path, isCopy, h).at.split)
    ensures |Entries(m)| < |n.rules|
  {
    var s := SplitNode(n, path, isCopy, h);
    SplitNodeShape(n, path, isCopy, h);
    SplitNodeWF(n, path, isCopy, h);
    ChildFacts(m, s.at, path);
    forall x: Rule ensures Copies(m, None, x) <= multiset(n.rules)[x] {
      SplitNodeCopies(n, path, isCopy, h, x);
    }
    var i, j := ChoiceSeparates(n.rules, path);
    var missing := if Has(m, n.rules[i]) then n.rules[j] else n.rules[i];
    FewerRules(m, n.rules, missing);
  }
}
