/** The work stack of a lookup (Classifier::get_rules and Cnode::traverse), as the
    addresses of nodes still to be visited, with any push throwing. */
module CnodeWalk {
  import opened Basics
  import opened PacketExpr
  import opened RuleList
  import opened CnodeTree
  import opened CnodeEdit
  import opened CnodeShape
  import opened CnodeResult
  import opened CnodeLookup
  import opened CnodeLive

  // ----- Nodes by address

  /** The node at an address, if it is in the tree. */
  function FindNode(n: Node, a: Addr): Option<Node> {
    if n.addr == a then Some(n)
    else
      match n.split
      case Leaf => None
      case Branch(_, bs, any) =>
        var t := FindInTable(bs, a);
        if t.Some? then t else FindInChain(any, a)
  }

  function FindInChain(c: Chain, a: Addr): Option<Node> {
    match c
    case Nil => None
    case Link(n, k) => var t := FindNode(n, a); if t.Some? then t else FindInChain(k, a)
  }

  function FindInTable(bs: seq<Chain>, a: Addr): Option<Node> {
    if bs == [] then None
    else var t := FindInChain(bs[0], a); if t.Some? then t else FindInTable(bs[1..], a)
  }

  lemma {:induction false} FindNodeIs(n: Node, a: Addr)
    ensures FindNode(n, a).None? <==> Uses(n, a) == 0
    ensures FindNode(n, a).Some? ==> FindNode(n, a).value.addr == a && Within(FindNode(n, a).value, n)
    decreases n
  {
    if n.split.Branch? {
      FindInTableIs(n.split.buckets, a);
      FindInChainIs(n.split.any, a);
    }
  }

  lemma {:induction false} FindInChainIs(c: Chain, a: Addr)
    ensures FindInChain(c, a).None? <==> ChainUses(c, a) == 0
    ensures FindInChain(c, a).Some? ==> FindInChain(c, a).value.addr == a && WithinChain(FindInChain(c, a).value, c)
    decreases c
  {
    if c.Link? {
      FindNodeIs(c.node, a);
      FindInChainIs(c.next, a);
    }
  }

  lemma {:induction false} FindInTableIs(bs: seq<Chain>, a: Addr)
    ensures FindInTable(bs, a).None? <==> TableUses(bs, a) == 0
    ensures FindInTable(bs, a).Some? ==> FindInTable(bs, a).value.addr == a && WithinTable(FindInTable(bs, a).value, bs)
    decreases bs
  {
    if bs != [] {
      FindInChainIs(bs[0], a);
      FindInTableIs(bs[1..], a);
    }
  }

  /** A node is found at its own address. */
  lemma {:induction false} WithinFound(m: Node, n: Node)
    requires Within(m, n) && Uses(n, m.addr) == 1
    ensures FindNode(n, m.addr) == Some(m)
    decreases n
  {
    if m != n {
      FindInTableIs(n.split.buckets, m.addr);
      if WithinTable(m, n.split.buckets) {
        WithinTableUses(m, n.split.buckets);
        WithinTableFound(m, n.split.buckets);
      } else {
        WithinChainUses(m, n.split.any);
        WithinChainFound(m, n.split.any);
      }
    }
  }

  lemma {:induction false} WithinChainFound(m: Node, c: Chain)
    requires WithinChain(m, c) && ChainUses(c, m.addr) == 1
    ensures FindInChain(c, m.addr) == Some(m)
    decreases c
  {
    FindNodeIs(c.node, m.addr);
    if Within(m, c.node) {
      WithinUses(m, c.node);
      WithinFound(m, c.node);
    } else {
      WithinChainUses(m, c.next);
      WithinChainFound(m, c.next);
    }
  }

  lemma {:induction false} WithinTableFound(m: Node, bs: seq<Chain>)
    requires WithinTable(m, bs) && TableUses(bs, m.addr) == 1
    ensures FindInTable(bs, m.addr) == Some(m)
    decreases bs
  {
    FindInChainIs(bs[0], m.addr);
    if WithinChain(m, bs[0]) {
      WithinChainUses(m, bs[0]);
      WithinChainFound(m, bs[0]);
    } else {
      WithinTableUses(m, bs[1..]);
      WithinTableFound(m, bs[1..]);
    }
  }

  /** The nodes of the tree at these addresses. */
  ghost predicate Names(root: Node, addrs: seq<Addr>, ns: seq<Node>) {
    |addrs| == |ns| && forall i | 0 <= i < |ns| :: FindNode(root, addrs[i]) == Some(ns[i])
  }

  function Addrs(ns: seq<Node>): seq<Addr> {
    seq(|ns|, i requires 0 <= i < |ns| => ns[i].addr)
  }

  /** Pushing the addresses of nodes of the tree. */
  lemma NamesPushed(root: Node, addrs: seq<Addr>, ns: seq<Node>, ms: seq<Node>)
    requires Names(root, addrs, ns) && forall m | m in ms :: Within(m, root) && Uses(root, m.addr) == 1
    ensures Names(root, addrs + Addrs(ms), ns + ms)
  {
    forall i | 0 <= i < |ms| ensures FindNode(root, Addrs(ms)[i]) == Some(ms[i]) {
      assert ms[i] in ms;
      WithinFound(ms[i], root);
    }
  }

  // ----- Nodes of the tree are ready to be visited

  lemma {:induction false} WithinSplits(m: Node, n: Node, fs: Mask)
    requires Within(m, n) && SplitsIn(n, fs)
    ensures SplitsIn(m, fs)
    decreases n
  {
    if m != n {
      if WithinTable(m, n.split.buckets) {
        WithinTableSplits(m, n.split.buckets, fs);
      } else {
        WithinChainSplits(m, n.split.any, fs);
      }
    }
  }

  lemma {:induction false} WithinChainSplits(m: Node, c: Chain, fs: Mask)
    requires WithinChain(m, c) && ChainSplitsIn(c, fs)
    ensures SplitsIn(m, fs)
    decreases c
  {
    if Within(m, c.node) { WithinSplits(m, c.node, fs); } else { WithinChainSplits(m, c.next, fs); }
  }

  lemma {:induction false} WithinTableSplits(m: Node, bs: seq<Chain>, fs: Mask)
    requires WithinTable(m, bs) && TableSplitsIn(bs, fs)
    ensures SplitsIn(m, fs)
    decreases bs
  {
    if WithinChain(m, bs[0]) { WithinChainSplits(m, bs[0], fs); } else { WithinTableSplits(m, bs[1..], fs); }
  }

  /** A node below another is below one of its buckets or below its any-child. */
  lemma WithinWhere(m: Node, n: Node, path: Mask) returns (inTable: bool)
    requires Within(m, n) && NodeWF(n, path) && m != n
    ensures n.split.Branch? && |n.split.buckets| > 0
    ensures inTable ==>
              && WithinTable(m, n.split.buckets)
              && ChainsWF(n.split.buckets, 0, |n.split.buckets|, n.split.field, path + {n.split.field})
    ensures !inTable ==>
              n.split.any.Link? && Within(m, n.split.any.node) && NodeWF(n.split.any.node, path + {n.split.field})
  {
    inTable := WithinTable(m, n.split.buckets);
    assert !inTable ==> WithinChain(m, n.split.any) && !WithinChain(m, n.split.any.next);
    assert ChainsWF(n.split.buckets, 0, |n.split.buckets|, n.split.field, path + {n.split.field});
  }

  lemma {:induction false} WithinWF(m: Node, n: Node, path: Mask)
    requires Within(m, n) && NodeWF(n, path)
    ensures WellFormed(m)
    decreases n
  {
    if m != n {
      var inTable := WithinWhere(m, n, path);
      if inTable {
        WithinTableWF(m, n.split.buckets, 0, |n.split.buckets|, n.split.field, path + {n.split.field});
      } else {
        WithinWF(m, n.split.any.node, path + {n.split.field});
      }
    }
  }

  lemma {:induction false} WithinChainWF(m: Node, c: Chain, b: nat, nb: nat, f: Bit, path: Mask)
    requires nb > 0 && WithinChain(m, c) && ChainWF(c, b, nb, f, path)
    ensures WellFormed(m)
    decreases c
  {
    if Within(m, c.node) { WithinWF(m, c.node, path); } else { WithinChainWF(m, c.next, b, nb, f, path); }
  }

  lemma {:induction false} WithinTableWF(m: Node, bs: seq<Chain>, base: nat, nb: nat, f: Bit, path: Mask)
    requires nb > 0 && WithinTable(m, bs) && ChainsWF(bs, base, nb, f, path)
    ensures WellFormed(m)
    decreases bs
  {
    if WithinChain(m, bs[0]) {
      WithinChainWF(m, bs[0], base, nb, f, path);
    } else {
      forall b | 0 <= b < |bs[1..]| ensures ChainWF(bs[1..][b], base + 1 + b, nb, f, path) {
        assert bs[1..][b] == bs[b + 1] && base + 1 + b == base + (b + 1);
      }
      WithinTableWF(m, bs[1..], base + 1, nb, f, path);
    }
  }

  // ----- The walk

  /** What get_rules has at hand: the nodes to visit, the cursors recorded, how
      many more pushes succeed, the cursors that can be recorded without
      allocating, and whether a push threw. */
  datatype Walk = Walk(stack: seq<Node>, cursors: seq<Cursor>, left: nat, spare: nat, threw: bool)

  ghost predicate AllReady(ns: seq<Node>, root: Node, fs: Mask) {
    forall m | m in ns :: Ready(m, root, fs)
  }

  /** Visiting a node: its list is recorded, then its children are pushed one by
      one. */
  ghost function Visit(w: Walk, n: Node, d: Data): Walk
    requires n.split.Branch? ==> Askable(d, n.split.field)
  {
    var cost := if n.rules == [] || w.spare > 0 then 0 else 1;
    if w.left < cost then w.(threw := true)
    else
      var p := Pushes(n, d);
      var k := if w.left - cost < |p| then w.left - cost else |p|;
      Walk(w.stack + p[..k], w.cursors + OwnCursor(n), w.left - cost - k,
           if n.rules == [] || w.spare == 0 then w.spare else w.spare - 1, k < |p|)
  }

  lemma VisitReady(w: Walk, n: Node, d: Data, root: Node, fs: Mask)
    requires AllReady(w.stack + [n], root, fs) && CanAsk(d, fs)
    ensures n.split.Branch? ==> Askable(d, n.split.field)
    ensures AllReady(Visit(w, n, d).stack, root, fs)
    ensures !Visit(w, n, d).threw ==> SumWeight(Visit(w, n, d).stack) < SumWeight(w.stack + [n])
  {
    assert n in w.stack + [n];
    forall m | m in w.stack ensures Ready(m, root, fs) { assert m in w.stack + [n]; }
    var v := Visit(w, n, d);
    forall m | m in v.stack ensures Ready(m, root, fs) {
      if m !in w.stack { PushedReady(n, root, fs, d, m); }
    }
    var p := Pushes(n, d);
    assert p[..|p|] == p;
    PushesWeigh(n, d);
    SumWeightConcat(w.stack, [n]);
    SumWeightConcat(w.stack, Pushes(n, d));
    assert SumWeight([n]) == Weight(n);
  }

  /** The walk until the stack is empty or a push throws. */
  ghost function Drive(w: Walk, d: Data, root: Node, fs: Mask): Walk
    requires AllReady(w.stack, root, fs) && CanAsk(d, fs)
    decreases SumWeight(w.stack)
  {
    if w.threw || w.stack == [] then w
    else
      var n, rest := w.stack[|w.stack| - 1], w.stack[..|w.stack| - 1];
      assert rest + [n] == w.stack;
      VisitReady(w.(stack := rest), n, d, root, fs);
      var v := Visit(w.(stack := rest), n, d);
      if v.threw then v else Drive(v, d, root, fs)
  }

  /** A walk that completes has covered everything below the root and below the
      nodes that were on the stack before. */
  lemma {:induction false} DriveCovers(w: Walk, d: Data, root: Node, fs: Mask, extra: seq<Node>)
    requires AllReady(w.stack, root, fs) && CanAsk(d, fs) && !w.threw
    requires AllLive(root, w.cursors) && Covers(root, extra, w.stack, w.cursors, d)
    requires forall a: Addr | Uses(root, a) > 0 :: Uses(root, a) == 1
    ensures var v := Drive(w, d, root, fs);
            && AllReady(v.stack, root, fs)
            && (!v.threw ==> v.stack == [] && AllLive(root, v.cursors) && Covers(root, extra, [], v.cursors, d))
    decreases SumWeight(w.stack)
  {
    if w.stack != [] {
      var n, rest := w.stack[|w.stack| - 1], w.stack[..|w.stack| - 1];
      assert rest + [n] == w.stack;
      var u := w.(stack := rest);
      VisitReady(u, n, d, root, fs);
      var v := Visit(u, n, d);
      if !v.threw {
        assert n in w.stack && Pushes(n, d)[..|Pushes(n, d)|] == Pushes(n, d);
        WithinUses(n, root);
        VisitLive(root, n, w.cursors);
        VisitCovers(root, extra, rest, n, w.cursors, d);
        DriveCovers(v, d, root, fs, extra);
      }
    }
  }

  /** A whole call of get_rules with nodes `extra` left on the stack by earlier
      calls that threw. */
  ghost function Lookup(root: Node, extra: seq<Node>, d: Data, spare: nat, left: nat, fs: Mask): Walk {
    var w := Walk(extra + [root], [], left, spare, false);
    if AllReady(w.stack, root, fs) && CanAsk(d, fs) then Drive(w, d, root, fs) else w
  }

  // ----- What a walk costs

  /** The children a visit goes on to. */
  function Children(n: Node, d: Data): seq<Node> {
    if n.split.Branch? && !Askable(d, n.split.field) then [] else Pushes(n, d)
  }

  lemma ChildrenWeigh(n: Node, d: Data)
    ensures SumWeight(Children(n, d)) < Weight(n)
  {
    if n.split.Leaf? || Askable(d, n.split.field) { PushesWeigh(n, d); }
  }

  /** How many nodes are pushed below these. */
  ghost function PushCount(ns: seq<Node>, d: Data): nat
    decreases SumWeight(ns)
  {
    if ns == [] then 0
    else
      ChildrenWeigh(ns[0], d);
      |Children(ns[0], d)| + PushCount(Children(ns[0], d), d) + PushCount(ns[1..], d)
  }

  /** How many of the nodes come to have rules. */
  ghost function ListCount(ns: seq<Node>, d: Data): nat
    decreases SumWeight(ns)
  {
    if ns == [] then 0
    else
      ChildrenWeigh(ns[0], d);
      (if ns[0].rules == [] then 0 else 1) + ListCount(Children(ns[0], d), d) + ListCount(ns[1..], d)
  }

  lemma {:induction false} CountConcat(a: seq<Node>, b: seq<Node>, d: Data)
    ensures PushCount(a + b, d) == PushCount(a, d) + PushCount(b, d)
    ensures ListCount(a + b, d) == ListCount(a, d) + ListCount(b, d)
  {
    if a == [] {
      assert a + b == b;
    } else {
      assert (a + b)[0] == a[0] && (a + b)[1..] == a[1..] + b;
      CountConcat(a[1..], b, d);
    }
  }

  lemma CountOne(n: Node, d: Data)
    ensures PushCount([n], d) == |Children(n, d)| + PushCount(Children(n, d), d)
    ensures ListCount([n], d) == (if n.rules == [] then 0 else 1) + ListCount(Children(n, d), d)
  {
    assert [n][1..] == [];
  }

  /** The allocations of a walk: one for each push, and one for each list beyond
      those for which there is room. */
  ghost function Needs(ns: seq<Node>, d: Data, spare: nat): nat {
    PushCount(ns, d) + if ListCount(ns, d) > spare then ListCount(ns, d) - spare else 0
  }

  /** What the node on top of the stack costs, and what its children cost. */
  lemma TopNeeds(stack: seq<Node>, n: Node, d: Data, spare: nat)
    requires n.split.Branch? ==> Askable(d, n.split.field)
    ensures var listed := if n.rules == [] then 0 else 1;
            var cost := if n.rules == [] || spare > 0 then 0 else 1;
            Needs(stack + [n], d, spare)
            == cost + |Pushes(n, d)| + Needs(stack + Pushes(n, d), d, if spare >= listed then spare - listed else 0)
  {
    CountConcat(stack, [n], d);
    CountConcat(stack, Pushes(n, d), d);
    CountOne(n, d);
  }

  lemma VisitNeeds(w: Walk, n: Node, d: Data)
    requires n.split.Branch? ==> Askable(d, n.split.field)
    ensures var v := Visit(w, n, d);
            if v.threw then w.left < Needs(w.stack + [n], d, w.spare)
            else v.left - Needs(v.stack, d, v.spare) == w.left - Needs(w.stack + [n], d, w.spare)
  {
    var p := Pushes(n, d);
    assert p[..|p|] == p;
    TopNeeds(w.stack, n, d, w.spare);
  }

  /** A walk throws if and only if it needs more than is left. */
  lemma {:induction false} DriveThrowsIff(w: Walk, d: Data, root: Node, fs: Mask)
    requires AllReady(w.stack, root, fs) && CanAsk(d, fs) && !w.threw
    ensures Drive(w, d, root, fs).threw <==> w.left < Needs(w.stack, d, w.spare)
    decreases SumWeight(w.stack)
  {
    if w.stack != [] {
      var n, rest := w.stack[|w.stack| - 1], w.stack[..|w.stack| - 1];
      assert rest + [n] == w.stack;
      var u := w.(stack := rest);
      VisitReady(u, n, d, root, fs);
      VisitNeeds(u, n, d);
      if !Visit(u, n, d).threw { DriveThrowsIff(Visit(u, n, d), d, root, fs); }
    }
  }

  /** Each node below is pushed at most once and recorded at most once. */
  lemma {:induction false} CountBound(ns: seq<Node>, d: Data)
    ensures PushCount(ns, d) + |ns| <= SumWeight(ns) && ListCount(ns, d) <= SumWeight(ns)
    decreases SumWeight(ns)
  {
    if ns != [] {
      ChildrenWeigh(ns[0], d);
      CountBound(Children(ns[0], d), d);
      CountBound(ns[1..], d);
    }
  }

  /** Two allocations for each node there is are enough. */
  lemma NeedsBound(ns: seq<Node>, d: Data, spare: nat)
    ensures Needs(ns, d, spare) <= 2 * SumWeight(ns)
  {
    CountBound(ns, d);
  }
}
