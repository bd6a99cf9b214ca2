/** Iterating over lists of a tree that changes: result cursors stand in live
    lists, and deleting a rule already returned does not disturb them. */
module CnodeLive {
  import opened Basics
  import opened PacketExpr
  import opened RuleList
  import opened CnodeTree
  import opened CnodeEdit
  import opened CnodeShape
  import opened CnodeResult
  import opened CnodeLookup

  /** The node `m` is somewhere in the subtree `n`. */
  ghost predicate Within(m: Node, n: Node) {
    m == n || (n.split.Branch? && (WithinTable(m, n.split.buckets) || WithinChain(m, n.split.any)))
  }

  ghost predicate WithinChain(m: Node, c: Chain) {
    c.Link? && (Within(m, c.node) || WithinChain(m, c.next))
  }

  ghost predicate WithinTable(m: Node, bs: seq<Chain>) {
    bs != [] && (WithinChain(m, bs[0]) || WithinTable(m, bs[1..]))
  }

  lemma {:induction false} WithinTrans(k: Node, m: Node, n: Node)
    requires Within(k, m) && Within(m, n)
    ensures Within(k, n)
    decreases n
  {
    if m != n {
      if WithinTable(m, n.split.buckets) {
        WithinTableTrans(k, m, n.split.buckets);
      } else {
        WithinChainTrans(k, m, n.split.any);
      }
    }
  }

  lemma {:induction false} WithinChainTrans(k: Node, m: Node, c: Chain)
    requires Within(k, m) && WithinChain(m, c)
    ensures WithinChain(k, c)
    decreases c
  {
    if Within(m, c.node) { WithinTrans(k, m, c.node); } else { WithinChainTrans(k, m, c.next); }
  }

  lemma {:induction false} WithinTableTrans(k: Node, m: Node, bs: seq<Chain>)
    requires Within(k, m) && WithinTable(m, bs)
    ensures WithinTable(k, bs)
    decreases bs
  {
    if WithinChain(m, bs[0]) { WithinChainTrans(k, m, bs[0]); } else { WithinTableTrans(k, m, bs[1..]); }
  }

  lemma {:induction false} WithinUses(m: Node, n: Node)
    requires Within(m, n)
    ensures Uses(n, m.addr) > 0
    decreases n
  {
    if m != n {
      if WithinTable(m, n.split.buckets) { WithinTableUses(m, n.split.buckets); } else { WithinChainUses(m, n.split.any); }
    }
  }

  lemma {:induction false} WithinChainUses(m: Node, c: Chain)
    requires WithinChain(m, c)
    ensures ChainUses(c, m.addr) > 0
    decreases c
  {
    if Within(m, c.node) { WithinUses(m, c.node); } else { WithinChainUses(m, c.next); }
  }

  lemma {:induction false} WithinTableUses(m: Node, bs: seq<Chain>)
    requires WithinTable(m, bs)
    ensures TableUses(bs, m.addr) > 0
    decreases bs
  {
    if WithinChain(m, bs[0]) { WithinChainUses(m, bs[0]); } else { WithinTableUses(m, bs[1..]); }
  }

  /** Following a node's address leads to its list. */
  lemma {:induction false} WithinList(m: Node, n: Node)
    requires Within(m, n) && Uses(n, m.addr) == 1
    ensures ListAt(n, m.addr) == m.rules
    decreases n
  {
    if m != n {
      if WithinTable(m, n.split.buckets) {
        WithinTableUses(m, n.split.buckets);
        WithinTableList(m, n.split.buckets);
      } else {
        WithinChainUses(m, n.split.any);
        WithinChainList(m, n.split.any);
      }
    }
  }

  lemma {:induction false} WithinChainList(m: Node, c: Chain)
    requires WithinChain(m, c) && ChainUses(c, m.addr) == 1
    ensures ChainListAt(c, m.addr) == m.rules
    decreases c
  {
    if Within(m, c.node) {
      WithinUses(m, c.node);
      WithinList(m, c.node);
    } else {
      WithinChainUses(m, c.next);
      WithinChainList(m, c.next);
    }
  }

  lemma {:induction false} WithinTableList(m: Node, bs: seq<Chain>)
    requires WithinTable(m, bs) && TableUses(bs, m.addr) == 1
    ensures TableListAt(bs, m.addr) == m.rules
    decreases bs
  {
    if WithinChain(m, bs[0]) {
      WithinChainUses(m, bs[0]);
      WithinChainList(m, bs[0]);
    } else {
      WithinTableUses(m, bs[1..]);
      WithinTableList(m, bs[1..]);
    }
  }

  // ----- Children

  lemma {:induction false} ChainNodesWithin(c: Chain, m: Node)
    requires m in ChainNodes(c)
    ensures WithinChain(m, c)
  {
    if m != c.node { ChainNodesWithin(c.next, m); }
  }

  lemma {:induction false} FindChildWithin(c: Chain, v: uint32, m: Node)
    requires m in FindChild(c, v)
    ensures m in ChainNodes(c)
  {
    if m != c.node { FindChildWithin(c.next, v, m); }
  }

  lemma {:induction false} TableNodesWithin(bs: seq<Chain>, m: Node)
    requires m in TableNodes(bs)
    ensures WithinTable(m, bs) && exists b :: 0 <= b < |bs| && m in ChainNodes(bs[b])
  {
    if m in ChainNodes(bs[0]) {
      ChainNodesWithin(bs[0], m);
    } else {
      TableNodesWithin(bs[1..], m);
      var b :| 0 <= b < |bs[1..]| && m in ChainNodes(bs[1..][b]);
      assert m in ChainNodes(bs[b + 1]);
    }
  }

  lemma {:induction false} BucketWithin(bs: seq<Chain>, b: nat, m: Node)
    requires b < |bs| && WithinChain(m, bs[b])
    ensures WithinTable(m, bs)
  {
    if b > 0 { BucketWithin(bs[1..], b - 1, m); }
  }

  /** A pushed node is the any-child or in some bucket. */
  lemma PushedFrom(n: Node, d: Data, m: Node)
    requires (n.split.Branch? ==> Askable(d, n.split.field)) && m in Pushes(n, d)
    ensures n.split.Branch?
    ensures m in ChainNodes(n.split.any) || exists b :: 0 <= b < |n.split.buckets| && m in ChainNodes(n.split.buckets[b])
  {
    var Branch(f, bs, any) := n.split;
    if m !in ChainNodes(any) {
      match DataField(d, f) {
        case Some(v) => FindChildWithin(bs[GetBucket(v, |bs|)], v, m);
        case None => TableNodesWithin(bs, m);
      }
    }
  }

  lemma PushedWithin(n: Node, d: Data, m: Node)
    requires (n.split.Branch? ==> Askable(d, n.split.field)) && m in Pushes(n, d)
    ensures Within(m, n)
  {
    PushedFrom(n, d, m);
    if m in ChainNodes(n.split.any) {
      ChainNodesWithin(n.split.any, m);
    } else {
      var b :| 0 <= b < |n.split.buckets| && m in ChainNodes(n.split.buckets[b]);
      ChainNodesWithin(n.split.buckets[b], m);
      BucketWithin(n.split.buckets, b, m);
    }
  }

  lemma {:induction false} ChainNodesWF(c: Chain, b: nat, nb: nat, f: Bit, path: Mask, m: Node)
    requires nb > 0 && ChainWF(c, b, nb, f, path) && m in ChainNodes(c)
    ensures NodeWF(m, path)
    decreases c
  {
    if m != c.node { ChainNodesWF(c.next, b, nb, f, path, m); }
  }

  lemma PushedWF(n: Node, d: Data, path: Mask, m: Node)
    requires (n.split.Branch? ==> Askable(d, n.split.field)) && m in Pushes(n, d) && NodeWF(n, path)
    ensures n.split.Branch? && NodeWF(m, path + {n.split.field})
  {
    PushedFrom(n, d, m);
    var Branch(f, bs, any) := n.split;
    if m in ChainNodes(any) {
      assert ChainNodes(any) == [any.node] + ChainNodes(any.next);
    } else {
      var b :| 0 <= b < |bs| && m in ChainNodes(bs[b]);
      ChainNodesWF(bs[b], b, |bs|, f, path + {f}, m);
    }
  }

  // ----- Cursors in live lists

  ghost predicate Live(root: Node, c: Cursor) {
    && Uses(root, c.addr) == 1
    && |c.rest| <= |ListAt(root, c.addr)|
    && c.rest == ListAt(root, c.addr)[|ListAt(root, c.addr)| - |c.rest|..]
  }

  ghost predicate AllLive(root: Node, cs: seq<Cursor>) {
    forall i | 0 <= i < |cs| :: Live(root, cs[i])
  }

  /** Moving on keeps cursors in their lists. */
  lemma LaterLive(root: Node, cs: seq<Cursor>, ds: seq<Cursor>)
    requires AllLive(root, cs) && Later(ds, cs)
    ensures AllLive(root, ds)
  {
    forall j | 0 <= j < |ds| ensures Live(root, ds[j]) {
      assert HasSource(ds[j], cs);
      var i :| 0 <= i < |cs| && IsLater(ds[j], cs[i]);
      assert Live(root, cs[i]);
    }
  }

  /** The list at an address after an edit. */
  lemma {:induction false} EditedList(n: Node, a: Addr, id: uint32, repl: Option<Rule>, b: Addr)
    requires Uses(n, b) == 1
    ensures Uses(EditAt(n, a, id, repl), b) == 1
    ensures ListAt(EditAt(n, a, id, repl), b) == if a == b then EditList(ListAt(n, b), id, repl) else ListAt(n, b)
    decreases n
  {
    EditUses(n, a, id, repl, b);
    if n.addr != b {
      var Branch(_, bs, any) := n.split;
      EditTableUses(bs, a, id, repl, b);
      if TableUses(bs, b) == 1 { EditedTableList(bs, a, id, repl, b); } else { EditedChainList(any, a, id, repl, b); }
    }
  }

  lemma {:induction false} EditedChainList(c: Chain, a: Addr, id: uint32, repl: Option<Rule>, b: Addr)
    requires ChainUses(c, b) == 1
    ensures ChainUses(EditChain(c, a, id, repl), b) == 1
    ensures ChainListAt(EditChain(c, a, id, repl), b)
            == if a == b then EditList(ChainListAt(c, b), id, repl) else ChainListAt(c, b)
    decreases c
  {
    EditChainUses(c, a, id, repl, b);
    EditUses(c.node, a, id, repl, b);
    if Uses(c.node, b) == 1 { EditedList(c.node, a, id, repl, b); } else { EditedChainList(c.next, a, id, repl, b); }
  }

  lemma {:induction false} EditedTableList(bs: seq<Chain>, a: Addr, id: uint32, repl: Option<Rule>, b: Addr)
    requires TableUses(bs, b) == 1
    ensures TableUses(EditTable(bs, a, id, repl), b) == 1
    ensures TableListAt(EditTable(bs, a, id, repl), b)
            == if a == b then EditList(TableListAt(bs, b), id, repl) else TableListAt(bs, b)
    decreases bs
  {
    EditTableUses(bs, a, id, repl, b);
    EditChainUses(bs[0], a, id, repl, b);
    if ChainUses(bs[0], b) == 1 { EditedChainList(bs[0], a, id, repl, b); } else { EditedTableList(bs[1..], a, id, repl, b); }
  }

  lemma {:induction false} WithoutKeepsSuffix(l: seq<Rule>, k: nat, id: uint32)
    requires k <= |l| && (exists i :: 0 <= i < |l| - k && l[i].id == id)
    ensures |Without(l, id)| == |l| - 1 && Without(l, id)[|l| - 1 - k..] == l[|l| - k..]
  {
    if l[0].id != id {
      var i :| 0 <= i < |l| - k && l[i].id == id;
      assert l[1..][i - 1].id == id;
      WithoutKeepsSuffix(l[1..], k, id);
      assert l[1..][|l| - 1 - k..] == l[|l| - k..];
    }
  }

  lemma SuffixSurvives(l: seq<Rule>, rest: seq<Rule>, r: Rule)
    requires |rest| <= |l| && rest == l[|l| - |rest|..] && r in l
    requires forall x | x in rest :: x.id != r.id
    ensures var m := Without(l, r.id); |rest| <= |m| && rest == m[|m| - |rest|..]
  {
    forall k | |l| - |rest| <= k < |l| ensures l[k] in rest {
      assert l[k] == rest[k - (|l| - |rest|)];
    }
    var j :| 0 <= j < |l| && l[j] == r;
    WithoutKeepsSuffix(l, |rest|, r.id);
  }

  lemma DeleteKeepsOneLive(root: Node, c: Cursor, a: Addr, r: Rule)
    requires Live(root, c) && Uses(root, a) == 1 && r in ListAt(root, a)
    requires forall x | x in c.rest :: x.id != r.id
    ensures Live(EditAt(root, a, r.id, None), c)
  {
    EditedList(root, a, r.id, None, c.addr);
    if c.addr == a { SuffixSurvives(ListAt(root, a), c.rest, r); }
  }

  /** Deleting a rule no cursor has ahead leaves every cursor in its list: the
      iterators of the source stay valid. */
  lemma DeleteKeepsLive(root: Node, cs: seq<Cursor>, a: Addr, r: Rule)
    requires AllLive(root, cs) && Uses(root, a) == 1 && r in ListAt(root, a)
    requires forall i | 0 <= i < |cs| :: forall x | x in cs[i].rest :: x.id != r.id
    ensures AllLive(EditAt(root, a, r.id, None), cs)
  {
    forall i | 0 <= i < |cs| ensures Live(EditAt(root, a, r.id, None), cs[i]) {
      DeleteKeepsOneLive(root, cs[i], a, r);
    }
  }

  // ----- Nodes on the work stack of a lookup

  ghost predicate WellFormed(m: Node) {
    exists path: Mask :: NodeWF(m, path)
  }

  /** A node of the tree, well-formed, that can be asked about. */
  ghost predicate Ready(m: Node, root: Node, fs: Mask) {
    Within(m, root) && SplitsIn(m, fs) && WellFormed(m)
  }

  ghost predicate CanAsk(d: Data, fs: Mask) {
    forall f: Bit | f in fs :: Askable(d, f)
  }

  lemma {:induction false} ChainNodesSplits(c: Chain, fs: Mask, m: Node)
    requires ChainSplitsIn(c, fs) && m in ChainNodes(c)
    ensures SplitsIn(m, fs)
  {
    if m != c.node { ChainNodesSplits(c.next, fs, m); }
  }

  lemma PushedReady(n: Node, root: Node, fs: Mask, d: Data, m: Node)
    requires Ready(n, root, fs) && CanAsk(d, fs) && m in Pushes(n, d)
    ensures Ready(m, root, fs)
  {
    PushedFrom(n, d, m);
    var Branch(f, bs, any) := n.split;
    if m in ChainNodes(any) {
      ChainNodesSplits(any, fs, m);
    } else {
      var b :| 0 <= b < |bs| && m in ChainNodes(bs[b]);
      TableSplitsAt(bs, b, Nil, fs);
      ChainNodesSplits(bs[b], fs, m);
    }
    PushedWithin(n, d, m);
    WithinTrans(m, n, root);
    var path: Mask :| NodeWF(n, path);
    PushedWF(n, d, path, m);
  }

  lemma AheadPushed(cs: seq<Cursor>, c: Cursor, x: Rule)
    ensures Ahead(cs + [c], x) == Ahead(cs, x) + multiset(c.rest)[x]
  {
    AheadLast(cs + [c], x);
    assert (cs + [c])[..|cs + [c]| - 1] == cs;
  }

  ghost function OwnCursor(n: Node): seq<Cursor> {
    if n.rules == [] then [] else [Cursor(n.addr, n.rules, false)]
  }

  /** Every rule below the root or below a node of `extra` is ahead of a cursor,
      or below a node still to be visited, or does not match. */
  ghost predicate Covers(root: Node, extra: seq<Node>, stack: seq<Node>, cs: seq<Cursor>, d: Data) {
    && (forall x: Rule :: Ahead(cs, x) + SumCopies(stack, x) <= Copies(root, None, x) + SumCopies(extra, x))
    && (forall x: Rule | Matching(x, d) ::
          Ahead(cs, x) + SumCopies(stack, x) == Copies(root, None, x) + SumCopies(extra, x))
  }

  lemma VisitCovers(root: Node, extra: seq<Node>, stack: seq<Node>, n: Node, cs: seq<Cursor>, d: Data)
    requires Covers(root, extra, stack + [n], cs, d) && WellFormed(n)
    requires n.split.Branch? ==> Askable(d, n.split.field)
    ensures Covers(root, extra, stack + Pushes(n, d), cs + OwnCursor(n), d)
  {
    forall x: Rule ensures
        && Ahead(cs + OwnCursor(n), x) + SumCopies(stack + Pushes(n, d), x) <= Ahead(cs, x) + SumCopies(stack + [n], x)
        && (Matching(x, d) ==>
              Ahead(cs + OwnCursor(n), x) + SumCopies(stack + Pushes(n, d), x) == Ahead(cs, x) + SumCopies(stack + [n], x))
    {
      VisitSums(stack, n, cs, d, x);
    }
  }

  lemma VisitSums(stack: seq<Node>, n: Node, cs: seq<Cursor>, d: Data, x: Rule)
    requires WellFormed(n) && (n.split.Branch? ==> Askable(d, n.split.field))
    ensures Ahead(cs + OwnCursor(n), x) + SumCopies(stack + Pushes(n, d), x) <= Ahead(cs, x) + SumCopies(stack + [n], x)
    ensures Matching(x, d) ==>
              Ahead(cs + OwnCursor(n), x) + SumCopies(stack + Pushes(n, d), x) == Ahead(cs, x) + SumCopies(stack + [n], x)
  {
    var path: Mask :| NodeWF(n, path);
    SumConcat(stack, [n], x);
    assert SumCopies([n], x) == Copies(n, None, x);
    SumConcat(stack, Pushes(n, d), x);
    PushesKeepMatches(n, d, path, x);
    if n.rules == [] {
      assert cs + OwnCursor(n) == cs;
    } else {
      AheadPushed(cs, Cursor(n.addr, n.rules, false), x);
    }
  }

  lemma VisitLive(root: Node, n: Node, cs: seq<Cursor>)
    requires AllLive(root, cs) && Within(n, root) && Uses(root, n.addr) == 1
    ensures AllLive(root, cs + OwnCursor(n))
  {
    WithinList(n, root);
    var ds := cs + OwnCursor(n);
    forall i | 0 <= i < |ds| ensures Live(root, ds[i]) {
      if i < |cs| { assert ds[i] == cs[i]; } else { assert ds[i] == Cursor(n.addr, n.rules, false); }
    }
  }
}
