/** The classifier's decision tree (src/include/cnode.hh).

    A node is a value that carries its address, so that a rule's back pointer
    (`Rule::node`) can name it; `Nil` is the null pointer of a chain.  `Heap`
    is the allocator: the next fresh address, and how many allocations still
    succeed before one throws. */
module CnodeTree {
  import opened Basics
  import opened PacketExpr
  import opened RuleList

  type Addr = nat

  datatype Node = Node(addr: Addr, value: uint32, rules: seq<Rule>, split: Split)
  datatype Split = Leaf | Branch(field: Bit, buckets: seq<Chain>, any: Chain)
  datatype Chain = Nil | Link(node: Node, next: Chain)

  datatype Heap = Heap(next: Addr, left: nat)

  /** The back pointers, by rule id; None is NULL. */
  type Ptrs = map<uint32, Option<Addr>>

  const HASH_MULTIPLIER: nat := 2654435761

  /** (value * HASH_MULTIPLIER) & (n - 1), for a power of two n. */
  function GetBucket(value: uint32, n: nat): (b: nat)
    requires n > 0
    ensures b < n
  {
    (value * HASH_MULTIPLIER) % 0x1_0000_0000 % n
  }

  ghost predicate PowerOfTwo(n: nat) {
    n == 1 || (n % 2 == 0 && n > 0 && PowerOfTwo(n / 2))
  }

  // ----- What a tree holds

  /** How many list entries of the subtree are the rule `x`: in all its nodes
      (`at` is None), or only in nodes at the given address. */
  ghost function Copies(n: Node, at: Option<Addr>, x: Rule): nat {
    (if at.None? || at.value == n.addr then multiset(n.rules)[x] else 0) +
    match n.split
    case Leaf => 0
    case Branch(_, bs, any) => TableCopies(bs, at, x) + ChainCopies(any, at, x)
  }

  ghost function ChainCopies(c: Chain, at: Option<Addr>, x: Rule): nat {
    match c
    case Nil => 0
    case Link(n, k) => Copies(n, at, x) + ChainCopies(k, at, x)
  }

  ghost function TableCopies(bs: seq<Chain>, at: Option<Addr>, x: Rule): nat {
    if bs == [] then 0 else ChainCopies(bs[0], at, x) + TableCopies(bs[1..], at, x)
  }

  /** The rule is in some list of the subtree. */
  ghost predicate Has(n: Node, x: Rule) {
    Copies(n, None, x) > 0
  }

  /** How many nodes of the subtree are at address `a`. */
  ghost function Uses(n: Node, a: Addr): nat {
    (if n.addr == a then 1 else 0) +
    match n.split
    case Leaf => 0
    case Branch(_, bs, any) => TableUses(bs, a) + ChainUses(any, a)
  }

  ghost function ChainUses(c: Chain, a: Addr): nat {
    match c
    case Nil => 0
    case Link(n, k) => Uses(n, a) + ChainUses(k, a)
  }

  ghost function TableUses(bs: seq<Chain>, a: Addr): nat {
    if bs == [] then 0 else ChainUses(bs[0], a) + TableUses(bs[1..], a)
  }

  predicate HasValue(c: Chain, v: uint32) {
    c.Link? && (c.node.value == v || HasValue(c.next, v))
  }

  // ----- Well-formedness

  /** Every rule below is routed here by its value of the field split on. */
  ghost predicate Routed(n: Node, f: Bit, v: Option<uint32>) {
    forall x: Rule | Has(n, x) :: GetField(x.expr, f) == v
  }

  ghost predicate NodeWF(n: Node, path: Mask) {
    && Sorted(n.rules)
    && match n.split
       case Leaf => true
       case Branch(f, bs, any) =>
         && f !in path
         && PowerOfTwo(|bs|)
         && (forall b | 0 <= b < |bs| :: ChainWF(bs[b], b, |bs|, f, path + {f}))
         && (any.Link? ==>
               && any.next.Nil?
               && NodeWF(any.node, path + {f})
               && Routed(any.node, f, None))
  }

  /** The chain of bucket `b`: distinct values that hash there. */
  ghost predicate ChainWF(c: Chain, b: nat, nb: nat, f: Bit, path: Mask)
    requires nb > 0
  {
    match c
    case Nil => true
    case Link(n, k) =>
      && NodeWF(n, path)
      && GetBucket(n.value, nb) == b
      && Routed(n, f, Some(n.value))
      && !HasValue(k, n.value)
      && ChainWF(k, b, nb, f, path)
  }

  ghost predicate ChainsWF(bs: seq<Chain>, base: nat, nb: nat, f: Bit, path: Mask)
    requires nb > 0
  {
    forall b | 0 <= b < |bs| :: ChainWF(bs[b], base + b, nb, f, path)
  }

  /** Live addresses are below the allocator's mark, and no two nodes share one. */
  ghost predicate AddrsOK(n: Node, h: Heap) {
    forall a: Addr | Uses(n, a) > 0 :: a < h.next && Uses(n, a) == 1
  }

  // ----- Tables

  lemma {:induction false} NilsCopies(bs: seq<Chain>, at: Option<Addr>, x: Rule)
    requires forall b | 0 <= b < |bs| :: bs[b].Nil?
    ensures TableCopies(bs, at, x) == 0
  {
    if bs != [] { NilsCopies(bs[1..], at, x); }
  }

  lemma {:induction false} BucketCopies(bs: seq<Chain>, b: nat, x: Rule)
    requires b < |bs|
    ensures ChainCopies(bs[b], None, x) <= TableCopies(bs, None, x)
  {
    if b > 0 { BucketCopies(bs[1..], b - 1, x); }
  }

  // ----- Replacing one bucket

  lemma {:induction false} TableUpdateCopies(bs: seq<Chain>, b: nat, c: Chain, at: Option<Addr>, x: Rule)
    requires b < |bs|
    ensures TableCopies(bs[b := c], at, x) + ChainCopies(bs[b], at, x) == TableCopies(bs, at, x) + ChainCopies(c, at, x)
  {
    var t := bs[b := c];
    if b == 0 {
      assert t[1..] == bs[1..];
    } else {
      assert t[1..] == bs[1..][b - 1 := c];
      TableUpdateCopies(bs[1..], b - 1, c, at, x);
    }
  }

  lemma {:induction false} TableUpdateUses(bs: seq<Chain>, b: nat, c: Chain, a: Addr)
    requires b < |bs|
    ensures TableUses(bs[b := c], a) + ChainUses(bs[b], a) == TableUses(bs, a) + ChainUses(c, a)
  {
    var t := bs[b := c];
    if b == 0 {
      assert t[1..] == bs[1..];
    } else {
      assert t[1..] == bs[1..][b - 1 := c];
      TableUpdateUses(bs[1..], b - 1, c, a);
    }
  }

  // ----- add_rule

  /** `placed` is the address of the node that took the rule, None if an
      allocation threw. */
  datatype Added<T> = Added(at: T, heap: Heap, placed: Option<Addr>)

  function AddToNodeList(n: Node, r: Rule, h: Heap): Added<Node> {
    if h.left == 0 then Added(n, h, None)
    else Added(n.(rules := Insert(n.rules, r)), h.(left := h.left - 1), Some(n.addr))
  }

  /** A table is never empty (the constructor asserts a positive number of
      buckets), so the last disjunct only makes the function total. */
  function AddRule(n: Node, r: Rule, path: Mask, h: Heap): Added<Node> {
    if n.split.Leaf? || !Splittable(r.expr, path) || n.split.buckets == [] then
      AddToNodeList(n, r, h)
    else
      var Branch(f, bs, any) := n.split;
      match GetField(r.expr, f)
      case Some(v) =>
        var b := GetBucket(v, |bs|);
        var a := AddToChain(bs[b], v, r, path + {f}, h);
        Added(n.(split := Branch(f, bs[b := a.at], any)), a.heap, a.placed)
      case None =>
        var a := AddToChain(any, AnyValue(any), r, path + {f}, h);
        Added(n.(split := Branch(f, bs, a.at)), a.heap, a.placed)
  }

  /** Adds to the child of this value somewhere down the chain, or to a new leaf
      put at its head. */
  function AddToChain(c: Chain, v: uint32, r: Rule, path: Mask, h: Heap): Added<Chain> {
    if !HasValue(c, v) then
      AddNewChild(c, v, r, h)
    else if c.node.value == v then
      var a := AddRule(c.node, r, path, h);
      Added(c.(node := a.at), a.heap, a.placed)
    else
      var a := AddToChain(c.next, v, r, path, h);
      Added(c.(next := a.at), a.heap, a.placed)
  }

  /** The new leaf stays, empty, if adding the rule to its list throws. */
  function AddNewChild(c: Chain, v: uint32, r: Rule, h: Heap): Added<Chain> {
    if h.left == 0 then
      Added(c, h, None)
    else if h.left == 1 then
      Added(Link(Node(h.next, v, [], Leaf), c), Heap(h.next + 1, 0), None)
    else
      Added(Link(Node(h.next, v, [r], Leaf), c), Heap(h.next + 1, h.left - 2), Some(h.next))
  }

  /** The walk to the rule's place ends at a branch that has no child for it. */
  predicate NeedsChild(n: Node, e: Expr, path: Mask) {
    match n.split
    case Leaf => false
    case Branch(f, bs, any) =>
      Splittable(e, path) && bs != [] &&
      match GetField(e, f)
      case Some(v) => ChainNeedsChild(bs[GetBucket(v, |bs|)], v, e, path + {f})
      case None => ChainNeedsChild(any, AnyValue(any), e, path + {f})
  }

  predicate ChainNeedsChild(c: Chain, v: uint32, e: Expr, path: Mask) {
    match c
    case Nil => true
    case Link(n, k) => if n.value == v then NeedsChild(n, e, path) else ChainNeedsChild(k, v, e, path)
  }

  /** Adding takes a list entry, and a node if the rule needs a new child; it goes
      through if and only if that much can be allocated. */
  lemma {:induction false} AddRuleIff(n: Node, r: Rule, path: Mask, h: Heap)
    ensures AddRule(n, r, path, h).placed.Some? <==> h.left >= if NeedsChild(n, r.expr, path) then 2 else 1
    decreases n
  {
    if !(n.split.Leaf? || !Splittable(r.expr, path) || n.split.buckets == []) {
      var Branch(f, bs, any) := n.split;
      match GetField(r.expr, f) {
        case Some(v) => AddToChainIff(bs[GetBucket(v, |bs|)], v, r, path + {f}, h);
        case None => AddToChainIff(any, AnyValue(any), r, path + {f}, h);
      }
    }
  }

  lemma {:induction false} AddToChainIff(c: Chain, v: uint32, r: Rule, path: Mask, h: Heap)
    ensures AddToChain(c, v, r, path, h).placed.Some? <==> h.left >= if ChainNeedsChild(c, v, r.expr, path) then 2 else 1
    decreases c
  {
    if HasValue(c, v) {
      if c.node.value == v { AddRuleIff(c.node, r, path, h); } else { AddToChainIff(c.next, v, r, path, h); }
    } else if c.Link? {
      AddToChainIff(c.next, v, r, path, h);
    }
  }

  /** How many copies of `x` adding `r` contributes. */
  ghost function Gain(at: Option<Addr>, x: Rule, r: Rule, placed: Option<Addr>): nat {
    if placed.Some? && x == r && (at.None? || at == placed) then 1 else 0
  }

  function AnyValue(any: Chain): uint32 {
    if any.Link? then any.node.value else 0
  }

  lemma AddToNodeListCopies(n: Node, r: Rule, h: Heap, at: Option<Addr>, x: Rule)
    ensures var a := AddToNodeList(n, r, h); Copies(a.at, at, x) == Copies(n, at, x) + Gain(at, x, r, a.placed)
  {
    InsertBag(n.rules, r);
  }

  /** The rule is in the tree, once more and at the address reported, exactly if
      no allocation threw. */
  lemma {:induction false} AddRuleCopies(n: Node, r: Rule, path: Mask, h: Heap, at: Option<Addr>, x: Rule)
    ensures var a := AddRule(n, r, path, h); Copies(a.at, at, x) == Copies(n, at, x) + Gain(at, x, r, a.placed)
    decreases n
  {
    if n.split.Leaf? || !Splittable(r.expr, path) || n.split.buckets == [] {
      AddToNodeListCopies(n, r, h, at, x);
    } else {
      var Branch(f, bs, any) := n.split;
      match GetField(r.expr, f) {
        case Some(v) =>
          var b := GetBucket(v, |bs|);
          AddToChainCopies(bs[b], v, r, path + {f}, h, at, x);
          TableUpdateCopies(bs, b, AddToChain(bs[b], v, r, path + {f}, h).at, at, x);
        case None =>
          AddToChainCopies(any, AnyValue(any), r, path + {f}, h, at, x);
      }
    }
  }

  lemma {:induction false} AddToChainCopies(c: Chain, v: uint32, r: Rule, path: Mask, h: Heap, at: Option<Addr>, x: Rule)
    ensures var a := AddToChain(c, v, r, path, h);
            ChainCopies(a.at, at, x) == ChainCopies(c, at, x) + Gain(at, x, r, a.placed)
    decreases c
  {
    if HasValue(c, v) {
      if c.node.value == v {
        AddRuleCopies(c.node, r, path, h, at, x);
      } else {
        AddToChainCopies(c.next, v, r, path, h, at, x);
      }
    }
  }

  /** At most one node is added, at the fresh address. */
  lemma {:induction false} AddRuleUses(n: Node, r: Rule, path: Mask, h: Heap, a: Addr)
    ensures var d := AddRule(n, r, path, h);
            && h.next <= d.heap.next <= h.next + 1 && d.heap.left <= h.left
            && Uses(d.at, a) == Uses(n, a) + (if h.next <= a < d.heap.next then 1 else 0)
            && d.at.addr == n.addr && d.at.value == n.value
    decreases n
  {
    if n.split.Leaf? || !Splittable(r.expr, path) || n.split.buckets == [] {
    } else {
      var Branch(f, bs, any) := n.split;
      match GetField(r.expr, f) {
        case Some(v) =>
          var b := GetBucket(v, |bs|);
          AddToChainUses(bs[b], v, r, path + {f}, h, a);
          TableUpdateUses(bs, b, AddToChain(bs[b], v, r, path + {f}, h).at, a);
        case None =>
          AddToChainUses(any, AnyValue(any), r, path + {f}, h, a);
      }
    }
  }

  lemma {:induction false} AddToChainUses(c: Chain, v: uint32, r: Rule, path: Mask, h: Heap, a: Addr)
    ensures var d := AddToChain(c, v, r, path, h);
            && h.next <= d.heap.next <= h.next + 1 && d.heap.left <= h.left
            && ChainUses(d.at, a) == ChainUses(c, a) + (if h.next <= a < d.heap.next then 1 else 0)
    decreases c
  {
    if HasValue(c, v) {
      if c.node.value == v {
        AddRuleUses(c.node, r, path, h, a);
      } else {
        AddToChainUses(c.next, v, r, path, h, a);
      }
    }
  }

  /** Where a rule goes in a well-formed tree keeps the tree well-formed. */
  lemma {:induction false} AddRuleWF(n: Node, r: Rule, path: Mask, h: Heap)
    requires NodeWF(n, path)
    ensures NodeWF(AddRule(n, r, path, h).at, path)
    decreases n
  {
    if n.split.Leaf? || !Splittable(r.expr, path) || n.split.buckets == [] {
      InsertSorted(n.rules, r);
    } else {
      var Branch(f, bs, any) := n.split;
      match GetField(r.expr, f) {
        case Some(v) =>
          var b := GetBucket(v, |bs|);
          AddToChainWF(bs[b], v, r, b, |bs|, f, path + {f}, h);
        case None =>
          if any.Link? {
            AddRuleWF(any.node, r, path + {f}, h);
            AddRuleRouted(any.node, r, path + {f}, h, f, None);
          } else {
            var c := AddNewChild(Nil, 0, r, h).at;
          }
      }
    }
  }

  lemma AddRuleRouted(n: Node, r: Rule, path: Mask, h: Heap, f: Bit, v: Option<uint32>)
    requires Routed(n, f, v) && GetField(r.expr, f) == v
    ensures Routed(AddRule(n, r, path, h).at, f, v)
  {
    var m := AddRule(n, r, path, h).at;
    forall x: Rule | Has(m, x) ensures GetField(x.expr, f) == v {
      AddRuleCopies(n, r, path, h, None, x);
      assert x == r || Has(n, x);
    }
  }

  lemma {:induction false} AddToChainWF(c: Chain, v: uint32, r: Rule, b: nat, nb: nat, f: Bit, path: Mask, h: Heap)
    requires nb > 0 && ChainWF(c, b, nb, f, path)
    requires GetField(r.expr, f) == Some(v) && GetBucket(v, nb) == b
    ensures var d := AddToChain(c, v, r, path, h).at;
            && ChainWF(d, b, nb, f, path)
            && (forall w: uint32 :: HasValue(d, w) ==> HasValue(c, w) || w == v)
    decreases c
  {
    if HasValue(c, v) {
      if c.node.value == v {
        AddRuleWF(c.node, r, path, h);
        AddRuleUses(c.node, r, path, h, 0);
        AddRuleRouted(c.node, r, path, h, f, Some(v));
      } else {
        AddToChainWF(c.next, v, r, b, nb, f, path, h);
      }
    }
  }

  // ----- The list entries of a subtree, in the order its loops visit them

  function Own(a: Addr, rs: seq<Rule>): seq<(Addr, Rule)> {
    seq(|rs|, i requires 0 <= i < |rs| => (a, rs[i]))
  }

  function Entries(n: Node): seq<(Addr, Rule)> {
    match n.split
    case Leaf => Own(n.addr, n.rules)
    case Branch(_, bs, any) => Own(n.addr, n.rules) + TableEntries(bs) + ChainEntries(any)
  }

  function ChainEntries(c: Chain): seq<(Addr, Rule)> {
    match c
    case Nil => []
    case Link(n, k) => Entries(n) + ChainEntries(k)
  }

  function TableEntries(bs: seq<Chain>): seq<(Addr, Rule)> {
    if bs == [] then [] else ChainEntries(bs[0]) + TableEntries(bs[1..])
  }

  lemma {:induction false} EntriesAreCopies(n: Node, a: Addr, x: Rule)
    ensures (a, x) in Entries(n) <==> Copies(n, Some(a), x) > 0
    ensures Copies(n, Some(a), x) <= Copies(n, None, x)
    ensures Copies(n, Some(a), x) > 0 ==> Uses(n, a) > 0
    decreases n
  {
    if x in n.rules {
      var i :| 0 <= i < |n.rules| && n.rules[i] == x;
      assert Own(n.addr, n.rules)[i] == (n.addr, x);
    }
    if n.split.Branch? {
      TableEntriesAreCopies(n.split.buckets, a, x);
      ChainEntriesAreCopies(n.split.any, a, x);
    }
  }

  lemma {:induction false} ChainEntriesAreCopies(c: Chain, a: Addr, x: Rule)
    ensures (a, x) in ChainEntries(c) <==> ChainCopies(c, Some(a), x) > 0
    ensures ChainCopies(c, Some(a), x) <= ChainCopies(c, None, x)
    ensures ChainCopies(c, Some(a), x) > 0 ==> ChainUses(c, a) > 0
    decreases c
  {
    if c.Link? {
      EntriesAreCopies(c.node, a, x);
      ChainEntriesAreCopies(c.next, a, x);
    }
  }

  lemma {:induction false} TableEntriesAreCopies(bs: seq<Chain>, a: Addr, x: Rule)
    ensures (a, x) in TableEntries(bs) <==> TableCopies(bs, Some(a), x) > 0
    ensures TableCopies(bs, Some(a), x) <= TableCopies(bs, None, x)
    ensures TableCopies(bs, Some(a), x) > 0 ==> TableUses(bs, a) > 0
    decreases bs
  {
    if bs != [] {
      ChainEntriesAreCopies(bs[0], a, x);
      TableEntriesAreCopies(bs[1..], a, x);
    }
  }

  /** A rule of the tree is at some address. */
  lemma {:induction false} Locate(n: Node, x: Rule) returns (a: Addr)
    requires Has(n, x)
    ensures Copies(n, Some(a), x) > 0
    decreases n
  {
    if x in n.rules {
      a := n.addr;
    } else if TableCopies(n.split.buckets, None, x) > 0 {
      a := LocateInTable(n.split.buckets, x);
    } else {
      a := LocateInChain(n.split.any, x);
    }
  }

  lemma {:induction false} LocateInChain(c: Chain, x: Rule) returns (a: Addr)
    requires ChainCopies(c, None, x) > 0
    ensures ChainCopies(c, Some(a), x) > 0
    decreases c
  {
    if Has(c.node, x) { a := Locate(c.node, x); } else { a := LocateInChain(c.next, x); }
  }

  lemma {:induction false} LocateInTable(bs: seq<Chain>, x: Rule) returns (a: Addr)
    requires TableCopies(bs, None, x) > 0
    ensures TableCopies(bs, Some(a), x) > 0
    decreases bs
  {
    if ChainCopies(bs[0], None, x) > 0 { a := LocateInChain(bs[0], x); } else { a := LocateInTable(bs[1..], x); }
  }

  // ----- Each rule in one place

  /** Each rule once, and no two rules under one id. */
  ghost predicate Distinct(n: Node) {
    && (forall x: Rule :: Copies(n, None, x) <= 1)
    && (forall x: Rule, y: Rule | Has(n, x) && Has(n, y) && x.id == y.id :: x == y)
  }

  /** The same, of a list of entries: no id twice. */
  ghost predicate NoIdTwice(es: seq<(Addr, Rule)>) {
    forall i, j | 0 <= i < j < |es| :: es[i].1.id != es[j].1.id
  }

  ghost function CountRule(es: seq<(Addr, Rule)>, x: Rule): nat {
    if es == [] then 0 else (if es[0].1 == x then 1 else 0) + CountRule(es[1..], x)
  }

  lemma {:induction false} CountConcat(a: seq<(Addr, Rule)>, b: seq<(Addr, Rule)>, x: Rule)
    ensures CountRule(a + b, x) == CountRule(a, x) + CountRule(b, x)
  {
    if a == [] {
      assert a + b == b;
    } else {
      assert (a + b)[1..] == a[1..] + b;
      CountConcat(a[1..], b, x);
    }
  }

  lemma {:induction false} CountOwn(a: Addr, rs: seq<Rule>, x: Rule)
    ensures CountRule(Own(a, rs), x) == multiset(rs)[x]
  {
    if rs != [] {
      assert rs == [rs[0]] + rs[1..];
      assert Own(a, rs)[1..] == Own(a, rs[1..]);
      CountOwn(a, rs[1..], x);
    }
  }

  lemma {:induction false} EntriesCount(n: Node, x: Rule)
    ensures CountRule(Entries(n), x) == Copies(n, None, x)
    decreases n
  {
    CountOwn(n.addr, n.rules, x);
    if n.split.Branch? {
      var Branch(_, bs, any) := n.split;
      TableEntriesCount(bs, x);
      ChainEntriesCount(any, x);
      CountConcat(Own(n.addr, n.rules), TableEntries(bs), x);
      CountConcat(Own(n.addr, n.rules) + TableEntries(bs), ChainEntries(any), x);
    }
  }

  lemma {:induction false} ChainEntriesCount(c: Chain, x: Rule)
    ensures CountRule(ChainEntries(c), x) == ChainCopies(c, None, x)
    decreases c
  {
    if c.Link? {
      EntriesCount(c.node, x);
      ChainEntriesCount(c.next, x);
      CountConcat(Entries(c.node), ChainEntries(c.next), x);
    }
  }

  lemma {:induction false} TableEntriesCount(bs: seq<Chain>, x: Rule)
    ensures CountRule(TableEntries(bs), x) == TableCopies(bs, None, x)
    decreases bs
  {
    if bs != [] {
      ChainEntriesCount(bs[0], x);
      TableEntriesCount(bs[1..], x);
      CountConcat(ChainEntries(bs[0]), TableEntries(bs[1..]), x);
    }
  }

  lemma {:induction false} CountTwice(es: seq<(Addr, Rule)>, i: nat, j: nat)
    requires i < j < |es| && es[i].1 == es[j].1
    ensures CountRule(es, es[i].1) >= 2
  {
    var x := es[i].1;
    assert es == es[..j] + es[j..] && es[..j] == es[..i] + es[i..j];
    CountConcat(es[..j], es[j..], x);
    CountConcat(es[..i], es[i..j], x);
  }

  ghost predicate HoldsRule(es: seq<(Addr, Rule)>, x: Rule) {
    exists e :: e in es && e.1 == x
  }

  lemma {:induction false} CountPositive(es: seq<(Addr, Rule)>, x: Rule)
    ensures CountRule(es, x) > 0 <==> HoldsRule(es, x)
  {
    if es != [] {
      assert es == [es[0]] + es[1..];
      CountPositive(es[1..], x);
    }
  }

  lemma {:induction false} CountOnce(es: seq<(Addr, Rule)>, x: Rule)
    requires NoIdTwice(es)
    ensures CountRule(es, x) <= 1
  {
    if es != [] {
      forall i, j | 0 <= i < j < |es| - 1 ensures es[1..][i].1.id != es[1..][j].1.id {
        assert es[1..][i] == es[i + 1] && es[1..][j] == es[j + 1];
      }
      CountOnce(es[1..], x);
      CountPositive(es[1..], x);
    }
  }

  /** Entries that hold the same rules have the same ids, and each once if the
      others did. */
  lemma SameRulesSameIds(es: seq<(Addr, Rule)>, es': seq<(Addr, Rule)>)
    requires NoIdTwice(es) && forall x: Rule :: CountRule(es', x) == CountRule(es, x)
    ensures NoIdTwice(es') && Ids(es') == Ids(es)
  {
    forall x: Rule ensures HoldsRule(es', x) <==> HoldsRule(es, x) {
      CountPositive(es, x);
      CountPositive(es', x);
    }
    forall i, j | 0 <= i < j < |es'| ensures es'[i].1.id != es'[j].1.id {
      var x, y := es'[i].1, es'[j].1;
      assert es'[i] in es' && es'[j] in es';
      assert HoldsRule(es', x) && HoldsRule(es', y);
      var e :| e in es && e.1 == x;
      var f :| f in es && f.1 == y;
      if x.id == y.id {
        CountTwice(es', i, j);
        CountOnce(es, x);
      }
    }
    forall id: uint32 ensures id in Ids(es') <==> id in Ids(es) {
      if id in Ids(es') {
        var e :| e in es' && e.1.id == id;
        assert HoldsRule(es', e.1);
      }
      if id in Ids(es) {
        var e :| e in es && e.1.id == id;
        assert HoldsRule(es, e.1);
      }
    }
  }

  ghost function Ids(es: seq<(Addr, Rule)>): set<uint32> {
    set e | e in es :: e.1.id
  }

  lemma DistinctEntries(n: Node)
    requires Distinct(n)
    ensures NoIdTwice(Entries(n))
  {
    var es := Entries(n);
    forall i, j | 0 <= i < j < |es| ensures es[i].1.id != es[j].1.id {
      var a, x, b, y := es[i].0, es[i].1, es[j].0, es[j].1;
      assert (a, x) in es && (b, y) in es;
      EntriesAreCopies(n, a, x);
      EntriesAreCopies(n, b, y);
      assert Has(n, x) && Has(n, y);
      if x.id == y.id {
        CountTwice(es, i, j);
        EntriesCount(n, x);
      }
    }
  }
}
