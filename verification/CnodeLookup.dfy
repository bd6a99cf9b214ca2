/** Traversing the tree for a piece of data (Cnode::traverse): which children
    are pushed, and why no matching rule is missed. */
module CnodeLookup {
  import opened Basics
  import opened PacketExpr
  import opened RuleList
  import opened CnodeTree
  import opened CnodeEdit
  import opened CnodeShape
  import opened CnodeResult

  function ChainNodes(c: Chain): seq<Node> {
    match c
    case Nil => []
    case Link(n, k) => [n] + ChainNodes(k)
  }

  function TableNodes(bs: seq<Chain>): seq<Node> {
    if bs == [] then [] else ChainNodes(bs[0]) + TableNodes(bs[1..])
  }

  /** The child with this value, if there is one. */
  function FindChild(c: Chain, v: uint32): seq<Node> {
    match c
    case Nil => []
    case Link(n, k) => if n.value == v then [n] else FindChild(k, v)
  }

  /** What traverse() pushes: the any-child, and the child the data's value
      hashes to, or all children if the data has no value for the field. */
  function Pushes(n: Node, d: Data): seq<Node>
    requires n.split.Branch? ==> Askable(d, n.split.field)
  {
    match n.split
    case Leaf => []
    case Branch(f, bs, any) =>
      ChainNodes(any) +
      match DataField(d, f)
      case Some(v) => if bs == [] then [] else FindChild(bs[GetBucket(v, |bs|)], v)
      case None => TableNodes(bs)
  }

  // ----- Rules below the nodes on the work stack

  ghost function SumCopies(ns: seq<Node>, x: Rule): nat {
    if ns == [] then 0 else Copies(ns[0], None, x) + SumCopies(ns[1..], x)
  }

  lemma {:induction false} SumConcat(a: seq<Node>, b: seq<Node>, x: Rule)
    ensures SumCopies(a + b, x) == SumCopies(a, x) + SumCopies(b, x)
  {
    if a == [] {
      assert a + b == b;
    } else {
      assert (a + b)[1..] == a[1..] + b;
      SumConcat(a[1..], b, x);
    }
  }

  lemma {:induction false} ChainNodesSum(c: Chain, x: Rule)
    ensures SumCopies(ChainNodes(c), x) == ChainCopies(c, None, x)
  {
    if c.Link? {
      ChainNodesSum(c.next, x);
      assert ChainNodes(c)[1..] == ChainNodes(c.next);
    }
  }

  lemma {:induction false} TableNodesSum(bs: seq<Chain>, x: Rule)
    ensures SumCopies(TableNodes(bs), x) == TableCopies(bs, None, x)
  {
    if bs != [] {
      ChainNodesSum(bs[0], x);
      TableNodesSum(bs[1..], x);
      SumConcat(ChainNodes(bs[0]), TableNodes(bs[1..]), x);
    }
  }

  lemma {:induction false} FindChildSum(c: Chain, b: nat, nb: nat, f: Bit, path: Mask, v: uint32, x: Rule)
    requires nb > 0 && ChainWF(c, b, nb, f, path)
    ensures SumCopies(FindChild(c, v), x) <= ChainCopies(c, None, x)
    ensures GetField(x.expr, f) == Some(v) ==> SumCopies(FindChild(c, v), x) == ChainCopies(c, None, x)
    decreases c
  {
    if c.Link? {
      if c.node.value == v {
        assert SumCopies([c.node], x) == Copies(c.node, None, x);
        NoSuchValue(c.next, b, nb, f, path, v, x);
      } else {
        FindChildSum(c.next, b, nb, f, path, v, x);
        assert Has(c.node, x) ==> GetField(x.expr, f) == Some(c.node.value);
      }
    }
  }

  lemma {:induction false} NoSuchValue(c: Chain, b: nat, nb: nat, f: Bit, path: Mask, v: uint32, x: Rule)
    requires nb > 0 && ChainWF(c, b, nb, f, path) && !HasValue(c, v)
    ensures GetField(x.expr, f) == Some(v) ==> ChainCopies(c, None, x) == 0
    decreases c
  {
    if c.Link? {
      assert Has(c.node, x) ==> GetField(x.expr, f) == Some(c.node.value);
      NoSuchValue(c.next, b, nb, f, path, v, x);
    }
  }

  /** A rule below the table has a value for the field, and is in the bucket
      that value hashes to. */
  lemma {:induction false} ChainRouting(c: Chain, b: nat, nb: nat, f: Bit, path: Mask, x: Rule)
    requires nb > 0 && ChainWF(c, b, nb, f, path) && ChainCopies(c, None, x) > 0
    ensures GetField(x.expr, f).Some? && GetBucket(GetField(x.expr, f).value, nb) == b
    decreases c
  {
    if Has(c.node, x) {
    } else {
      ChainRouting(c.next, b, nb, f, path, x);
    }
  }

  lemma {:induction false} OneBucketHolds(bs: seq<Chain>, base: nat, nb: nat, f: Bit, path: Mask, x: Rule)
    requires nb > 0 && ChainsWF(bs, base, nb, f, path)
    ensures GetField(x.expr, f).None? ==> TableCopies(bs, None, x) == 0
    ensures GetField(x.expr, f).Some? ==>
              var b := GetBucket(GetField(x.expr, f).value, nb) - base;
              TableCopies(bs, None, x) == if 0 <= b < |bs| then ChainCopies(bs[b], None, x) else 0
    decreases bs
  {
    if bs != [] {
      assert ChainWF(bs[0], base + 0, nb, f, path);
      if ChainCopies(bs[0], None, x) > 0 {
        ChainRouting(bs[0], base, nb, f, path, x);
      }
      forall b | 0 <= b < |bs[1..]| ensures ChainWF(bs[1..][b], base + 1 + b, nb, f, path) {
        assert ChainWF(bs[b + 1], base + (b + 1), nb, f, path);
      }
      OneBucketHolds(bs[1..], base + 1, nb, f, path, x);
    }
  }

  /** The child a value hashes to holds every rule below the table with that
      value for the field. */
  lemma FoundChildSum(bs: seq<Chain>, f: Bit, path: Mask, v: uint32, x: Rule)
    requires bs != [] && ChainsWF(bs, 0, |bs|, f, path)
    ensures var s := SumCopies(FindChild(bs[GetBucket(v, |bs|)], v), x);
            && s <= TableCopies(bs, None, x)
            && (GetField(x.expr, f).None? || GetField(x.expr, f) == Some(v) ==> s == TableCopies(bs, None, x))
  {
    var b := GetBucket(v, |bs|);
    assert ChainWF(bs[b], 0 + b, |bs|, f, path);
    FindChildSum(bs[b], b, |bs|, f, path, v, x);
    OneBucketHolds(bs, 0, |bs|, f, path, x);
    BucketCopies(bs, b, x);
  }

  /** The pushed children hold every matching rule below the node, as often. */
  lemma PushesKeepMatches(n: Node, d: Data, path: Mask, x: Rule)
    requires NodeWF(n, path) && (n.split.Branch? ==> Askable(d, n.split.field))
    ensures multiset(n.rules)[x] + SumCopies(Pushes(n, d), x) <= Copies(n, None, x)
    ensures Matching(x, d) ==> multiset(n.rules)[x] + SumCopies(Pushes(n, d), x) == Copies(n, None, x)
  {
    if n.split.Branch? {
      var Branch(f, bs, any) := n.split;
      ChainNodesSum(any, x);
      match DataField(d, f) {
        case Some(v) =>
          assert ChainsWF(bs, 0, |bs|, f, path + {f});
          FoundChildSum(bs, f, path + {f}, v, x);
          SumConcat(ChainNodes(any), FindChild(bs[GetBucket(v, |bs|)], v), x);
          if Matching(x, d) { MatchAgreesOnField(x.expr, d, f); }
        case None =>
          SumConcat(ChainNodes(any), TableNodes(bs), x);
          TableNodesSum(bs, x);
      }
    }
  }

  // ----- The work stack shrinks

  ghost function Weight(n: Node): nat {
    match n.split
    case Leaf => 1
    case Branch(_, bs, any) => 1 + TableWeight(bs) + ChainWeight(any)
  }

  ghost function ChainWeight(c: Chain): nat {
    if c.Nil? then 0 else Weight(c.node) + ChainWeight(c.next)
  }

  ghost function TableWeight(bs: seq<Chain>): nat {
    if bs == [] then 0 else ChainWeight(bs[0]) + TableWeight(bs[1..])
  }

  ghost function SumWeight(ns: seq<Node>): nat {
    if ns == [] then 0 else Weight(ns[0]) + SumWeight(ns[1..])
  }

  lemma {:induction false} SumWeightConcat(a: seq<Node>, b: seq<Node>)
    ensures SumWeight(a + b) == SumWeight(a) + SumWeight(b)
  {
    if a == [] {
      assert a + b == b;
    } else {
      assert (a + b)[1..] == a[1..] + b;
      SumWeightConcat(a[1..], b);
    }
  }

  lemma {:induction false} ChainNodesWeight(c: Chain, v: uint32)
    ensures SumWeight(ChainNodes(c)) == ChainWeight(c) && SumWeight(FindChild(c, v)) <= ChainWeight(c)
  {
    if c.Link? {
      ChainNodesWeight(c.next, v);
      assert ChainNodes(c)[1..] == ChainNodes(c.next);
      assert SumWeight([c.node]) == Weight(c.node);
    }
  }

  lemma {:induction false} TableNodesWeight(bs: seq<Chain>)
    ensures SumWeight(TableNodes(bs)) == TableWeight(bs)
  {
    if bs != [] {
      ChainNodesWeight(bs[0], 0);
      TableNodesWeight(bs[1..]);
      SumWeightConcat(ChainNodes(bs[0]), TableNodes(bs[1..]));
    }
  }

  lemma {:induction false} BucketWeight(bs: seq<Chain>, b: nat)
    requires b < |bs|
    ensures ChainWeight(bs[b]) <= TableWeight(bs)
  {
    if b > 0 { BucketWeight(bs[1..], b - 1); }
  }

  lemma PushesWeigh(n: Node, d: Data)
    requires n.split.Branch? ==> Askable(d, n.split.field)
    ensures SumWeight(Pushes(n, d)) < Weight(n)
  {
    if n.split.Branch? {
      var Branch(f, bs, any) := n.split;
      ChainNodesWeight(any, 0);
      match DataField(d, f) {
        case Some(v) =>
          if bs != [] {
            var b := GetBucket(v, |bs|);
            ChainNodesWeight(bs[b], v);
            BucketWeight(bs, b);
            SumWeightConcat(ChainNodes(any), FindChild(bs[b], v));
          } else {
            assert Pushes(n, d) == ChainNodes(any);
          }
        case None =>
          TableNodesWeight(bs);
          SumWeightConcat(ChainNodes(any), TableNodes(bs));
      }
    }
  }
}
