/** Splitting, building, unbuilding and cleaning the tree
    (Cnode::split through Cnode::clean in src/include/cnode.hh). */
module CnodeBuild {
  import opened Basics
  import opened PacketExpr
  import opened RuleList
  import opened CnodeTree

  // ----- The split heuristic

  /** The loop n_buckets <<= 1 while it is below `k`. */
  function DoubleUntil(n: nat, k: nat): (m: nat)
    requires n > 0
    ensures m >= k && m >= n
    ensures PowerOfTwo(n) ==> PowerOfTwo(m)
    decreases k - n
  {
    if n >= k then n else assert (2 * n) / 2 == n; DoubleUntil(2 * n, k)
  }

  /** How many rules leave `f` open. */
  function Anys(rs: seq<Rule>, f: Bit): (k: nat)
    ensures k <= |rs|
  {
    if rs == [] then 0
    else
      var n := |rs| - 1;
      Anys(rs[..n], f) + (if GetField(rs[n].expr, f).None? then 1 else 0)
  }

  /** The hash buckets some rule with a value for `f` falls into. */
  function BucketsHit(rs: seq<Rule>, f: Bit, nb: nat): set<nat>
    requires nb > 0
  {
    if rs == [] then {}
    else
      var n := |rs| - 1;
      BucketsHit(rs[..n], f, nb) + BucketOf(rs[n], f, nb)
  }

  function BucketOf(r: Rule, f: Bit, nb: nat): set<nat>
    requires nb > 0
  {
    match GetField(r.expr, f)
    case Some(v) => {GetBucket(v, nb)}
    case None => {}
  }

  lemma {:induction false} HitBy(rs: seq<Rule>, f: Bit, nb: nat, b: nat)
    requires nb > 0
    ensures b in BucketsHit(rs, f, nb) <==> exists i :: 0 <= i < |rs| && b in BucketOf(rs[i], f, nb)
  {
    if rs != [] {
      var n := |rs| - 1;
      HitBy(rs[..n], f, nb, b);
      if i :| 0 <= i < |rs| && b in BucketOf(rs[i], f, nb) {
        assert i < n ==> rs[..n][i] == rs[i];
      }
      if i :| 0 <= i < n && b in BucketOf(rs[..n][i], f, nb) {
        assert rs[..n][i] == rs[i];
      }
    }
  }

  /** Average number of rules to check after a split on `f`. */
  function ExpRules(rs: seq<Rule>, f: Bit, nb: nat): nat
    requires nb > 0
  {
    Average(Anys(rs, f), |rs| - Anys(rs, f), |BucketsHit(rs, f, nb)|)
  }

  function Average(nAnys: nat, nDef: nat, nDistinct: nat): nat {
    if nDistinct == 0 then nAnys else nAnys + nDef / nDistinct
  }

  datatype Best = NoField | Best(field: Bit, exp: nat, distinct: nat)

  /** The best of the fields below `k`, the first of several equally good ones. */
  function BestUpTo(k: nat, rs: seq<Rule>, path: Mask, nb: nat): (b: Best)
    requires nb > 0 && k <= NUM_FIELDS
    ensures b.Best? ==> b.field < k && b.field !in path
    ensures b.Best? ==> b.exp == ExpRules(rs, b.field, nb) && b.distinct == |BucketsHit(rs, b.field, nb)|
    ensures forall f: Bit | f < k && f !in path :: b.Best? && b.exp <= ExpRules(rs, f, nb)
  {
    if k == 0 then NoField
    else
      var b := BestUpTo(k - 1, rs, path, nb);
      var f: Bit := k - 1;
      if f in path then b
      else
        var e := ExpRules(rs, f, nb);
        if b.NoField? || e < b.exp then Best(f, e, |BucketsHit(rs, f, nb)|) else b
  }

  function BestSplit(rs: seq<Rule>, path: Mask): (b: Best)
    ensures b.Best? ==> b.field < NUM_FIELDS && b.field !in path
  {
    BestUpTo(NUM_FIELDS, rs, path, DoubleUntil(1, |rs| * 3))
  }

  /** Which split to make, NoField if none saves LEAF_THRESHOLD rules. */
  function Choose(rs: seq<Rule>, path: Mask): (b: Best)
    ensures b.Best? ==> b.field < NUM_FIELDS && b.field !in path
  {
    var b := BestSplit(rs, path);
    if b.NoField? || |rs| - b.exp < LEAF_THRESHOLD then NoField else b
  }

  /** A split is made if and only if some field not yet used saves LEAF_THRESHOLD
      rules, and then on one that leaves the fewest to check. */
  lemma ChoiceIsBest(rs: seq<Rule>, path: Mask)
    ensures var nb := DoubleUntil(1, |rs| * 3);
            && (Choose(rs, path).Best? <==>
                  exists f: Bit :: f < NUM_FIELDS && f !in path && |rs| - ExpRules(rs, f, nb) >= LEAF_THRESHOLD)
            && (Choose(rs, path).Best? ==>
                  forall f: Bit | f < NUM_FIELDS && f !in path ::
                    ExpRules(rs, Choose(rs, path).field, nb) <= ExpRules(rs, f, nb))
  {
    var b := BestSplit(rs, path);
    if b.Best? && |rs| - b.exp >= LEAF_THRESHOLD { assert b.field !in path; }
  }

  lemma {:induction false} AnysAll(rs: seq<Rule>, f: Bit)
    requires forall r | r in rs :: GetField(r.expr, f).None?
    ensures Anys(rs, f) == |rs|
  {
    if rs != [] {
      assert rs[|rs| - 1] in rs;
      AnysAll(rs[..|rs| - 1], f);
    }
  }

  /** The arithmetic the heuristic rests on: a field that leads all rules to one
      bucket saves nothing, so a chosen field tells two rules apart. */
  lemma ChoiceSeparates(rs: seq<Rule>, path: Mask) returns (i: nat, j: nat)
    requires Choose(rs, path).Best?
    ensures i < |rs| && j < |rs|
    ensures var f := Choose(rs, path).field;
            && GetField(rs[i].expr, f).Some? && GetField(rs[j].expr, f).Some?
            && GetField(rs[i].expr, f) != GetField(rs[j].expr, f)
  {
    var nb := DoubleUntil(1, |rs| * 3);
    var f := Choose(rs, path).field;
    var hit := BucketsHit(rs, f, nb);
    if hit == {} {
      forall r | r in rs ensures GetField(r.expr, f).None? {
        var k :| 0 <= k < |rs| && rs[k] == r;
        NotHit(rs, f, nb, k);
      }
      AnysAll(rs, f);
      assert false;
    }
    var b0 :| b0 in hit;
    if hit == {b0} {
      assert false;
    }
    var b1 :| b1 in hit && b1 != b0;
    HitBy(rs, f, nb, b0);
    HitBy(rs, f, nb, b1);
    i :| 0 <= i < |rs| && b0 in BucketOf(rs[i], f, nb);
    j :| 0 <= j < |rs| && b1 in BucketOf(rs[j], f, nb);
  }

  lemma NotHit(rs: seq<Rule>, f: Bit, nb: nat, k: nat)
    requires nb > 0 && k < |rs| && BucketsHit(rs, f, nb) == {}
    ensures GetField(rs[k].expr, f).None?
  {
  }

  /** A field every rule wildcards is never split on. */
  lemma NeverSplitsOnWildcarded(rs: seq<Rule>, path: Mask, f: Bit)
    requires forall r | r in rs :: f in r.expr.wildcards
    ensures Choose(rs, path).Best? ==> Choose(rs, path).field != f
  {
    if Choose(rs, path).Best? {
      var i, j := ChoiceSeparates(rs, path);
      assert rs[i] in rs;
    }
  }

  // ----- Filling a fresh branch

  datatype Filled = Filled(at: Node, heap: Heap, ok: bool)

  function AddAll(n: Node, rs: seq<Rule>, path: Mask, h: Heap): Filled
    decreases |rs|
  {
    if rs == [] then Filled(n, h, true)
    else
      var a := AddRule(n, rs[0], path, h);
      if a.placed.None? then Filled(a.at, a.heap, false) else AddAll(a.at, rs[1..], path, a.heap)
  }

  lemma {:induction false} AddAllCopies(n: Node, rs: seq<Rule>, path: Mask, h: Heap, x: Rule)
    ensures var d := AddAll(n, rs, path, h);
            d.ok ==> Copies(d.at, None, x) == Copies(n, None, x) + multiset(rs)[x]
    decreases |rs|
  {
    if rs != [] {
      var a := AddRule(n, rs[0], path, h);
      AddRuleCopies(n, rs[0], path, h, None, x);
      AddAllCopies(a.at, rs[1..], path, a.heap, x);
      assert rs == [rs[0]] + rs[1..];
    }
  }

  lemma {:induction false} AddAllWF(n: Node, rs: seq<Rule>, path: Mask, h: Heap)
    requires NodeWF(n, path)
    ensures NodeWF(AddAll(n, rs, path, h).at, path)
    decreases |rs|
  {
    if rs != [] {
      var a := AddRule(n, rs[0], path, h);
      AddRuleWF(n, rs[0], path, h);
      AddAllWF(a.at, rs[1..], path, a.heap);
    }
  }

  /** Every address handed out is used by exactly one new node. */
  lemma {:induction false} AddAllUses(n: Node, rs: seq<Rule>, path: Mask, h: Heap, a: Addr)
    ensures var d := AddAll(n, rs, path, h);
            && h.next <= d.heap.next
            && Uses(d.at, a) == Uses(n, a) + (if h.next <= a < d.heap.next then 1 else 0)
            && d.at.addr == n.addr && d.at.value == n.value
    decreases |rs|
  {
    if rs != [] {
      var d := AddRule(n, rs[0], path, h);
      AddRuleUses(n, rs[0], path, h, a);
      AddAllUses(d.at, rs[1..], path, d.heap, a);
    }
  }

  lemma {:induction false} AddAllField(n: Node, rs: seq<Rule>, path: Mask, h: Heap)
    requires n.split.Branch?
    ensures var d := AddAll(n, rs, path, h);
            d.at.split.Branch? && d.at.split.field == n.split.field
    decreases |rs|
  {
    if rs != [] {
      var a := AddRule(n, rs[0], path, h);
      AddAllField(a.at, rs[1..], path, a.heap);
    }
  }

  // ----- split

  function EmptyBranch(addr: Addr, value: uint32, b: Best): Node
    requires b.Best?
  {
    Node(addr, value, [], Branch(b.field, seq(DoubleUntil(1, b.distinct * 3), _ => Nil), Nil))
  }

  function Fill(addr: Addr, value: uint32, b: Best, rs: seq<Rule>, path: Mask, h: Heap): Filled
    requires b.Best?
  {
    AddAll(EmptyBranch(addr, value, b), rs, path, h)
  }

  /** Allocations a split needs: the heuristic's bit vector, the bucket array,
      and the new node unless the node is a copy already. */
  function Room(isCopy: bool): nat { if isCopy then 2 else 3 }

  function SplitAddr(n: Node, isCopy: bool, h: Heap): Addr { if isCopy then n.addr else h.next }

  function SplitHeap(isCopy: bool, h: Heap): Heap
    requires h.left >= Room(isCopy)
  {
    Heap(if isCopy then h.next else h.next + 1, h.left - Room(isCopy))
  }

  /** A node of the master tree is left as it is when an allocation throws. */
  function SplitBy(n: Node, b: Best, path: Mask, isCopy: bool, h: Heap): Filled {
    if h.left == 0 then Filled(n, h, false)
    else if b.NoField? then Filled(n, h.(left := h.left - 1), true)
    else if h.left < Room(isCopy) then Filled(n, h.(left := 0), false)
    else
      var d := Fill(SplitAddr(n, isCopy, h), n.value, b, n.rules, path, SplitHeap(isCopy, h));
      if d.ok || isCopy then d else Filled(n, d.heap, false)
  }

  function SplitNode(n: Node, path: Mask, isCopy: bool, h: Heap): Filled {
    SplitBy(n, Choose(n.rules, path), path, isCopy, h)
  }

  lemma {:induction false} NoneUses(bs: seq<Chain>, a: Addr)
    requires forall b | 0 <= b < |bs| :: bs[b] == Nil
    ensures TableUses(bs, a) == 0
  {
    if bs != [] { NoneUses(bs[1..], a); }
  }

  lemma FillCopies(addr: Addr, value: uint32, b: Best, rs: seq<Rule>, path: Mask, h: Heap, x: Rule)
    requires b.Best?
    ensures var d := Fill(addr, value, b, rs, path, h); d.ok ==> Copies(d.at, None, x) == multiset(rs)[x]
  {
    var e := EmptyBranch(addr, value, b);
    NilsCopies(e.split.buckets, None, x);
    assert Copies(e, None, x) == 0;
    AddAllCopies(e, rs, path, h, x);
  }

  lemma FillUses(addr: Addr, value: uint32, b: Best, rs: seq<Rule>, path: Mask, h: Heap, a: Addr)
    requires b.Best?
    ensures var d := Fill(addr, value, b, rs, path, h);
            && h.next <= d.heap.next && d.at.addr == addr && d.at.value == value
            && d.at.split.Branch? && d.at.split.field == b.field
            && Uses(d.at, a) == (if a == addr then 1 else 0) + (if h.next <= a < d.heap.next then 1 else 0)
  {
    var e := EmptyBranch(addr, value, b);
    NoneUses(e.split.buckets, a);
    assert Uses(e, a) == if a == addr then 1 else 0;
    AddAllUses(e, rs, path, h, a);
    AddAllField(e, rs, path, h);
  }

  lemma FillWF(addr: Addr, value: uint32, b: Best, rs: seq<Rule>, path: Mask, h: Heap)
    requires b.Best? && b.field !in path
    ensures NodeWF(Fill(addr, value, b, rs, path, h).at, path)
  {
    var e := EmptyBranch(addr, value, b);
    assert NodeWF(e, path);
    AddAllWF(e, rs, path, h);
  }

  lemma SplitByCopies(n: Node, b: Best, path: Mask, isCopy: bool, h: Heap, x: Rule)
    requires n.split.Leaf?
    ensures var d := SplitBy(n, b, path, isCopy, h);
            d.ok || !isCopy ==> Copies(d.at, None, x) == Copies(n, None, x)
  {
    if h.left >= Room(isCopy) && b.Best? {
      FillCopies(SplitAddr(n, isCopy, h), n.value, b, n.rules, path, SplitHeap(isCopy, h), x);
    }
  }

  lemma SplitNodeCopies(n: Node, path: Mask, isCopy: bool, h: Heap, x: Rule)
    requires n.split.Leaf?
    ensures var d := SplitNode(n, path, isCopy, h);
            d.ok || !isCopy ==> Copies(d.at, None, x) == Copies(n, None, x)
  {
    SplitByCopies(n, Choose(n.rules, path), path, isCopy, h, x);
  }

  lemma SplitNodeWF(n: Node, path: Mask, isCopy: bool, h: Heap)
    requires n.split.Leaf? && NodeWF(n, path)
    ensures NodeWF(SplitNode(n, path, isCopy, h).at, path)
  {
    var b := Choose(n.rules, path);
    if h.left >= Room(isCopy) && b.Best? {
      FillWF(SplitAddr(n, isCopy, h), n.value, b, n.rules, path, SplitHeap(isCopy, h));
    }
  }

  /** At most one use of each address: an old one where it was, a fresh one in
      the new part. */
  ghost function Cap(old_: nat, a: Addr, h: Heap, h': Heap): nat {
    if a < h.next then old_ else if a < h'.next then 1 else 0
  }

  lemma SplitByShape(n: Node, b: Best, path: Mask, isCopy: bool, h: Heap)
    requires n.split.Leaf?
    ensures var d := SplitBy(n, b, path, isCopy, h);
            && h.next <= d.heap.next
            && d.at.value == n.value
            && (isCopy ==> d.at.addr == n.addr)
            && (!isCopy && !d.ok ==> d.at == n)
            && (d.at.split.Leaf? ==> d.at == n && (d.ok ==> b.NoField?))
            && (d.at.split.Branch? ==>
                  && b.Best? && d.at.split.field == b.field
                  && (!isCopy ==> h.next == d.at.addr < d.heap.next))
  {
    if h.left >= Room(isCopy) && b.Best? {
      FillUses(SplitAddr(n, isCopy, h), n.value, b, n.rules, path, SplitHeap(isCopy, h), 0);
    }
  }

  lemma SplitNodeShape(n: Node, path: Mask, isCopy: bool, h: Heap)
    requires n.split.Leaf?
    ensures var d := SplitNode(n, path, isCopy, h);
            && h.next <= d.heap.next
            && d.at.value == n.value
            && (isCopy ==> d.at.addr == n.addr)
            && (!isCopy && !d.ok ==> d.at == n)
            && (d.at.split.Leaf? ==> d.at == n && (d.ok ==> Choose(n.rules, path).NoField?))
            && (d.at.split.Branch? ==>
                  && Choose(n.rules, path).Best?
                  && d.at.split.field == Choose(n.rules, path).field
                  && d.at.split.field < NUM_FIELDS && d.at.split.field !in path
                  && (!isCopy ==> h.next == d.at.addr < d.heap.next))
  {
    SplitByShape(n, Choose(n.rules, path), path, isCopy, h);
  }

  lemma SplitByUses(n: Node, b: Best, path: Mask, isCopy: bool, h: Heap, a: Addr)
    requires n.split.Leaf?
    ensures var d := SplitBy(n, b, path, isCopy, h);
            && ((a >= h.next ==> Uses(n, a) == 0) ==> Uses(d.at, a) <= Cap(Uses(n, a), a, h, d.heap))
            && (d.at.split.Branch? && !isCopy && a < h.next ==> Uses(d.at, a) == 0)
  {
    if h.left >= Room(isCopy) && b.Best? {
      FillUses(SplitAddr(n, isCopy, h), n.value, b, n.rules, path, SplitHeap(isCopy, h), a);
    }
  }

  lemma SplitNodeUses(n: Node, path: Mask, isCopy: bool, h: Heap, a: Addr)
    requires n.split.Leaf?
    ensures var d := SplitNode(n, path, isCopy, h);
            && ((a >= h.next ==> Uses(n, a) == 0) ==> Uses(d.at, a) <= Cap(Uses(n, a), a, h, d.heap))
            && (d.at.split.Branch? && !isCopy && a < h.next ==> Uses(d.at, a) == 0)
  {
    SplitByUses(n, Choose(n.rules, path), path, isCopy, h, a);
  }

  lemma {:induction false} AddRuleTable(n: Node, r: Rule, path: Mask, h: Heap)
    requires n.split.Branch?
    ensures var a := AddRule(n, r, path, h).at; a.split.Branch? && |a.split.buckets| == |n.split.buckets|
  {
  }

  lemma {:induction false} AddAllTable(n: Node, rs: seq<Rule>, path: Mask, h: Heap)
    requires n.split.Branch?
    ensures var d := AddAll(n, rs, path, h).at; d.split.Branch? && |d.split.buckets| == |n.split.buckets|
    decreases |rs|
  {
    if rs != [] {
      AddRuleTable(n, rs[0], path, h);
      AddAllTable(AddRule(n, rs[0], path, h).at, rs[1..], path, AddRule(n, rs[0], path, h).heap);
    }
  }

  lemma {:induction false} DoubleBelow(n: nat, k: nat)
    requires n > 0
    ensures DoubleUntil(n, k) == n || DoubleUntil(n, k) < 2 * k
    decreases k - n
  {
    if n < k { DoubleBelow(2 * n, k); }
  }

  /** A fresh table has room for three times the hash buckets its rules fall into,
      and less than twice as much. */
  lemma SplitTable(n: Node, path: Mask, isCopy: bool, h: Heap)
    requires n.split.Leaf? && SplitNode(n, path, isCopy, h).at.split.Branch?
    ensures var b := Choose(n.rules, path);
            var size := |SplitNode(n, path, isCopy, h).at.split.buckets|;
            && b.Best? && b.distinct == |BucketsHit(n.rules, b.field, DoubleUntil(1, |n.rules| * 3))|
            && 3 * b.distinct <= size && (size == 1 || size < 6 * b.distinct)
  {
    SplitNodeShape(n, path, isCopy, h);
    var b := Choose(n.rules, path);
    var e := EmptyBranch(SplitAddr(n, isCopy, h), n.value, b);
    AddAllTable(e, n.rules, path, SplitHeap(isCopy, h));
    DoubleBelow(1, b.distinct * 3);
  }

  // ----- Back pointers

  /** What one rule's back pointer becomes: this node, or NULL if it was this
      node (the destructor). */
  function Touch(p: Ptrs, a: Addr, id: uint32, destroy: bool): Ptrs {
    if !destroy then p[id := Some(a)]
    else if id in p && p[id] == Some(a) then p[id := None]
    else p
  }

  /** set_node_pointers, and with `destroy` the destructor, over a subtree. */
  function TouchAll(p: Ptrs, es: seq<(Addr, Rule)>, destroy: bool): Ptrs
    decreases es
  {
    if es == [] then p else TouchAll(Touch(p, es[0].0, es[0].1.id, destroy), es[1..], destroy)
  }

  function SetNodePointers(p: Ptrs, n: Node): Ptrs { TouchAll(p, Entries(n), false) }
  function Destroy(p: Ptrs, n: Node): Ptrs { TouchAll(p, Entries(n), true) }

  ghost predicate PointsTo(p: Ptrs, id: uint32, a: Addr) {
    id in p && p[id] == Some(a)
  }

  ghost predicate SameAt(p: Ptrs, q: Ptrs, id: uint32) {
    (id in q <==> id in p) && (id in p ==> q[id] == p[id])
  }

  lemma {:induction false} TouchFrame(p: Ptrs, es: seq<(Addr, Rule)>, destroy: bool, id: uint32)
    requires forall e | e in es :: e.1.id != id
    ensures SameAt(p, TouchAll(p, es, destroy), id)
    decreases es
  {
    if es != [] {
      assert es[0] in es;
      TouchFrame(Touch(p, es[0].0, es[0].1.id, destroy), es[1..], destroy, id);
    }
  }

  lemma {:induction false} TouchSets(p: Ptrs, es: seq<(Addr, Rule)>, a: Addr, id: uint32)
    requires forall e | e in es && e.1.id == id :: e.0 == a
    requires PointsTo(p, id, a) || exists e :: e in es && e.1.id == id
    ensures PointsTo(TouchAll(p, es, false), id, a)
    decreases es
  {
    if es != [] {
      assert es[0] in es;
      TouchSets(Touch(p, es[0].0, es[0].1.id, false), es[1..], a, id);
    }
  }

  lemma {:induction false} TouchNone(p: Ptrs, es: seq<(Addr, Rule)>)
    requires forall e | e in es :: !PointsTo(p, e.1.id, e.0)
    ensures TouchAll(p, es, true) == p
    decreases es
  {
    if es != [] {
      assert es[0] in es;
      TouchNone(p, es[1..]);
    }
  }

  ghost predicate AllPoint(es: seq<(Addr, Rule)>, p: Ptrs) {
    forall e | e in es :: PointsTo(p, e.1.id, e.0)
  }

  /** Nothing outside `ids` was touched. */
  ghost predicate Frame(p: Ptrs, q: Ptrs, ids: set<uint32>) {
    forall id: uint32 | id !in ids :: SameAt(p, q, id)
  }

  /** After set_node_pointers every rule of the subtree points to the node that
      holds it; pointers of other rules stay. */
  lemma SetNodePointersOK(p: Ptrs, n: Node)
    requires NoIdTwice(Entries(n))
    ensures AllPoint(Entries(n), SetNodePointers(p, n))
    ensures Frame(p, SetNodePointers(p, n), Ids(Entries(n)))
  {
    var es := Entries(n);
    forall e | e in es ensures PointsTo(SetNodePointers(p, n), e.1.id, e.0) {
      TouchSets(p, es, e.0, e.1.id);
    }
    forall id: uint32 | id !in Ids(es) ensures SameAt(p, SetNodePointers(p, n), id) {
      forall e | e in es ensures e.1.id != id {
        assert e.1.id in Ids(es);
      }
      TouchFrame(p, es, false, id);
    }
  }

  // ----- build

  const FIELDS: Mask := set f: Bit | 0 <= f < NUM_FIELDS

  /** How many more fields could be split on. */
  function FieldsLeft(path: Mask): nat {
    |FIELDS - path|
  }

  lemma FieldsShrink(path: Mask, f: Bit)
    ensures FieldsLeft(path + {f}) <= FieldsLeft(path)
    ensures f < NUM_FIELDS && f !in path ==> FieldsLeft(path + {f}) < FieldsLeft(path)
  {
    var a, b := FIELDS - path, FIELDS - (path + {f});
    assert b == a - {f};
    if f in FIELDS && f !in path {
      assert f in a;
    }
  }

  lemma {:induction false} BitsBelow(n: nat)
    requires n <= NUM_FIELDS
    ensures |set f | f in FIELDS && f < n| == n
  {
    if n > 0 {
      BitsBelow(n - 1);
      assert (set f | f in FIELDS && f < n) == (set f | f in FIELDS && f < n - 1) + {n - 1};
    }
  }

  lemma AllFieldsLeft()
    ensures FieldsLeft({}) == NUM_FIELDS
  {
    BitsBelow(NUM_FIELDS);
    assert FIELDS - {} == set f | f in FIELDS && f < NUM_FIELDS;
  }

  /** `ok` is false when an allocation threw: `at` is then what is left of the
      master tree, or of the copy about to be freed. */
  datatype Built<T> = Built(at: T, heap: Heap, ptrs: Ptrs, ok: bool)

  function Build(n: Node, path: Mask, isCopy: bool, h: Heap, p: Ptrs): Built<Node>
    decreases FieldsLeft(path), n
  {
    match n.split
    case Leaf =>
      if |n.rules| <= LEAF_THRESHOLD then Built(n, h, p, true)
      else
        var s := SplitNode(n, path, isCopy, h);
        if !s.ok || s.at.split.Leaf? then Built(s.at, s.heap, p, s.ok)
        else
          SplitNodeShape(n, path, isCopy, h);
          var f := s.at.split.field;
          FieldsShrink(path, f);
          var k := BuildChildren(s.at.split, path + {f}, true, s.heap, p);
          var m := s.at.(split := k.at);
          if isCopy then Built(m, k.heap, k.ptrs, k.ok)
          else if k.ok then Built(m, k.heap, SetNodePointers(k.ptrs, m), true)
          else Built(n, k.heap, Destroy(k.ptrs, m), false)
    case Branch(f, _, _) =>
      FieldsShrink(path, f);
      var k := BuildChildren(n.split, path + {f}, isCopy, h, p);
      Built(n.(split := k.at), k.heap, k.ptrs, k.ok)
  }

  function BuildChildren(s: Split, path: Mask, isCopy: bool, h: Heap, p: Ptrs): Built<Split>
    requires s.Branch?
    decreases FieldsLeft(path), s
  {
    var t := BuildTable(s.buckets, path, isCopy, h, p);
    if !t.ok then Built(s.(buckets := t.at), t.heap, t.ptrs, false)
    else
      var a := BuildChain(s.any, path, isCopy, t.heap, t.ptrs);
      Built(s.(buckets := t.at, any := a.at), a.heap, a.ptrs, a.ok)
  }

  function BuildTable(bs: seq<Chain>, path: Mask, isCopy: bool, h: Heap, p: Ptrs): Built<seq<Chain>>
    decreases FieldsLeft(path), bs
  {
    if bs == [] then Built([], h, p, true)
    else
      var c := BuildChain(bs[0], path, isCopy, h, p);
      if !c.ok then Built([c.at] + bs[1..], c.heap, c.ptrs, false)
      else
        var t := BuildTable(bs[1..], path, isCopy, c.heap, c.ptrs);
        Built([c.at] + t.at, t.heap, t.ptrs, t.ok)
  }

  /** A child that came back as a new node replaces the old one, which is freed. */
  function BuildChain(c: Chain, path: Mask, isCopy: bool, h: Heap, p: Ptrs): Built<Chain>
    decreases FieldsLeft(path), c
  {
    match c
    case Nil => Built(Nil, h, p, true)
    case Link(n, k) =>
      var b := Build(n, path, isCopy, h, p);
      if !b.ok then Built(Link(b.at, k), b.heap, b.ptrs, false)
      else
        var q := if b.at.addr != n.addr then Destroy(b.ptrs, n) else b.ptrs;
        var r := BuildChain(k, path, isCopy, b.heap, q);
        Built(Link(b.at, r.at), r.heap, r.ptrs, r.ok)
  }

  /** The node with its children built. */
  function Rebuilt(n: Node, path: Mask, isCopy: bool, h: Heap, p: Ptrs): Built<Node>
    requires n.split.Branch?
  {
    var k := BuildChildren(n.split, path, isCopy, h, p);
    Built(n.(split := k.at), k.heap, k.ptrs, k.ok)
  }

  // Building moves rules between nodes but neither loses nor duplicates one.
  // A copy that ran out of memory is exempt: it is freed.

  lemma {:induction false} BuildCopies(n: Node, path: Mask, isCopy: bool, h: Heap, p: Ptrs, x: Rule)
    ensures var d := Build(n, path, isCopy, h, p);
            d.ok || !isCopy ==> Copies(d.at, None, x) == Copies(n, None, x)
    decreases FieldsLeft(path), n
  {
    match n.split
    case Leaf =>
      if |n.rules| > LEAF_THRESHOLD {
        var s := SplitNode(n, path, isCopy, h);
        SplitNodeShape(n, path, isCopy, h);
        SplitNodeCopies(n, path, isCopy, h, x);
        if s.ok && s.at.split.Branch? {
          FieldsShrink(path, s.at.split.field);
          RebuiltCopies(s.at, path + {s.at.split.field}, true, s.heap, p, x);
        }
      }
    case Branch(f, _, _) =>
      FieldsShrink(path, f);
      RebuiltCopies(n, path + {f}, isCopy, h, p, x);
  }

  lemma {:induction false} RebuiltCopies(n: Node, path: Mask, isCopy: bool, h: Heap, p: Ptrs, x: Rule)
    requires n.split.Branch?
    ensures var d := Rebuilt(n, path, isCopy, h, p);
            d.ok || !isCopy ==> Copies(d.at, None, x) == Copies(n, None, x)
    decreases FieldsLeft(path), n.split
  {
    BuildTableCopies(n.split.buckets, path, isCopy, h, p, x);
    var t := BuildTable(n.split.buckets, path, isCopy, h, p);
    BuildChainCopies(n.split.any, path, isCopy, t.heap, t.ptrs, x);
  }

  lemma {:induction false} BuildTableCopies(bs: seq<Chain>, path: Mask, isCopy: bool, h: Heap, p: Ptrs, x: Rule)
    ensures var d := BuildTable(bs, path, isCopy, h, p);
            d.ok || !isCopy ==> TableCopies(d.at, None, x) == TableCopies(bs, None, x)
    decreases FieldsLeft(path), bs
  {
    if bs != [] {
      BuildChainCopies(bs[0], path, isCopy, h, p, x);
      var c := BuildChain(bs[0], path, isCopy, h, p);
      BuildTableCopies(bs[1..], path, isCopy, c.heap, c.ptrs, x);
    }
  }

  ghost function Replaced(b: Built<Node>, n: Node): Ptrs {
    if b.at.addr != n.addr then Destroy(b.ptrs, n) else b.ptrs
  }

  lemma {:induction false} BuildChainCopies(c: Chain, path: Mask, isCopy: bool, h: Heap, p: Ptrs, x: Rule)
    ensures var d := BuildChain(c, path, isCopy, h, p);
            d.ok || !isCopy ==> ChainCopies(d.at, None, x) == ChainCopies(c, None, x)
    decreases FieldsLeft(path), c
  {
    if c.Link? {
      BuildCopies(c.node, path, isCopy, h, p, x);
      var b := Build(c.node, path, isCopy, h, p);
      BuildChainCopies(c.next, path, isCopy, b.heap, Replaced(b, c.node), x);
    }
  }

  // Addresses stay unique, also in a half-built copy.

  /** A leaf of the master tree that is split comes back as a new node. */
  lemma BuildShape(n: Node, path: Mask, isCopy: bool, h: Heap, p: Ptrs)
    ensures var d := Build(n, path, isCopy, h, p);
            && d.at.value == n.value
            && (isCopy ==> d.at.addr == n.addr)
            && (d.at.addr != n.addr ==> d.ok && n.split.Leaf? && d.at.addr == h.next)
  {
    if n.split.Leaf? {
      SplitNodeShape(n, path, isCopy, h);
    }
  }

  lemma {:induction false} BuildUses(n: Node, path: Mask, isCopy: bool, h: Heap, p: Ptrs, a: Addr)
    ensures var d := Build(n, path, isCopy, h, p);
            h.next <= d.heap.next && ((a >= h.next ==> Uses(n, a) == 0) ==> Uses(d.at, a) <= Cap(Uses(n, a), a, h, d.heap))
    decreases FieldsLeft(path), n
  {
    match n.split
    case Leaf =>
      if |n.rules| > LEAF_THRESHOLD {
        var s := SplitNode(n, path, isCopy, h);
        SplitNodeShape(n, path, isCopy, h);
        SplitNodeUses(n, path, isCopy, h, a);
        if s.ok && s.at.split.Branch? {
          FieldsShrink(path, s.at.split.field);
          RebuiltUses(s.at, path + {s.at.split.field}, true, s.heap, p, a);
        }
      }
    case Branch(f, _, _) =>
      FieldsShrink(path, f);
      RebuiltUses(n, path + {f}, isCopy, h, p, a);
  }

  lemma {:induction false} RebuiltUses(n: Node, path: Mask, isCopy: bool, h: Heap, p: Ptrs, a: Addr)
    requires n.split.Branch?
    ensures var d := Rebuilt(n, path, isCopy, h, p);
            h.next <= d.heap.next && ((a >= h.next ==> Uses(n, a) == 0) ==> Uses(d.at, a) <= Cap(Uses(n, a), a, h, d.heap))
    decreases FieldsLeft(path), n.split
  {
    BuildTableUses(n.split.buckets, path, isCopy, h, p, a);
    var t := BuildTable(n.split.buckets, path, isCopy, h, p);
    BuildChainUses(n.split.any, path, isCopy, t.heap, t.ptrs, a);
  }

  lemma {:induction false} BuildTableUses(bs: seq<Chain>, path: Mask, isCopy: bool, h: Heap, p: Ptrs, a: Addr)
    ensures var d := BuildTable(bs, path, isCopy, h, p);
            h.next <= d.heap.next && ((a >= h.next ==> TableUses(bs, a) == 0) ==> TableUses(d.at, a) <= Cap(TableUses(bs, a), a, h, d.heap))
    decreases FieldsLeft(path), bs
  {
    if bs != [] {
      BuildChainUses(bs[0], path, isCopy, h, p, a);
      var c := BuildChain(bs[0], path, isCopy, h, p);
      BuildTableUses(bs[1..], path, isCopy, c.heap, c.ptrs, a);
    }
  }

  lemma {:induction false} BuildChainUses(c: Chain, path: Mask, isCopy: bool, h: Heap, p: Ptrs, a: Addr)
    ensures var d := BuildChain(c, path, isCopy, h, p);
            h.next <= d.heap.next && ((a >= h.next ==> ChainUses(c, a) == 0) ==> ChainUses(d.at, a) <= Cap(ChainUses(c, a), a, h, d.heap))
    decreases FieldsLeft(path), c
  {
    if c.Link? {
      BuildUses(c.node, path, isCopy, h, p, a);
      var b := Build(c.node, path, isCopy, h, p);
      BuildChainUses(c.next, path, isCopy, b.heap, Replaced(b, c.node), a);
    }
  }

  // The tree stays well-formed.

  lemma {:induction false} BuildWF(n: Node, path: Mask, isCopy: bool, h: Heap, p: Ptrs)
    requires NodeWF(n, path)
    ensures var d := Build(n, path, isCopy, h, p);
            d.ok || !isCopy ==> NodeWF(d.at, path)
    decreases FieldsLeft(path), n
  {
    match n.split
    case Leaf =>
      if |n.rules| > LEAF_THRESHOLD {
        var s := SplitNode(n, path, isCopy, h);
        SplitNodeShape(n, path, isCopy, h);
        SplitNodeWF(n, path, isCopy, h);
        if s.ok && s.at.split.Branch? {
          FieldsShrink(path, s.at.split.field);
          RebuiltWF(s.at, path, true, s.heap, p);
        }
      }
    case Branch(f, _, _) =>
      FieldsShrink(path, f);
      RebuiltWF(n, path, isCopy, h, p);
  }

  lemma {:induction false} RebuiltWF(n: Node, path: Mask, isCopy: bool, h: Heap, p: Ptrs)
    requires n.split.Branch? && NodeWF(n, path)
    ensures var d := Rebuilt(n, path + {n.split.field}, isCopy, h, p);
            d.ok || !isCopy ==> NodeWF(d.at, path)
    decreases FieldsLeft(path + {n.split.field}), n.split
  {
    var Branch(f, bs, any) := n.split;
    assert ChainsWF(bs, 0, |bs|, f, path + {f});
    BuildTableWF(bs, 0, |bs|, f, path + {f}, isCopy, h, p);
    var t := BuildTable(bs, path + {f}, isCopy, h, p);
    if any.Link? {
      BuildAnyWF(any, f, path + {f}, isCopy, t.heap, t.ptrs);
    }
    var a := BuildChain(any, path + {f}, isCopy, t.heap, t.ptrs);
    var d := Rebuilt(n, path + {f}, isCopy, h, p);
    assert d.at.split == Branch(f, t.at, if t.ok then a.at else any);
    if d.ok || !isCopy {
      assert forall b | 0 <= b < |t.at| :: ChainWF(t.at[b], 0 + b, |bs|, f, path + {f});
    }
  }

  lemma {:induction false} BuildAnyWF(any: Chain, f: Bit, path: Mask, isCopy: bool, h: Heap, p: Ptrs)
    requires any.Link? && any.next.Nil? && NodeWF(any.node, path) && Routed(any.node, f, None)
    ensures var d := BuildChain(any, path, isCopy, h, p);
            && d.at.Link? && d.at.next.Nil?
            && (d.ok || !isCopy ==> NodeWF(d.at.node, path) && Routed(d.at.node, f, None))
    decreases FieldsLeft(path), any
  {
    BuildWF(any.node, path, isCopy, h, p);
    BuildRouted(any.node, path, isCopy, h, p, f, None);
  }

  lemma BuildRouted(n: Node, path: Mask, isCopy: bool, h: Heap, p: Ptrs, f: Bit, v: Option<uint32>)
    requires Routed(n, f, v)
    ensures var d := Build(n, path, isCopy, h, p);
            d.ok || !isCopy ==> Routed(d.at, f, v)
  {
    var d := Build(n, path, isCopy, h, p);
    if d.ok || !isCopy {
      forall x: Rule | Has(d.at, x) ensures GetField(x.expr, f) == v {
        BuildCopies(n, path, isCopy, h, p, x);
        assert Has(n, x);
      }
    }
  }

  lemma ChainsWFCons(c: Chain, bs: seq<Chain>, base: nat, nb: nat, f: Bit, path: Mask)
    requires nb > 0 && ChainWF(c, base, nb, f, path) && ChainsWF(bs, base + 1, nb, f, path)
    ensures ChainsWF([c] + bs, base, nb, f, path)
  {
  }

  lemma {:induction false} BuildTableWF(bs: seq<Chain>, base: nat, nb: nat, f: Bit, path: Mask, isCopy: bool, h: Heap, p: Ptrs)
    requires nb > 0 && ChainsWF(bs, base, nb, f, path)
    ensures var d := BuildTable(bs, path, isCopy, h, p);
            |d.at| == |bs| && (d.ok || !isCopy ==> ChainsWF(d.at, base, nb, f, path))
    decreases FieldsLeft(path), bs
  {
    if bs != [] {
      assert ChainWF(bs[0], base + 0, nb, f, path);
      BuildChainWF(bs[0], base, nb, f, path, isCopy, h, p);
      var c := BuildChain(bs[0], path, isCopy, h, p);
      forall b | 0 <= b < |bs[1..]| ensures ChainWF(bs[1..][b], base + 1 + b, nb, f, path) {
        assert ChainWF(bs[b + 1], base + (b + 1), nb, f, path);
      }
      BuildTableWF(bs[1..], base + 1, nb, f, path, isCopy, c.heap, c.ptrs);
      var t := BuildTable(bs[1..], path, isCopy, c.heap, c.ptrs);
      if c.ok && (t.ok || !isCopy) {
        ChainsWFCons(c.at, t.at, base, nb, f, path);
      } else if !c.ok && !isCopy {
        ChainsWFCons(c.at, bs[1..], base, nb, f, path);
      }
    }
  }

  lemma {:induction false} BuildChainWF(c: Chain, b: nat, nb: nat, f: Bit, path: Mask, isCopy: bool, h: Heap, p: Ptrs)
    requires nb > 0 && ChainWF(c, b, nb, f, path)
    ensures var d := BuildChain(c, path, isCopy, h, p);
            && (d.ok || !isCopy ==> ChainWF(d.at, b, nb, f, path))
            && (forall w: uint32 :: HasValue(d.at, w) <==> HasValue(c, w))
    decreases FieldsLeft(path), c
  {
    if c.Link? {
      BuildShape(c.node, path, isCopy, h, p);
      BuildWF(c.node, path, isCopy, h, p);
      BuildRouted(c.node, path, isCopy, h, p, f, Some(c.node.value));
      var d := Build(c.node, path, isCopy, h, p);
      BuildChainWF(c.next, b, nb, f, path, isCopy, d.heap, Replaced(d, c.node));
    }
  }

  // Back pointers.  Building a copy touches none.

  lemma {:induction false} CopyPtrs(n: Node, path: Mask, h: Heap, p: Ptrs)
    ensures Build(n, path, true, h, p).ptrs == p
    decreases FieldsLeft(path), n
  {
    match n.split
    case Leaf =>
      var s := SplitNode(n, path, true, h);
      SplitNodeShape(n, path, true, h);
      if s.at.split.Branch? {
        FieldsShrink(path, s.at.split.field);
        CopyChildrenPtrs(s.at.split, path + {s.at.split.field}, s.heap, p);
      }
    case Branch(f, _, _) =>
      FieldsShrink(path, f);
      CopyChildrenPtrs(n.split, path + {f}, h, p);
  }

  lemma {:induction false} CopyChildrenPtrs(s: Split, path: Mask, h: Heap, p: Ptrs)
    requires s.Branch?
    ensures BuildChildren(s, path, true, h, p).ptrs == p
    decreases FieldsLeft(path), s
  {
    CopyTablePtrs(s.buckets, path, h, p);
    CopyChainPtrs(s.any, path, BuildTable(s.buckets, path, true, h, p).heap, p);
  }

  lemma {:induction false} CopyTablePtrs(bs: seq<Chain>, path: Mask, h: Heap, p: Ptrs)
    ensures BuildTable(bs, path, true, h, p).ptrs == p
    decreases FieldsLeft(path), bs
  {
    if bs != [] {
      CopyChainPtrs(bs[0], path, h, p);
      CopyTablePtrs(bs[1..], path, BuildChain(bs[0], path, true, h, p).heap, p);
    }
  }

  lemma {:induction false} CopyChainPtrs(c: Chain, path: Mask, h: Heap, p: Ptrs)
    ensures BuildChain(c, path, true, h, p).ptrs == p
    decreases FieldsLeft(path), c
  {
    if c.Link? {
      BuildShape(c.node, path, true, h, p);
      CopyPtrs(c.node, path, h, p);
      CopyChainPtrs(c.next, path, Build(c.node, path, true, h, p).heap, p);
    }
  }

  // In the master tree, pointers move to the new nodes once a copy is complete.

  /** Pointers lead only to addresses handed out. */
  ghost predicate Below(p: Ptrs, h: Heap) {
    forall id | id in p && p[id].Some? :: p[id].value < h.next
  }

  /** The entries of a part of the tree before and after building it. */
  ghost predicate Moved(es: seq<(Addr, Rule)>, es': seq<(Addr, Rule)>, p: Ptrs, q: Ptrs) {
    Ids(es') == Ids(es) && AllPoint(es', q) && Frame(p, q, Ids(es))
  }

  lemma NoIdTwiceParts(a: seq<(Addr, Rule)>, b: seq<(Addr, Rule)>)
    requires NoIdTwice(a + b)
    ensures NoIdTwice(a) && NoIdTwice(b) && Ids(a) !! Ids(b)
  {
    var c := a + b;
    forall i, j | 0 <= i < j < |a| ensures a[i].1.id != a[j].1.id { assert c[i] == a[i] && c[j] == a[j]; }
    forall i, j | 0 <= i < j < |b| ensures b[i].1.id != b[j].1.id {
      assert c[|a| + i] == b[i] && c[|a| + j] == b[j];
    }
    forall e, f | e in a && f in b ensures e.1.id != f.1.id {
      var i :| 0 <= i < |a| && a[i] == e;
      var j :| 0 <= j < |b| && b[j] == f;
      assert c[i] == e && c[|a| + j] == f;
    }
  }

  /** Two parts built one after the other. */
  lemma MovedBoth(a: seq<(Addr, Rule)>, a': seq<(Addr, Rule)>, b: seq<(Addr, Rule)>, b': seq<(Addr, Rule)>,
                  p: Ptrs, q: Ptrs, r: Ptrs)
    requires Ids(a) !! Ids(b) && Moved(a, a', p, q) && Moved(b, b', q, r)
    ensures Moved(a + b, a' + b', p, r)
  {
    assert Ids(a + b) == Ids(a) + Ids(b) && Ids(a' + b') == Ids(a') + Ids(b');
    forall e | e in a' + b' ensures PointsTo(r, e.1.id, e.0) {
      if e in a' {
        assert e.1.id in Ids(a');
        assert SameAt(q, r, e.1.id);
      }
    }
  }

  lemma StillPoint(es: seq<(Addr, Rule)>, p: Ptrs, q: Ptrs, ids: set<uint32>)
    requires AllPoint(es, p) && Frame(p, q, ids) && ids !! Ids(es)
    ensures AllPoint(es, q)
  {
    forall e | e in es ensures PointsTo(q, e.1.id, e.0) {
      assert e.1.id in Ids(es);
      assert SameAt(p, q, e.1.id);
    }
  }

  /** A leaf of the master tree that is split: its rules keep, and in the end
      point into, a subtree all of whose addresses are fresh. */
  lemma SplitIsFresh(n: Node, path: Mask, h: Heap, p: Ptrs, a: Addr)
    requires n.split.Leaf? && SplitNode(n, path, false, h).at.split.Branch? && a < h.next
    ensures var s := SplitNode(n, path, false, h);
            Uses(Rebuilt(s.at, path + {s.at.split.field}, true, s.heap, p).at, a) == 0
  {
    var s := SplitNode(n, path, false, h);
    SplitNodeShape(n, path, false, h);
    SplitNodeUses(n, path, false, h, a);
    RebuiltUses(s.at, path + {s.at.split.field}, true, s.heap, p, a);
  }

  lemma BuildLeafPtrs(n: Node, path: Mask, h: Heap, p: Ptrs)
    requires n.split.Leaf? && AllPoint(Entries(n), p) && NoIdTwice(Entries(n)) && Below(p, h)
    ensures var d := Build(n, path, false, h, p);
            && Moved(Entries(n), Entries(d.at), p, d.ptrs)
            && (d.at.addr != n.addr ==> forall e | e in Entries(d.at) :: e.0 >= h.next)
  {
    var s := SplitNode(n, path, false, h);
    SplitNodeShape(n, path, false, h);
    if |n.rules| > LEAF_THRESHOLD && s.ok && s.at.split.Branch? {
      var r := Rebuilt(s.at, path + {s.at.split.field}, true, s.heap, p);
      CopyChildrenPtrs(s.at.split, path + {s.at.split.field}, s.heap, p);
      forall e | e in Entries(r.at) ensures e.0 >= h.next {
        EntriesAreCopies(r.at, e.0, e.1);
        if e.0 < h.next { SplitIsFresh(n, path, h, p, e.0); }
      }
      if r.ok {
        BuildSameIds(n, path, h, p);
        SetNodePointersOK(p, r.at);
      } else {
        TouchNone(p, Entries(r.at));
      }
    }
  }

  lemma BuildSameIds(n: Node, path: Mask, h: Heap, p: Ptrs)
    requires NoIdTwice(Entries(n))
    ensures var d := Build(n, path, false, h, p);
            NoIdTwice(Entries(d.at)) && Ids(Entries(d.at)) == Ids(Entries(n))
  {
    var d := Build(n, path, false, h, p);
    forall x: Rule ensures CountRule(Entries(d.at), x) == CountRule(Entries(n), x) {
      BuildCopies(n, path, false, h, p, x);
      EntriesCount(n, x);
      EntriesCount(d.at, x);
    }
    SameRulesSameIds(Entries(n), Entries(d.at));
  }

  lemma BuildLeafBelow(n: Node, path: Mask, h: Heap, p: Ptrs)
    requires n.split.Leaf? && AllPoint(Entries(n), p) && NoIdTwice(Entries(n)) && Below(p, h)
    ensures Below(Build(n, path, false, h, p).ptrs, Build(n, path, false, h, p).heap)
  {
    var d := Build(n, path, false, h, p);
    BuildLeafPtrs(n, path, h, p);
    BuildUses(n, path, false, h, p, 0);
    forall id | id in d.ptrs && d.ptrs[id].Some? ensures d.ptrs[id].value < d.heap.next {
      if id in Ids(Entries(d.at)) {
        var e :| e in Entries(d.at) && e.1.id == id;
        EntriesAreCopies(d.at, e.0, e.1);
        assert Own(n.addr, n.rules)[0] in Entries(n);
        BuildUses(n, path, false, h, p, e.0);
      } else {
        assert SameAt(p, d.ptrs, id);
      }
    }
  }

  lemma {:induction false} BuildPtrs(n: Node, path: Mask, h: Heap, p: Ptrs)
    requires AllPoint(Entries(n), p) && NoIdTwice(Entries(n)) && Below(p, h)
    ensures var d := Build(n, path, false, h, p);
            Moved(Entries(n), Entries(d.at), p, d.ptrs) && Below(d.ptrs, d.heap)
    decreases FieldsLeft(path), n
  {
    match n.split
    case Leaf =>
      BuildLeafPtrs(n, path, h, p);
      BuildLeafBelow(n, path, h, p);
    case Branch(f, bs, any) =>
      FieldsShrink(path, f);
      var own := Own(n.addr, n.rules);
      NoIdTwiceParts(own + TableEntries(bs), ChainEntries(any));
      NoIdTwiceParts(own, TableEntries(bs));
      BuildTablePtrs(bs, path + {f}, h, p);
      var t := BuildTable(bs, path + {f}, false, h, p);
      MovedBoth(own, own, TableEntries(bs), TableEntries(t.at), p, p, t.ptrs);
      StillPoint(ChainEntries(any), p, t.ptrs, Ids(own + TableEntries(bs)));
      BuildChainPtrs(any, path + {f}, t.heap, t.ptrs);
      var c := BuildChain(any, path + {f}, false, t.heap, t.ptrs);
      var q := if t.ok then c else Built(any, t.heap, t.ptrs, false);
      MovedBoth(own + TableEntries(bs), own + TableEntries(t.at), ChainEntries(any), ChainEntries(q.at), p, t.ptrs, q.ptrs);
  }

  lemma {:induction false} BuildTablePtrs(bs: seq<Chain>, path: Mask, h: Heap, p: Ptrs)
    requires AllPoint(TableEntries(bs), p) && NoIdTwice(TableEntries(bs)) && Below(p, h)
    ensures var d := BuildTable(bs, path, false, h, p);
            Moved(TableEntries(bs), TableEntries(d.at), p, d.ptrs) && Below(d.ptrs, d.heap)
    decreases FieldsLeft(path), bs
  {
    if bs != [] {
      NoIdTwiceParts(ChainEntries(bs[0]), TableEntries(bs[1..]));
      BuildChainPtrs(bs[0], path, h, p);
      var c := BuildChain(bs[0], path, false, h, p);
      StillPoint(TableEntries(bs[1..]), p, c.ptrs, Ids(ChainEntries(bs[0])));
      BuildTablePtrs(bs[1..], path, c.heap, c.ptrs);
      var t := BuildTable(bs[1..], path, false, c.heap, c.ptrs);
      var q := if c.ok then t else Built(bs[1..], c.heap, c.ptrs, false);
      MovedBoth(ChainEntries(bs[0]), ChainEntries(c.at), TableEntries(bs[1..]), TableEntries(q.at), p, c.ptrs, q.ptrs);
    }
  }

  lemma {:induction false} BuildChainPtrs(c: Chain, path: Mask, h: Heap, p: Ptrs)
    requires AllPoint(ChainEntries(c), p) && NoIdTwice(ChainEntries(c)) && Below(p, h)
    ensures var d := BuildChain(c, path, false, h, p);
            Moved(ChainEntries(c), ChainEntries(d.at), p, d.ptrs) && Below(d.ptrs, d.heap)
    decreases FieldsLeft(path), c
  {
    if c.Link? {
      NoIdTwiceParts(Entries(c.node), ChainEntries(c.next));
      BuildPtrs(c.node, path, h, p);
      var b := Build(c.node, path, false, h, p);
      ReplacedIsUnreferenced(c.node, path, h, p);
      StillPoint(ChainEntries(c.next), p, b.ptrs, Ids(Entries(c.node)));
      BuildChainPtrs(c.next, path, b.heap, b.ptrs);
      var k := BuildChain(c.next, path, false, b.heap, b.ptrs);
      var q := if b.ok then k else Built(c.next, b.heap, b.ptrs, false);
      MovedBoth(Entries(c.node), Entries(b.at), ChainEntries(c.next), ChainEntries(q.at), p, b.ptrs, q.ptrs);
    }
  }

  /** Freeing the node a new one replaces resets no pointer. */
  lemma ReplacedIsUnreferenced(n: Node, path: Mask, h: Heap, p: Ptrs)
    requires AllPoint(Entries(n), p) && NoIdTwice(Entries(n)) && Below(p, h)
    ensures var d := Build(n, path, false, h, p); Replaced(d, n) == d.ptrs
  {
    var d := Build(n, path, false, h, p);
    if d.at.addr != n.addr {
      BuildShape(n, path, false, h, p);
      BuildLeafPtrs(n, path, h, p);
      forall e | e in Entries(n) ensures !PointsTo(d.ptrs, e.1.id, e.0) {
        assert e.1.id in Ids(Entries(d.at));
        var e' :| e' in Entries(d.at) && e'.1.id == e.1.id;
        assert PointsTo(p, e.1.id, e.0) && PointsTo(d.ptrs, e'.1.id, e'.0);
      }
      TouchNone(d.ptrs, Entries(n));
    }
  }
}
