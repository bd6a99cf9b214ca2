/** Operations that change one list or drop empty nodes: remove_rule,
    change_rule_priority, clean and unbuild (src/include/cnode.hh). */
module CnodeEdit {
  import opened Basics
  import opened PacketExpr
  import opened RuleList
  import opened CnodeTree

  // ----- remove_rule and change_rule_priority, reached through a back pointer

  /** Removes the rule with this id, and puts `repl` back in order if given. */
  function EditList(rs: seq<Rule>, id: uint32, repl: Option<Rule>): seq<Rule> {
    if repl.None? then Without(rs, id) else Insert(Without(rs, id), repl.value)
  }

  /** Edits the list of the node at address `a`. */
  function EditAt(n: Node, a: Addr, id: uint32, repl: Option<Rule>): Node {
    var rules := if n.addr == a then EditList(n.rules, id, repl) else n.rules;
    match n.split
    case Leaf => n.(rules := rules)
    case Branch(f, bs, any) =>
      n.(rules := rules, split := Branch(f, EditTable(bs, a, id, repl), EditChain(any, a, id, repl)))
  }

  function EditChain(c: Chain, a: Addr, id: uint32, repl: Option<Rule>): Chain {
    match c
    case Nil => Nil
    case Link(n, k) => Link(EditAt(n, a, id, repl), EditChain(k, a, id, repl))
  }

  function EditTable(bs: seq<Chain>, a: Addr, id: uint32, repl: Option<Rule>): (t: seq<Chain>)
    ensures |t| == |bs|
  {
    if bs == [] then [] else [EditChain(bs[0], a, id, repl)] + EditTable(bs[1..], a, id, repl)
  }

  lemma {:induction false} WithoutNone(a: Addr, rs: seq<Rule>, id: uint32)
    requires forall e | e in Own(a, rs) :: e.1.id != id
    ensures Without(rs, id) == rs
  {
    if rs != [] {
      assert Own(a, rs)[0] == (a, rs[0]);
      forall e | e in Own(a, rs[1..]) ensures e.1.id != id {
        var i :| 0 <= i < |rs| - 1 && Own(a, rs[1..])[i] == e;
        assert Own(a, rs)[i + 1] == e;
      }
      WithoutNone(a, rs[1..], id);
    }
  }

  /** Removing an id that no entry of the tree has changes nothing. */
  lemma {:induction false} EditNone(n: Node, a: Addr, id: uint32)
    requires forall e | e in Entries(n) :: e.1.id != id
    ensures EditAt(n, a, id, None) == n
    decreases n
  {
    WithoutNone(n.addr, n.rules, id);
    if n.split.Branch? {
      EditTableNone(n.split.buckets, a, id);
      EditChainNone(n.split.any, a, id);
    }
  }

  lemma {:induction false} EditChainNone(c: Chain, a: Addr, id: uint32)
    requires forall e | e in ChainEntries(c) :: e.1.id != id
    ensures EditChain(c, a, id, None) == c
    decreases c
  {
    if c.Link? {
      EditNone(c.node, a, id);
      EditChainNone(c.next, a, id);
    }
  }

  lemma {:induction false} EditTableNone(bs: seq<Chain>, a: Addr, id: uint32)
    requires forall e | e in TableEntries(bs) :: e.1.id != id
    ensures EditTable(bs, a, id, None) == bs
    decreases bs
  {
    if bs != [] {
      EditChainNone(bs[0], a, id);
      EditTableNone(bs[1..], a, id);
    }
  }

  lemma {:induction false} EditMisses(n: Node, a: Addr, id: uint32, repl: Option<Rule>)
    requires Uses(n, a) == 0
    ensures EditAt(n, a, id, repl) == n
    decreases n
  {
    if n.split.Branch? {
      EditTableMisses(n.split.buckets, a, id, repl);
      EditChainMisses(n.split.any, a, id, repl);
    }
  }

  lemma {:induction false} EditChainMisses(c: Chain, a: Addr, id: uint32, repl: Option<Rule>)
    requires ChainUses(c, a) == 0
    ensures EditChain(c, a, id, repl) == c
    decreases c
  {
    if c.Link? {
      EditMisses(c.node, a, id, repl);
      EditChainMisses(c.next, a, id, repl);
    }
  }

  lemma {:induction false} EditTableMisses(bs: seq<Chain>, a: Addr, id: uint32, repl: Option<Rule>)
    requires TableUses(bs, a) == 0
    ensures EditTable(bs, a, id, repl) == bs
    decreases bs
  {
    if bs != [] {
      EditChainMisses(bs[0], a, id, repl);
      EditTableMisses(bs[1..], a, id, repl);
    }
  }

  /** The list of the one node at address `a`. */
  ghost function ListAt(n: Node, a: Addr): seq<Rule>
    requires Uses(n, a) == 1
  {
    if n.addr == a then n.rules
    else if TableUses(n.split.buckets, a) == 1 then TableListAt(n.split.buckets, a)
    else ChainListAt(n.split.any, a)
  }

  ghost function ChainListAt(c: Chain, a: Addr): seq<Rule>
    requires ChainUses(c, a) == 1
  {
    if Uses(c.node, a) == 1 then ListAt(c.node, a) else ChainListAt(c.next, a)
  }

  ghost function TableListAt(bs: seq<Chain>, a: Addr): seq<Rule>
    requires TableUses(bs, a) == 1
  {
    if ChainUses(bs[0], a) == 1 then ChainListAt(bs[0], a) else TableListAt(bs[1..], a)
  }

  /** What the edit of list `l` adds to the copies of `x`. */
  ghost function Delta(l: seq<Rule>, id: uint32, repl: Option<Rule>, at: Option<Addr>, a: Addr, x: Rule): int {
    if at.None? || at.value == a then multiset(EditList(l, id, repl))[x] as int - multiset(l)[x] as int else 0
  }

  lemma {:induction false} ListAtCopies(n: Node, a: Addr, x: Rule)
    requires Uses(n, a) == 1
    ensures Copies(n, Some(a), x) == multiset(ListAt(n, a))[x]
    decreases n
  {
    if n.split.Branch? {
      TableEntriesAreCopies(n.split.buckets, a, x);
      ChainEntriesAreCopies(n.split.any, a, x);
      if n.addr != a {
        if TableUses(n.split.buckets, a) == 1 {
          TableListAtCopies(n.split.buckets, a, x);
        } else {
          ChainListAtCopies(n.split.any, a, x);
        }
      }
    }
  }

  lemma {:induction false} ChainListAtCopies(c: Chain, a: Addr, x: Rule)
    requires ChainUses(c, a) == 1
    ensures ChainCopies(c, Some(a), x) == multiset(ChainListAt(c, a))[x]
    decreases c
  {
    EntriesAreCopies(c.node, a, x);
    ChainEntriesAreCopies(c.next, a, x);
    if Uses(c.node, a) == 1 { ListAtCopies(c.node, a, x); } else { ChainListAtCopies(c.next, a, x); }
  }

  lemma {:induction false} TableListAtCopies(bs: seq<Chain>, a: Addr, x: Rule)
    requires TableUses(bs, a) == 1
    ensures TableCopies(bs, Some(a), x) == multiset(TableListAt(bs, a))[x]
    decreases bs
  {
    ChainEntriesAreCopies(bs[0], a, x);
    TableEntriesAreCopies(bs[1..], a, x);
    if ChainUses(bs[0], a) == 1 { ChainListAtCopies(bs[0], a, x); } else { TableListAtCopies(bs[1..], a, x); }
  }

  /** The edit changes that one list and nothing else anywhere. */
  lemma {:induction false} EditCopies(n: Node, a: Addr, id: uint32, repl: Option<Rule>, at: Option<Addr>, x: Rule)
    requires Uses(n, a) == 1
    ensures Copies(EditAt(n, a, id, repl), at, x) == Copies(n, at, x) + Delta(ListAt(n, a), id, repl, at, a, x)
    decreases n
  {
    if n.split.Branch? {
      var Branch(f, bs, any) := n.split;
      if TableUses(bs, a) == 1 {
        EditTableCopies(bs, a, id, repl, at, x);
      } else {
        EditTableMisses(bs, a, id, repl);
      }
      if ChainUses(any, a) == 1 {
        EditChainCopies(any, a, id, repl, at, x);
      } else {
        EditChainMisses(any, a, id, repl);
      }
    }
  }

  lemma {:induction false} EditChainCopies(c: Chain, a: Addr, id: uint32, repl: Option<Rule>, at: Option<Addr>, x: Rule)
    requires ChainUses(c, a) == 1
    ensures ChainCopies(EditChain(c, a, id, repl), at, x)
            == ChainCopies(c, at, x) + Delta(ChainListAt(c, a), id, repl, at, a, x)
    decreases c
  {
    if Uses(c.node, a) == 1 {
      EditCopies(c.node, a, id, repl, at, x);
      EditChainMisses(c.next, a, id, repl);
    } else {
      EditMisses(c.node, a, id, repl);
      EditChainCopies(c.next, a, id, repl, at, x);
    }
  }

  lemma {:induction false} EditTableCopies(bs: seq<Chain>, a: Addr, id: uint32, repl: Option<Rule>, at: Option<Addr>, x: Rule)
    requires TableUses(bs, a) == 1
    ensures TableCopies(EditTable(bs, a, id, repl), at, x)
            == TableCopies(bs, at, x) + Delta(TableListAt(bs, a), id, repl, at, a, x)
    decreases bs
  {
    if ChainUses(bs[0], a) == 1 {
      EditChainCopies(bs[0], a, id, repl, at, x);
      EditTableMisses(bs[1..], a, id, repl);
    } else {
      EditChainMisses(bs[0], a, id, repl);
      EditTableCopies(bs[1..], a, id, repl, at, x);
    }
  }

  lemma {:induction false} EditUses(n: Node, a: Addr, id: uint32, repl: Option<Rule>, b: Addr)
    ensures Uses(EditAt(n, a, id, repl), b) == Uses(n, b)
    decreases n
  {
    if n.split.Branch? {
      EditTableUses(n.split.buckets, a, id, repl, b);
      EditChainUses(n.split.any, a, id, repl, b);
    }
  }

  lemma {:induction false} EditChainUses(c: Chain, a: Addr, id: uint32, repl: Option<Rule>, b: Addr)
    ensures ChainUses(EditChain(c, a, id, repl), b) == ChainUses(c, b)
    decreases c
  {
    if c.Link? {
      EditUses(c.node, a, id, repl, b);
      EditChainUses(c.next, a, id, repl, b);
    }
  }

  lemma {:induction false} EditTableUses(bs: seq<Chain>, a: Addr, id: uint32, repl: Option<Rule>, b: Addr)
    ensures TableUses(EditTable(bs, a, id, repl), b) == TableUses(bs, b)
    decreases bs
  {
    if bs != [] {
      EditChainUses(bs[0], a, id, repl, b);
      EditTableUses(bs[1..], a, id, repl, b);
    }
  }

  // ----- The edited tree is well-formed

  lemma {:induction false} EditTableAt(bs: seq<Chain>, b: nat, a: Addr, id: uint32, repl: Option<Rule>)
    requires b < |bs|
    ensures EditTable(bs, a, id, repl)[b] == EditChain(bs[b], a, id, repl)
  {
    if b > 0 { EditTableAt(bs[1..], b - 1, a, id, repl); }
  }

  lemma {:induction false} OneBucket(bs: seq<Chain>, b: nat, a: Addr, r: Rule)
    requires b < |bs| && TableUses(bs, a) <= 1
    ensures ChainUses(bs[b], a) <= 1
    ensures ChainUses(bs[b], a) == 1 ==> TableCopies(bs, Some(a), r) == ChainCopies(bs[b], Some(a), r)
  {
    ChainEntriesAreCopies(bs[0], a, r);
    TableEntriesAreCopies(bs[1..], a, r);
    if b > 0 {
      BucketUses(bs[1..], b - 1, a);
      OneBucket(bs[1..], b - 1, a, r);
    }
  }

  lemma EditRouted(n: Node, a: Addr, r: Rule, repl: Option<Rule>, f: Bit, v: Option<uint32>)
    requires Routed(n, f, v) && Uses(n, a) == 1 && Copies(n, Some(a), r) > 0
    requires repl.Some? ==> repl.value.expr == r.expr
    ensures Routed(EditAt(n, a, r.id, repl), f, v)
  {
    var m := EditAt(n, a, r.id, repl);
    EntriesAreCopies(n, a, r);
    assert Has(n, r);
    forall x: Rule | Has(m, x) ensures GetField(x.expr, f) == v {
      EditCopies(n, a, r.id, repl, None, x);
      ListAtCopies(n, a, x);
      EntriesAreCopies(n, a, x);
      EditListSubset(ListAt(n, a), r.id, repl, x);
      assert Has(n, x) || repl == Some(x);
    }
  }

  lemma {:induction false} WithoutShrinks(rs: seq<Rule>, id: uint32, x: Rule)
    ensures multiset(Without(rs, id))[x] <= multiset(rs)[x]
  {
    if rs != [] {
      assert rs == [rs[0]] + rs[1..];
      if rs[0].id != id { WithoutShrinks(rs[1..], id, x); }
    }
  }

  lemma EditListSubset(l: seq<Rule>, id: uint32, repl: Option<Rule>, x: Rule)
    ensures repl != Some(x) ==> multiset(EditList(l, id, repl))[x] <= multiset(l)[x]
  {
    WithoutShrinks(l, id, x);
    if repl.Some? { InsertBag(Without(l, id), repl.value); }
  }

  lemma EditListSorted(l: seq<Rule>, id: uint32, repl: Option<Rule>)
    requires Sorted(l)
    ensures Sorted(EditList(l, id, repl))
  {
    WithoutSorted(l, id);
    if repl.Some? { InsertSorted(Without(l, id), repl.value); }
  }

  lemma {:induction false} EditWF(n: Node, path: Mask, a: Addr, r: Rule, repl: Option<Rule>)
    requires NodeWF(n, path) && Uses(n, a) == 1 && Copies(n, Some(a), r) > 0
    requires repl.Some? ==> repl.value.expr == r.expr
    ensures NodeWF(EditAt(n, a, r.id, repl), path)
    decreases n
  {
    EditListSorted(n.rules, r.id, repl);
    if n.split.Branch? {
      var Branch(f, bs, any) := n.split;
      TableEntriesAreCopies(bs, a, r);
      ChainEntriesAreCopies(any, a, r);
      if TableUses(bs, a) == 1 {
        EditTableWF(bs, f, path + {f}, a, r, repl);
        EditChainMisses(any, a, r.id, repl);
        var t := EditTable(bs, a, r.id, repl);
        assert EditAt(n, a, r.id, repl).split == Branch(f, t, any);
        forall b | 0 <= b < |t| ensures ChainWF(t[b], b, |t|, f, path + {f}) {
          assert ChainWF(t[b], 0 + b, |bs|, f, path + {f});
        }
      } else if ChainUses(any, a) == 1 {
        EditTableMisses(bs, a, r.id, repl);
        EditAnyWF(any, f, path + {f}, a, r, repl);
      } else {
        EditTableMisses(bs, a, r.id, repl);
        EditChainMisses(any, a, r.id, repl);
      }
    }
  }

  lemma {:induction false} EditAnyWF(any: Chain, f: Bit, path: Mask, a: Addr, r: Rule, repl: Option<Rule>)
    requires any.Link? && any.next.Nil? && NodeWF(any.node, path) && Routed(any.node, f, None)
    requires ChainUses(any, a) == 1 && ChainCopies(any, Some(a), r) > 0
    requires repl.Some? ==> repl.value.expr == r.expr
    ensures var c := EditChain(any, a, r.id, repl);
            c.Link? && c.next.Nil? && NodeWF(c.node, path) && Routed(c.node, f, None)
    decreases any
  {
    assert Uses(any.node, a) == 1;
    EditWF(any.node, path, a, r, repl);
    EditRouted(any.node, a, r, repl, f, None);
  }

  lemma {:induction false} EditTableWF(bs: seq<Chain>, f: Bit, path: Mask, a: Addr, r: Rule, repl: Option<Rule>)
    requires bs != [] && forall b | 0 <= b < |bs| :: ChainWF(bs[b], b, |bs|, f, path)
    requires TableUses(bs, a) == 1 && TableCopies(bs, Some(a), r) > 0
    requires repl.Some? ==> repl.value.expr == r.expr
    ensures ChainsWF(EditTable(bs, a, r.id, repl), 0, |bs|, f, path)
    decreases bs
  {
    var t := EditTable(bs, a, r.id, repl);
    forall b | 0 <= b < |bs| ensures ChainWF(t[b], b, |bs|, f, path) {
      EditTableAt(bs, b, a, r.id, repl);
      OneBucket(bs, b, a, r);
      if ChainUses(bs[b], a) == 1 {
        EditChainWF(bs[b], b, |bs|, f, path, a, r, repl);
      } else {
        EditChainMisses(bs[b], a, r.id, repl);
      }
    }
  }

  lemma {:induction false} BucketUses(bs: seq<Chain>, b: nat, a: Addr)
    requires b < |bs|
    ensures ChainUses(bs[b], a) <= TableUses(bs, a)
  {
    if b > 0 { BucketUses(bs[1..], b - 1, a); }
  }

  lemma {:induction false} EditChainWF(c: Chain, b: nat, nb: nat, f: Bit, path: Mask, a: Addr, r: Rule, repl: Option<Rule>)
    requires nb > 0 && ChainWF(c, b, nb, f, path) && ChainUses(c, a) == 1 && ChainCopies(c, Some(a), r) > 0
    requires repl.Some? ==> repl.value.expr == r.expr
    ensures ChainWF(EditChain(c, a, r.id, repl), b, nb, f, path)
    decreases c
  {
    EditHasValue(c, a, r.id, repl);
    EntriesAreCopies(c.node, a, r);
    ChainEntriesAreCopies(c.next, a, r);
    EditHasValue(c.next, a, r.id, repl);
    if Uses(c.node, a) == 1 {
      EditWF(c.node, path, a, r, repl);
      EditRouted(c.node, a, r, repl, f, Some(c.node.value));
      EditChainMisses(c.next, a, r.id, repl);
    } else {
      EditMisses(c.node, a, r.id, repl);
      EditChainWF(c.next, b, nb, f, path, a, r, repl);
    }
  }

  lemma {:induction false} EditHasValue(c: Chain, a: Addr, id: uint32, repl: Option<Rule>)
    ensures forall v: uint32 :: HasValue(EditChain(c, a, id, repl), v) <==> HasValue(c, v)
    decreases c
  {
    if c.Link? { EditHasValue(c.next, a, id, repl); }
  }
}
