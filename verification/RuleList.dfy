/** Rules and the priority-sorted lists a classifier node keeps them in
    (src/include/rule.hh, Cnode::add_rule_to_list in src/include/cnode.hh). */
module RuleList {
  import opened Basics
  import opened PacketExpr

  datatype Rule = Rule(id: uint32, priority: uint32, expr: Expr, action: int)

  ghost predicate Sorted(rs: seq<Rule>) {
    forall i, j | 0 <= i < j < |rs| :: rs[i].priority <= rs[j].priority
  }

  /** Before the first rule of the same or a larger priority number. */
  function Insert(rs: seq<Rule>, r: Rule): (out: seq<Rule>)
    ensures |out| == |rs| + 1
  {
    if rs == [] then [r]
    else if r.priority <= rs[0].priority then [r] + rs
    else [rs[0]] + Insert(rs[1..], r)
  }

  /** Putting a rule in front of a list that holds only the rules of `bag`. */
  lemma ConsSorted(x: Rule, t: seq<Rule>, bag: multiset<Rule>)
    requires Sorted(t) && multiset(t) == bag
    requires forall y | y in bag :: x.priority <= y.priority
    ensures Sorted([x] + t)
  {
  }

  lemma SortedTail(rs: seq<Rule>)
    requires rs != [] && Sorted(rs)
    ensures rs == [rs[0]] + rs[1..] && Sorted(rs[1..])
    ensures multiset(rs) == multiset{rs[0]} + multiset(rs[1..])
    ensures forall y | y in multiset(rs[1..]) :: rs[0].priority <= y.priority
  {
  }

  lemma {:induction false} InsertBag(rs: seq<Rule>, r: Rule)
    ensures multiset(Insert(rs, r)) == multiset(rs) + multiset{r}
  {
    if rs != [] {
      assert rs == [rs[0]] + rs[1..];
      if r.priority > rs[0].priority {
        InsertBag(rs[1..], r);
      }
    }
  }

  lemma {:induction false} InsertSorted(rs: seq<Rule>, r: Rule)
    requires Sorted(rs)
    ensures Sorted(Insert(rs, r))
  {
    if rs != [] {
      SortedTail(rs);
      if r.priority > rs[0].priority {
        InsertBag(rs[1..], r);
        InsertSorted(rs[1..], r);
        ConsSorted(rs[0], Insert(rs[1..], r), multiset(rs[1..]) + multiset{r});
      } else {
        ConsSorted(r, rs, multiset{rs[0]} + multiset(rs[1..]));
      }
    }
  }

  /** The loop the source runs over its linked list. */
  method AddRuleToList(rs: seq<Rule>, r: Rule) returns (out: seq<Rule>)
    ensures out == Insert(rs, r)
  {
    var passed, rest := [], rs;
    while rest != []
      invariant Insert(rs, r) == passed + Insert(rest, r)
      decreases |rest|
    {
      if r.priority <= rest[0].priority {
        return passed + ([r] + rest);
      }
      assert passed + ([rest[0]] + Insert(rest[1..], r)) == (passed + [rest[0]]) + Insert(rest[1..], r);
      passed, rest := passed + [rest[0]], rest[1..];
    }
    out := passed + [r];
  }

  /** std::list::merge: ties keep the receiver's elements first. */
  function Merge(a: seq<Rule>, b: seq<Rule>): seq<Rule>
    decreases |a| + |b|
  {
    if a == [] then b
    else if b == [] then a
    else if b[0].priority < a[0].priority then [b[0]] + Merge(a, b[1..])
    else [a[0]] + Merge(a[1..], b)
  }

  lemma {:induction false} MergeBag(a: seq<Rule>, b: seq<Rule>)
    ensures multiset(Merge(a, b)) == multiset(a) + multiset(b)
    decreases |a| + |b|
  {
    if a != [] && b != [] {
      assert a == [a[0]] + a[1..] && b == [b[0]] + b[1..];
      if b[0].priority < a[0].priority {
        MergeBag(a, b[1..]);
      } else {
        MergeBag(a[1..], b);
      }
    }
  }

  lemma {:induction false} MergeSorted(a: seq<Rule>, b: seq<Rule>)
    requires Sorted(a) && Sorted(b)
    ensures Sorted(Merge(a, b))
    decreases |a| + |b|
  {
    if a != [] && b != [] {
      SortedTail(a);
      SortedTail(b);
      if b[0].priority < a[0].priority {
        MergeSorted(a, b[1..]);
        MergeBag(a, b[1..]);
        ConsSorted(b[0], Merge(a, b[1..]), multiset(a) + multiset(b[1..]));
      } else {
        MergeSorted(a[1..], b);
        MergeBag(a[1..], b);
        ConsSorted(a[0], Merge(a[1..], b), multiset(a[1..]) + multiset(b));
      }
    }
  }

  /** Erases the first rule with this id, as remove_rule does. */
  function Without(rs: seq<Rule>, id: uint32): seq<Rule> {
    if rs == [] then []
    else if rs[0].id == id then rs[1..]
    else [rs[0]] + Without(rs[1..], id)
  }

  lemma {:induction false} WithoutBag(rs: seq<Rule>, r: Rule)
    requires r in rs && forall x | x in rs && x.id == r.id :: x == r
    ensures multiset(Without(rs, r.id)) == multiset(rs) - multiset{r}
  {
    assert rs == [rs[0]] + rs[1..];
    if rs[0].id == r.id {
      assert rs[0] in rs;
    } else {
      WithoutBag(rs[1..], r);
    }
  }

  lemma {:induction false} WithoutSorted(rs: seq<Rule>, id: uint32)
    requires Sorted(rs)
    ensures Sorted(Without(rs, id))
    ensures forall x | x in Without(rs, id) :: x in rs
  {
    if rs != [] && rs[0].id != id {
      WithoutSorted(rs[1..], id);
      var t := Without(rs[1..], id);
      forall i | 0 <= i < |t| ensures rs[0].priority <= t[i].priority {
        assert t[i] in rs[1..];
      }
    }
  }
}
