/** The classifier object (src/include/classifier.hh). */
module ClassifierObject {
  import opened Basics
  import opened PacketExpr
  import opened RuleList
  import opened CnodeTree
  import opened CnodeBuild
  import opened CnodeEdit
  import opened CnodeClean
  import opened CnodeCost
  import opened CnodeShape
  import opened CnodeResult
  import opened CnodeLookup
  import opened CnodeLive
  import opened CnodeWalk
  import opened ClassifierState

  const MAX_ID: uint32 := 0xFFFF_FFFF

  class Classifier {
    var root: Node
    var rules: map<uint32, Rule>
    var ptrs: Ptrs
    var next: Addr
    var idCounter: uint32
    /** Nodes still to be visited; empty between calls unless one threw. */
    var toTraverse: seq<Addr>
    /** The stored rules that are in no list, since a priority change threw. */
    ghost var lost: set<uint32>

    ghost function S(): State
      reads this
    {
      State(root, rules, ptrs, next)
    }

    ghost predicate Valid()
      reads this
    {
      InvBut(S(), lost) && 1 <= idCounter
    }

    constructor ()
      ensures Valid() && S() == EMPTY && lost == {} && toTraverse == []
    {
      root, rules, ptrs, next := EMPTY.root, map[], map[], EMPTY.next;
      idCounter := 1;
      toTraverse, lost := [], {};
      new;
      InitialInv(0, 1);
    }

    /** The next id not in use, wrapping once; fails exactly if all are in use. */
    method GetId() returns (id: uint32, ok: bool)
      requires Valid()
      modifies this`idCounter
      ensures Valid()
      ensures ok ==> 1 <= id && id !in rules
      ensures !ok <==> forall k: uint32 | 1 <= k :: k in rules
    {
      var wrapped := false;
      ghost var start := idCounter;
      while idCounter in rules
        invariant 1 <= idCounter
        invariant forall k: uint32 | (if wrapped then 1 else start) <= k < idCounter :: k in rules
        decreases !wrapped, MAX_ID - idCounter
      {
        if idCounter == MAX_ID {
          if wrapped {
            return 0, false;
          }
          wrapped := true;
          idCounter := 1;
        } else {
          idCounter := idCounter + 1;
        }
      }
      id, ok := idCounter, true;
      if idCounter == MAX_ID {
        idCounter := 1;
      }
    }

    /** Stores a new rule, or throws and leaves the stored rules as they were. */
    method AddRule(priority: uint32, expr: Expr, action: int, left: nat) returns (id: uint32, ok: bool)
      requires Valid()
      modifies this`root, this`rules, this`ptrs, this`next, this`idCounter
      ensures Valid()
      ensures ok ==> id !in old(rules) && rules == old(rules)[id := Rule(id, priority, expr, action)]
      ensures ok <==> left >= AddNeeds(old(S()), expr) && exists k: uint32 :: 1 <= k && k !in old(rules)
      ensures !ok ==> rules == old(rules)
    {
      id, ok := GetId();
      if ok {
        var r := Rule(id, priority, expr, action);
        AddKeepsInv(S(), lost, r, left);
        AddIff(S(), r, left);
        var (t, took) := Add(State(root, rules, ptrs, next), r, left);
        root, rules, ptrs, next := t.root, t.rules, t.ptrs, t.next;
        ok := took;
      }
    }

    /** Removes the rule with this id and no other. */
    method DeleteRule(id: uint32) returns (found: bool)
      requires Valid() && !Dangling(S(), id)
      modifies this`root, this`rules, this`ptrs, this`next, this`lost
      ensures Valid() && S() == Delete(old(S()), id).0 && lost == old(lost) - {id}
      ensures found == (id in old(rules)) && rules == old(rules) - {id}
    {
      DeleteKeepsInv(S(), lost, id);
      var (t, f) := Delete(State(root, rules, ptrs, next), id);
      root, rules, ptrs, next, found := t.root, t.rules, t.ptrs, t.next, f;
      lost := lost - {id};
    }

    /** Changes the priority of a rule that is in the index; if that throws, the
        rule is lost. */
    method ChangeRulePriority(id: uint32, priority: uint32, left: nat) returns (c: Change)
      requires Valid() && !Dangling(S(), id)
      modifies this`root, this`rules, this`ptrs, this`next, this`lost
      ensures Valid() && (c.Absent? <==> id !in old(rules) || id in old(lost))
      ensures rules == if c.Absent? then old(rules) else old(rules)[id := old(rules)[id].(priority := priority)]
      ensures lost == if id in old(rules) && left == 0 then old(lost) + {id} else old(lost)
      ensures c.Threw? <==> id in old(rules) && id !in old(lost) && left == 0
    {
      ChangePriorityKeepsInv(S(), lost, id, priority, left);
      lost := LostNow(S(), lost, id, left);
      var (t, f) := ChangePriority(State(root, rules, ptrs, next), id, priority, left);
      root, rules, ptrs, next, c := t.root, t.rules, t.ptrs, t.next, f;
    }

    method Build(left: nat) returns (ok: bool)
      requires Valid()
      modifies this`root, this`rules, this`ptrs, this`next
      ensures Valid() && rules == old(rules)
      ensures ok ==> Settled(root, {})
      ensures left >= 5 * |rules| * (NUM_FIELDS + 1) ==> ok
    {
      if left >= 5 * |rules| * (NUM_FIELDS + 1) { BuildSucceeds(S(), lost, left); }
      BuildKeepsInv(S(), lost, left);
      BuildSettles(root, {}, false, Heap(next, left), ptrs);
      var (t, f) := BuildAll(State(root, rules, ptrs, next), left);
      root, rules, ptrs, next, ok := t.root, t.rules, t.ptrs, t.next, f;
    }

    method Unbuild(left: nat) returns (ok: bool)
      requires Valid()
      modifies this`root, this`rules, this`ptrs, this`next
      ensures Valid() && rules == old(rules)
      ensures if ok then root.split.Leaf? else root == old(root) && ptrs == old(ptrs)
      ensures ok <==> old(root).split.Leaf? || left >= 1 + |rules| - |lost|
    {
      UnbuildSucceedsIff(S(), lost, left);
      UnbuildKeepsInv(S(), lost, left);
      var (t, f) := UnbuildAll(State(root, rules, ptrs, next), left);
      root, rules, ptrs, next, ok := t.root, t.rules, t.ptrs, t.next, f;
    }

    method CleanTree()
      requires Valid()
      modifies this`root, this`rules, this`ptrs, this`next
      ensures Valid() && rules == old(rules) && NoBareBelow(root)
    {
      CleanKeepsInv(S(), lost);
      root := Clean(root);
    }

    /** The stack and the result are those of walk `w`. */
    ghost predicate At(w: Walk, res: Results)
      reads this, res
    {
      && res.Valid() && w.cursors == res.Active() && w.spare == res.Spare()
      && Names(root, toTraverse, w.stack)
    }

    /** Visits one node: records its list and pushes the children to look at. */
    method Traverse(n: Node, res: Results, left: nat, ghost w: Walk, ghost fs: Mask) returns (rest: nat, threw: bool)
      requires Valid() && CanLookUp(S(), res.data, fs) && Ready(n, root, fs) && At(w, res) && w.left == left
      modifies this`toTraverse, res
      ensures n.split.Branch? ==> Askable(res.data, n.split.field)
      ensures var v := Visit(w, n, res.data); At(v, res) && rest == v.left && threw == v.threw
    {
      ghost var s := S();
      OwnRulesIndexed(s, lost, n);
      rest, threw := res.Push(n.addr, n.rules, left);
      if !threw {
        var p := Pushes(n, res.data);
        var k := if rest < |p| then rest else |p|;
        PushedNamed(n, s, fs, res.data, toTraverse, w.stack, k);
        toTraverse := toTraverse + Addrs(p[..k]);
        rest, threw := rest - k, k < |p|;
      }
    }

    /** Takes the last node off the stack and visits it. */
    method TraverseLast(res: Results, left: nat, ghost w: Walk, ghost fs: Mask)
      returns (rest: nat, threw: bool, ghost v: Walk)
      requires Valid() && CanLookUp(S(), res.data, fs) && toTraverse != []
      requires At(w, res) && w.left == left && !w.threw && AllReady(w.stack, root, fs)
      modifies this`toTraverse, res
      ensures At(v, res) && v.left == rest && v.threw == threw && AllReady(v.stack, root, fs)
      ensures Drive(w, res.data, root, fs) == if threw then v else Drive(v, res.data, root, fs)
      ensures !threw ==> SumWeight(v.stack) < SumWeight(w.stack)
    {
      var n := FindNode(root, toTraverse[|toTraverse| - 1]).value;
      toTraverse := toTraverse[..|toTraverse| - 1];
      ghost var u := w.(stack := w.stack[..|w.stack| - 1]);
      assert u.stack + [n] == w.stack;
      VisitReady(u, n, res.data, root, fs);
      rest, threw := Traverse(n, res, left, u, fs);
      v := Visit(u, n, res.data);
    }

    /** The loop of get_rules: visits until the stack is empty. */
    method TraverseRest(res: Results, left: nat, ghost w: Walk, ghost fs: Mask) returns (threw: bool)
      requires Valid() && CanLookUp(S(), res.data, fs)
      requires At(w, res) && w.left == left && !w.threw && AllReady(w.stack, root, fs)
      modifies this`toTraverse, res
      ensures At(Drive(w, res.data, root, fs), res) && threw == Drive(w, res.data, root, fs).threw
    {
      threw := false;
      var rest := left;
      ghost var v, end := w, Drive(w, res.data, root, fs);
      while !threw && toTraverse != []
        invariant At(v, res) && v.left == rest && v.threw == threw && AllReady(v.stack, root, fs)
        invariant end == if threw then v else Drive(v, res.data, root, fs)
        decreases !threw, SumWeight(v.stack)
      {
        rest, threw, v := TraverseLast(res, rest, v, fs);
      }
    }

    /** Records the lists that may hold matching rules.  Nodes `extra` that calls
        which threw left on the stack are visited again. */
    method GetRules(res: Results, left: nat, ghost extra: seq<Node>, ghost fs: Mask) returns (threw: bool)
      requires Valid() && res.Valid() && res.Active() == [] && CanLookUp(S(), res.data, fs)
      requires Names(root, toTraverse, extra)
      modifies this`toTraverse, res
      ensures Valid() && At(Lookup(root, extra, res.data, old(res.Spare()), left, fs), res)
      ensures threw <==> left < Needs(extra + [root], res.data, old(res.Spare()))
      ensures left >= 2 * SumWeight(extra + [root]) ==> !threw
      ensures !threw ==> toTraverse == [] && Found(S(), extra, res.Active(), res.data)
    {
      ghost var d := res.data;
      ghost var w := Walk(extra + [root], [], left, res.Spare(), false);
      LookStart(S(), lost, toTraverse, extra, d, fs, left, res.Spare());
      ghost var u := w.(stack := extra);
      assert w.stack[|w.stack| - 1] == root && w.stack[..|w.stack| - 1] == extra;
      VisitReady(u, root, d, root, fs);
      var rest;
      rest, threw := Traverse(root, res, left, u, fs);
      if !threw {
        threw := TraverseRest(res, rest, Visit(u, root, d), fs);
      }
    }

    /** A whole lookup, as clients make it: get_rules, then next() until it has
        no more.  The tree answers like a sorted scan of the rules in the index,
        with those below `extra` once more for each time they are there. */
    method Query(d: Data, left: nat, ghost extra: seq<Node>, ghost fs: Mask) returns (out: seq<Rule>, threw: bool)
      requires Valid() && CanLookUp(S(), d, fs) && Names(root, toTraverse, extra)
      modifies this`toTraverse
      ensures Valid() && Names(root, toTraverse, Lookup(root, extra, d, 0, left, fs).stack)
      ensures threw <==> left < Needs(extra + [root], d, 0)
      ensures left >= 2 * SumWeight(extra + [root]) ==> !threw
      ensures !threw ==> toTraverse == [] && Sorted(out)
      ensures !threw ==> forall x: Rule :: multiset(out)[x] == if Matching(x, d) then Due(S(), extra, x) else 0
      ensures !threw ==> (Answers(S(), lost, d, out) <==> forall x: Rule | Matching(x, d) :: SumCopies(extra, x) == 0)
    {
      var res := new Results(d);
      out := [];
      threw := GetRules(res, left, extra, fs);
      if threw {
        return;
      }
      ghost var s := S();
      var more := true;
      while more
        invariant res.Valid() && res.data == d && Drained(s, extra, out, res.Active(), d)
        invariant !more ==> forall x: Rule | Matching(x, d) :: Ahead(res.Active(), x) == 0
        decreases more, Length(res.Active())
        modifies res
      {
        ghost var cs := res.Active();
        var r := res.Next();
        DrainStep(s, extra, out, cs, r, res.Active(), d);
        if r.Some? {
          out := out + [r.value];
        } else {
          more := false;
        }
      }
      DrainEnd(s, lost, extra, out, res.Active(), d);
    }

    /** Deletes the next matching rule, if there is one. */
    method DeleteNext(res: Results, n: nat, ghost table: map<uint32, Rule>) returns (more: bool, m: nat)
      requires Valid() && res.Valid() && FoundBut(S(), lost, res.Active(), res.data)
      requires OnlyMatchesGone(table, rules, lost, res.data) && n == |table| - |rules|
      modifies this`root, this`rules, this`ptrs, this`next, this`lost, res
      ensures Valid() && res.Valid() && FoundBut(S(), lost, res.Active(), res.data) && lost == old(lost)
      ensures OnlyMatchesGone(table, rules, lost, res.data) && m == |table| - |rules|
      ensures if more then Length(res.Active()) < Length(old(res.Active()))
              else forall x: Rule | Matching(x, res.data) :: Ahead(res.Active(), x) == 0
    {
      var r := res.Next();
      TakeStep(S(), lost, old(res.Active()), r, res.Active(), res.data);
      more, m := r.Some?, n;
      if more {
        GoneStep(table, S(), lost, r.value, res.data);
        var found := DeleteRule(r.value.id);
        if found {
          m := n + 1;
        }
      }
    }

    /** Deletes the rules of the index that match, and no others, while iterating
        over the live lists; returns how many there were. */
    method DeleteRules(d: Data, left: nat, ghost extra: seq<Node>, ghost fs: Mask) returns (n: nat, threw: bool)
      requires Valid() && CanLookUp(S(), d, fs) && Names(root, toTraverse, extra)
      requires forall x: Rule | Matching(x, d) :: SumCopies(extra, x) == 0
      modifies this
      ensures Valid() && lost == old(lost)
      ensures threw <==> left < Needs(extra + [old(root)], d, 0)
      ensures left >= 2 * SumWeight(extra + [old(root)]) ==> !threw
      ensures threw ==> S() == old(S()) && n == 0 && Names(root, toTraverse, Lookup(root, extra, d, 0, left, fs).stack)
      ensures !threw ==> toTraverse == []
      ensures !threw ==> forall id :: id in rules <==> id in old(rules) && (id in lost || !Matches(old(rules)[id].expr, d))
      ensures forall id | id in rules :: id in old(rules) && rules[id] == old(rules)[id]
      ensures n == |old(rules)| - |rules|
    {
      var res := new Results(d);
      n := 0;
      threw := GetRules(res, left, extra, fs);
      if threw {
        return;
      }
      ghost var table, gone := rules, lost;
      FoundAll(S(), lost, extra, res.Active(), d);
      forall id | id in rules && id !in lost ensures Matchable(rules[id].expr, d) {
        assert Indexed(S(), lost, rules[id]);
      }
      var more := true;
      while more
        invariant Valid() && lost == gone && toTraverse == []
        invariant res.Valid() && res.data == d && FoundBut(S(), lost, res.Active(), d)
        invariant OnlyMatchesGone(table, rules, lost, d) && n == |table| - |rules|
        invariant !more ==> forall x: Rule | Matching(x, d) :: Ahead(res.Active(), x) == 0
        decreases more, Length(res.Active())
      {
        more, n := DeleteNext(res, n, table);
      }
      AllGone(table, S(), lost, res.Active(), d);
    }
  }

  ghost predicate OnlyMatchesGone(table: map<uint32, Rule>, rules: map<uint32, Rule>, lost: set<uint32>, d: Data) {
    && lost <= rules.Keys <= table.Keys
    && (forall id | id in rules :: rules[id] == table[id])
    && (forall id | id in table && id !in lost ::
          Matchable(table[id].expr, d) && (id in rules || Matches(table[id].expr, d)))
  }

  /** Deleting the rule just returned keeps the cursors right for the rest. */
  lemma TakeStep(s: State, lost: set<uint32>, cs: seq<Cursor>, r: Option<Rule>, cs': seq<Cursor>, d: Data)
    requires InvBut(s, lost) && FoundBut(s, lost, cs, d) && Taken(cs, cs', r, d)
    ensures r.None? ==> FoundBut(s, lost, cs', d) && forall x: Rule | Matching(x, d) :: Ahead(cs', x) == 0
    ensures r.Some? ==>
              && Indexed(s, lost, r.value) && !Dangling(s, r.value.id) && lost - {r.value.id} == lost
              && FoundBut(Delete(s, r.value.id).0, lost, cs', d)
  {
    LaterLive(s.root, cs, cs');
    if r.Some? {
      assert Indexed(s, lost, r.value);
      PointerFindsRule(s, lost, r.value.id);
      forall x: Rule | x.id == r.value.id ensures Ahead(cs', x) == 0 {
        assert Ahead(cs', x) <= Ahead(cs, x);
      }
      TakeLive(s, lost, r.value, cs');
      TakeCounts(s, lost, cs, r.value, cs', d);
    } else {
      forall x: Rule | Ahead(cs', x) > 0 ensures Indexed(s, lost, x) { assert Ahead(cs', x) <= Ahead(cs, x); }
    }
  }

  lemma TakeLive(s: State, lost: set<uint32>, r: Rule, cs: seq<Cursor>)
    requires InvBut(s, lost) && Indexed(s, lost, r) && AllLive(s.root, cs)
    requires forall x: Rule | x.id == r.id :: Ahead(cs, x) == 0
    ensures AllLive(Delete(s, r.id).0.root, cs)
  {
    PointerFindsRule(s, lost, r.id);
    forall i | 0 <= i < |cs| ensures forall x | x in cs[i].rest :: x.id != r.id {
      forall x | x in cs[i].rest ensures x.id != r.id { InRestAhead(cs, i, x); }
    }
    DeleteKeepsLive(s.root, cs, s.ptrs[r.id].value, r);
  }

  lemma TakeCounts(s: State, lost: set<uint32>, cs: seq<Cursor>, r: Rule, cs': seq<Cursor>, d: Data)
    requires Indexed(s, lost, r) && FoundBut(s, lost, cs, d) && Taken(cs, cs', Some(r), d)
    requires forall x: Rule | x.id == r.id :: Ahead(cs', x) == 0
    ensures var t := Delete(s, r.id).0;
            && (forall x: Rule | Ahead(cs', x) > 0 :: Indexed(t, lost, x))
            && (forall x: Rule | Matching(x, d) :: Ahead(cs', x) == if Indexed(t, lost, x) then 1 else 0)
  {
    var t := Delete(s, r.id).0;
    forall x: Rule
      ensures Ahead(cs', x) > 0 ==> Indexed(t, lost, x)
      ensures Matching(x, d) ==> Ahead(cs', x) == if Indexed(t, lost, x) then 1 else 0
    {
      assert Indexed(t, lost, x) <==> Indexed(s, lost, x) && x.id != r.id;
      assert Ahead(cs', x) <= Ahead(cs, x);
    }
  }

  lemma {:induction false} InRestAhead(cs: seq<Cursor>, i: nat, x: Rule)
    requires i < |cs| && x in cs[i].rest
    ensures Ahead(cs, x) > 0
  {
    if i > 0 { InRestAhead(cs[1..], i - 1, x); }
  }

  lemma GoneStep(table: map<uint32, Rule>, s: State, lost: set<uint32>, r: Rule, d: Data)
    requires Indexed(s, lost, r) && Matching(r, d) && OnlyMatchesGone(table, s.rules, lost, d)
    ensures OnlyMatchesGone(table, s.rules - {r.id}, lost, d) && |s.rules - {r.id}| == |s.rules| - 1
  {
  }

  lemma AllGone(table: map<uint32, Rule>, s: State, lost: set<uint32>, cs: seq<Cursor>, d: Data)
    requires InvBut(s, lost) && FoundBut(s, lost, cs, d) && OnlyMatchesGone(table, s.rules, lost, d)
    requires forall x: Rule | Matching(x, d) :: Ahead(cs, x) == 0
    ensures forall id | id in table :: id in s.rules <==> id in lost || !Matches(table[id].expr, d)
  {
    forall id | id in s.rules && id !in lost ensures !Matches(table[id].expr, d) {
      var x := s.rules[id];
      assert Indexed(s, lost, x);
      assert Matching(x, d) ==> Ahead(cs, x) == 1;
    }
  }

  /** How often a lookup has to come across a rule that matches. */
  ghost function Due(s: State, extra: seq<Node>, x: Rule): nat {
    Copies(s.root, None, x) + SumCopies(extra, x)
  }

  /** The rules are exactly the matching ones of the index, each once. */
  ghost predicate Answers(s: State, lost: set<uint32>, d: Data, out: seq<Rule>) {
    forall x: Rule :: multiset(out)[x] == if Indexed(s, lost, x) && Matching(x, d) then 1 else 0
  }

  /** The rules out so far: all that match and are not ahead, none with a larger
      priority number than one that is. */
  ghost predicate Drained(s: State, extra: seq<Node>, out: seq<Rule>, cs: seq<Cursor>, d: Data) {
    && Sorted(out)
    && (forall y | y in out :: Matching(y, d))
    && (forall x: Rule | Matching(x, d) :: multiset(out)[x] + Ahead(cs, x) == Due(s, extra, x))
    && (forall y, x: Rule | y in out && Matching(x, d) && Ahead(cs, x) > 0 :: y.priority <= x.priority)
  }

  lemma DrainStep(s: State, extra: seq<Node>, out: seq<Rule>, cs: seq<Cursor>, r: Option<Rule>, cs': seq<Cursor>,
                  d: Data)
    requires Drained(s, extra, out, cs, d) && Taken(cs, cs', r, d)
    ensures r.Some? ==> Drained(s, extra, out + [r.value], cs', d) && Length(cs') < Length(cs)
    ensures r.None? ==> Drained(s, extra, out, cs', d) && forall x: Rule | Matching(x, d) :: Ahead(cs', x) == 0
  {
  }

  lemma DrainEnd(s: State, lost: set<uint32>, extra: seq<Node>, out: seq<Rule>, cs: seq<Cursor>, d: Data)
    requires InvBut(s, lost) && Drained(s, extra, out, cs, d)
    requires forall x: Rule | Matching(x, d) :: Ahead(cs, x) == 0
    ensures forall x: Rule :: multiset(out)[x] == if Matching(x, d) then Due(s, extra, x) else 0
    ensures Answers(s, lost, d, out) <==> forall x: Rule | Matching(x, d) :: SumCopies(extra, x) == 0
  {
    forall x: Rule ensures multiset(out)[x] == if Matching(x, d) then Due(s, extra, x) else 0 {}
  }

  /** Whether looking up `d` fails no assertion: the data has every field the
      tree splits on, and every rule in the tree can be matched against it. */
  ghost predicate CanLookUp(s: State, d: Data, fs: Mask) {
    SplitsIn(s.root, fs) && CanAsk(d, fs) && forall x: Rule | Copies(s.root, None, x) > 0 :: Matchable(x.expr, d)
  }

  /** The cursors stand in live lists with everything due ahead. */
  ghost predicate Found(s: State, extra: seq<Node>, cs: seq<Cursor>, d: Data) {
    && AllLive(s.root, cs)
    && (forall x: Rule :: Ahead(cs, x) <= Due(s, extra, x))
    && (forall x: Rule | Matching(x, d) :: Ahead(cs, x) == Due(s, extra, x))
  }

  /** The cursors stand in live lists with every matching rule of the index ahead
      once, and only rules of the index. */
  ghost predicate FoundBut(s: State, lost: set<uint32>, cs: seq<Cursor>, d: Data) {
    && AllLive(s.root, cs)
    && (forall x: Rule | Ahead(cs, x) > 0 :: Indexed(s, lost, x))
    && (forall x: Rule | Matching(x, d) :: Ahead(cs, x) == if Indexed(s, lost, x) then 1 else 0)
  }

  lemma FoundAll(s: State, lost: set<uint32>, extra: seq<Node>, cs: seq<Cursor>, d: Data)
    requires InvBut(s, lost) && Found(s, extra, cs, d)
    requires forall x: Rule | Matching(x, d) :: SumCopies(extra, x) == 0
    ensures FoundBut(s, lost, cs, d)
  {
    forall x: Rule | Ahead(cs, x) > 0 ensures Indexed(s, lost, x) {
      var i := AheadWhere(cs, x);
      assert Live(s.root, cs[i]);
      ListAtCopies(s.root, cs[i].addr, x);
      EntriesAreCopies(s.root, cs[i].addr, x);
    }
  }

  /** The root and the nodes left on the stack are ready to be visited, and what a
      completed walk finds. */
  lemma LookStart(s: State, lost: set<uint32>, addrs: seq<Addr>, extra: seq<Node>, d: Data, fs: Mask, left: nat, spare: nat)
    requires InvBut(s, lost) && CanLookUp(s, d, fs) && Names(s.root, addrs, extra)
    ensures AllReady(extra + [s.root], s.root, fs)
    ensures var w := Lookup(s.root, extra, d, spare, left, fs);
            w == Drive(Walk(extra + [s.root], [], left, spare, false), d, s.root, fs)
    ensures var w := Lookup(s.root, extra, d, spare, left, fs);
            if w.threw then left < Needs(extra + [s.root], d, spare)
            else left >= Needs(extra + [s.root], d, spare) && w.stack == [] && Found(s, extra, w.cursors, d)
    ensures Needs(extra + [s.root], d, spare) <= 2 * SumWeight(extra + [s.root])
  {
    forall m | m in extra + [s.root] ensures Ready(m, s.root, fs) {
      if m in extra {
        var i :| 0 <= i < |extra| && extra[i] == m;
        FindNodeIs(s.root, addrs[i]);
      }
      WithinSplits(m, s.root, fs);
      WithinWF(m, s.root, {});
    }
    var w := Walk(extra + [s.root], [], left, spare, false);
    forall x: Rule ensures SumCopies(w.stack, x) == Due(s, extra, x) {
      SumConcat(extra, [s.root], x);
      assert SumCopies([s.root], x) == Copies(s.root, None, x);
    }
    DriveCovers(w, d, s.root, fs, extra);
    DriveThrowsIff(w, d, s.root, fs);
    NeedsBound(w.stack, d, spare);
  }

  lemma OwnRulesIndexed(s: State, lost: set<uint32>, n: Node)
    requires InvBut(s, lost) && Within(n, s.root)
    ensures forall x | x in n.rules :: Indexed(s, lost, x) && Copies(s.root, None, x) > 0
    ensures WellFormed(n) ==> Sorted(n.rules)
  {
    WithinUses(n, s.root);
    WithinList(n, s.root);
    forall x | x in n.rules ensures Indexed(s, lost, x) && Copies(s.root, None, x) > 0 {
      ListAtCopies(s.root, n.addr, x);
      EntriesAreCopies(s.root, n.addr, x);
    }
  }

  /** Pushing children keeps the stack one of nodes of the tree. */
  lemma PushedNamed(n: Node, s: State, fs: Mask, d: Data, addrs: seq<Addr>, ns: seq<Node>, k: nat)
    requires AddrsOK(s.root, Heap(s.next, 0)) && Ready(n, s.root, fs) && CanAsk(d, fs) && Names(s.root, addrs, ns)
    requires k <= |Pushes(n, d)|
    ensures Names(s.root, addrs + Addrs(Pushes(n, d)[..k]), ns + Pushes(n, d)[..k])
  {
    forall m | m in Pushes(n, d)[..k] ensures Within(m, s.root) && Uses(s.root, m.addr) == 1 {
      PushedReady(n, s.root, fs, d, m);
      WithinUses(m, s.root);
    }
    NamesPushed(s.root, addrs, ns, Pushes(n, d)[..k]);
  }

  // ----- A lookup after one that threw

  const WIDE_RULE: Rule := SAMPLE_RULE.(id := 2, expr := SAMPLE_RULE.expr.(wildcards := {AP_SRC}))
  const NARROW_NODE: Node := Node(1, 0, [SAMPLE_RULE], Leaf)
  const WIDE_NODE: Node := Node(2, 0, [WIDE_RULE], Leaf)

  /** Two rules in a tree split on AP_SRC, one of them below the any-branch. */
  const TWO_RULES: State :=
    State(Node(0, 0, [], Branch(AP_SRC, [Link(NARROW_NODE, Nil)], Link(WIDE_NODE, Nil))),
          map[1 := SAMPLE_RULE, 2 := WIDE_RULE], map[1 := Some(1), 2 := Some(2)], 3)

  lemma TwoRulesInv()
    ensures TWO_RULES == Add(Add(Forced(AP_SRC, 1), SAMPLE_RULE, 4).0, WIDE_RULE, 4).0
    ensures Inv(TWO_RULES)
  {
    var s := Forced(AP_SRC, 1);
    assert AP_DST in BITS - {} - SAMPLE_RULE.expr.wildcards && AP_DST in BITS - {} - WIDE_RULE.expr.wildcards;
    assert s.root.split.buckets == [Nil];
    var t := Add(s, SAMPLE_RULE, 4).0;
    var bs := [Nil][0 := Link(NARROW_NODE, Nil)];
    assert bs == [Link(NARROW_NODE, Nil)];
    var path: Mask := {};
    assert path + {AP_SRC} == {AP_SRC} && GetField(SAMPLE_RULE.expr, AP_SRC) == Some(0) && GetBucket(0, 1) == 0;
    assert AddToChain(Nil, 0, SAMPLE_RULE, {AP_SRC}, Heap(1, 2)) == Added(Link(NARROW_NODE, Nil), Heap(2, 0), Some(1));
    assert t == State(Node(0, 0, [], Branch(AP_SRC, bs, Nil)), map[1 := SAMPLE_RULE], map[1 := Some(1)], 2);
    assert AddToChain(Nil, 0, WIDE_RULE, {AP_SRC}, Heap(2, 2)) == Added(Link(WIDE_NODE, Nil), Heap(3, 0), Some(2));
    assert TWO_RULES == Add(t, WIDE_RULE, 4).0;
    InitialInv(AP_SRC, 1);
    AddKeepsInv(s, {}, SAMPLE_RULE, 4);
    AddKeepsInv(t, {}, WIDE_RULE, 4);
  }

  lemma TwoRulesVisit()
    ensures var root, d := TWO_RULES.root, OfExpr(WIDE_RULE.expr);
            && SplitsIn(root, FIELDS) && Matching(WIDE_RULE, d)
            && Visit(Walk([], [], 2, 0, false), root, d) == Walk([WIDE_NODE, NARROW_NODE], [], 0, 0, false)
  {
    var root, d := TWO_RULES.root, OfExpr(WIDE_RULE.expr);
    var bs := root.split.buckets;
    assert bs[0] == Link(NARROW_NODE, Nil) && bs[1..] == [];
    assert SplitsIn(NARROW_NODE, FIELDS) && SplitsIn(WIDE_NODE, FIELDS) && ChainSplitsIn(Nil, FIELDS);
    assert ChainSplitsIn(bs[0], FIELDS) && ChainSplitsIn(root.split.any, FIELDS) && TableSplitsIn(bs[1..], FIELDS);
    assert ChainNodes(Nil) == [] && ChainNodes(bs[0]) == [NARROW_NODE] + [] && TableNodes(bs[1..]) == [];
    assert TableNodes(bs) == [NARROW_NODE] && ChainNodes(root.split.any) == [WIDE_NODE];
    assert DataField(d, AP_SRC) == None;
    assert Pushes(root, d) == [WIDE_NODE, NARROW_NODE];
    assert Pushes(root, d)[..2] == [WIDE_NODE, NARROW_NODE];
  }

  /** A lookup that throws on its third push leaves the any-child on the stack, and
      the next one comes across its rule twice. */
  lemma FailedLookupDoubles()
    ensures var s, d := TWO_RULES, OfExpr(WIDE_RULE.expr);
            && CanLookUp(s, d, FIELDS) && Matching(WIDE_RULE, d)
            && Lookup(s.root, [], d, 0, 2, FIELDS).threw
            && Lookup(s.root, [], d, 0, 2, FIELDS).stack == [WIDE_NODE]
            && Due(s, [WIDE_NODE], WIDE_RULE) == 2
  {
    var s, d := TWO_RULES, OfExpr(WIDE_RULE.expr);
    TwoRulesInv();
    TwoRulesVisit();
    assert Indexed(s, {}, WIDE_RULE) && SumCopies([WIDE_NODE], WIDE_RULE) == 1;
    LookStart(s, {}, [], [], d, FIELDS, 2, 0);
    var w := Walk([] + [s.root], [], 2, 0, false);
    assert w.stack == [s.root] && w.stack[..0] == [];
    var v := Walk([WIDE_NODE, NARROW_NODE], [], 0, 0, false);
    assert Visit(w.(stack := []), s.root, d) == v && v.stack[..1] == [WIDE_NODE];
    assert Visit(v.(stack := [WIDE_NODE]), NARROW_NODE, d) == v.(stack := [WIDE_NODE], threw := true);
  }
}
