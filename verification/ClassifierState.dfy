/** The classifier as a state: the tree, the map from ids to rules, the rules'
    back pointers, and the next fresh address (src/include/classifier.hh).
    Operations that allocate take `left`, the number of allocations that
    succeed before one throws. */
module ClassifierState {
  import opened Basics
  import opened PacketExpr
  import opened RuleList
  import opened CnodeTree
  import opened CnodeBuild
  import opened CnodeEdit
  import opened CnodeClean
  import opened CnodeCost
  import opened CnodeShape

  datatype State = State(root: Node, rules: map<uint32, Rule>, ptrs: Ptrs, next: Addr)

  /** The rule is the one the id map stores under its id. */
  ghost predicate Stored(s: State, x: Rule) {
    x.id in s.rules && s.rules[x.id] == x
  }

  /** A stored rule that is not one of those lost from the index. */
  ghost predicate Indexed(s: State, lost: set<uint32>, x: Rule) {
    Stored(s, x) && x.id !in lost
  }

  /** The tree is an index of exactly the stored rules that are not lost, each
      once, and their back pointers name the nodes that hold them. */
  ghost predicate InvBut(s: State, lost: set<uint32>) {
    && (forall id | id in s.rules :: s.rules[id].id == id)
    && lost <= s.rules.Keys
    && NodeWF(s.root, {})
    && AddrsOK(s.root, Heap(s.next, 0))
    && (forall x: Rule :: Copies(s.root, None, x) == if Indexed(s, lost, x) then 1 else 0)
    && AllPoint(Entries(s.root), s.ptrs)
    && Below(s.ptrs, Heap(s.next, 0))
  }

  /** The tree is an index of exactly the stored rules. */
  ghost predicate Inv(s: State) {
    InvBut(s, {})
  }

  /** A state that has lost a rule is not exact. */
  lemma LostIsInexact(s: State, lost: set<uint32>)
    requires InvBut(s, lost)
    ensures Inv(s) <==> lost == {}
  {
    if id :| id in lost {
      assert Stored(s, s.rules[id]) && !Indexed(s, lost, s.rules[id]);
      assert Indexed(s, {}, s.rules[id]);
    }
  }

  const SAMPLE_RULE: Rule := Rule(1, 5, Expr(0, 0, 0, 0, 0, ZERO_MAC, ZERO_MAC, 0, 0, 0, 0, 0, 0, {}, 0), 0)
  const ZERO_MAC: Mac := Mac(0, 0, 0, 0, 0, 0)

  const EMPTY: State := State(Node(0, 0, [], Leaf), map[], map[], 1)

  /** A tree whose first split is forced on `f`, with `n` buckets. */
  function Forced(f: Bit, n: nat): State {
    State(Node(0, 0, [], Branch(f, seq(n, _ => Nil), Nil)), map[], map[], 1)
  }

  lemma InitialInv(f: Bit, n: nat)
    requires PowerOfTwo(n)
    ensures Inv(EMPTY) && Inv(Forced(f, n))
  {
    var t := Forced(f, n).root;
    forall x: Rule ensures Copies(t, None, x) == 0 { NilsCopies(t.split.buckets, None, x); }
    forall a: Addr ensures Uses(t, a) == if a == 0 then 1 else 0 { NoneUses(t.split.buckets, a); }
    forall e ensures e !in Entries(t) {
      if e in Entries(t) { EntriesAreCopies(t, e.0, e.1); }
    }
  }

  lemma InvDistinct(s: State, lost: set<uint32>)
    requires InvBut(s, lost)
    ensures Distinct(s.root) && NoIdTwice(Entries(s.root))
  {
    DistinctEntries(s.root);
  }

  // ----- add_rule

  /** The id comes from get_id, so it is not in use. */
  function Add(s: State, r: Rule, left: nat): (State, bool) {
    if left < 2 then (s, false)
    else
      var a := AddRule(s.root, r, {}, Heap(s.next, left - 2));
      if a.placed.None? then (s.(root := a.at, next := a.heap.next), false)
      else (State(a.at, s.rules[r.id := r], s.ptrs[r.id := a.placed], a.heap.next), true)
  }

  /** Adding stores the rule or, if memory runs out, leaves the stored rules as
      they were. */
  lemma AddKeepsInv(s: State, lost: set<uint32>, r: Rule, left: nat)
    requires InvBut(s, lost) && r.id !in s.rules
    ensures var (t, ok) := Add(s, r, left);
            InvBut(t, lost) && t.rules == if ok then s.rules[r.id := r] else s.rules
  {
    if left >= 2 {
      var t := Add(s, r, left).0;
      AddRuleWF(s.root, r, {}, Heap(s.next, left - 2));
      AddedCopies(s, lost, r, left);
      forall b: Addr | Uses(t.root, b) > 0 ensures b < t.next && Uses(t.root, b) == 1 {
        AddRuleUses(s.root, r, {}, Heap(s.next, left - 2), b);
      }
      forall e | e in Entries(t.root) ensures PointsTo(t.ptrs, e.1.id, e.0) {
        AddedPoints(s, lost, r, left, e);
      }
      AddedBelow(s, lost, r, left);
    }
  }

  /** What adding allocates: the rule, its map entry and its list entry, and a
      node where the tree has none for it. */
  function AddNeeds(s: State, e: Expr): nat { if NeedsChild(s.root, e, {}) then 4 else 3 }

  lemma AddIff(s: State, r: Rule, left: nat)
    ensures Add(s, r, left).1 <==> left >= AddNeeds(s, r.expr)
  {
    if left >= 2 { AddRuleIff(s.root, r, {}, Heap(s.next, left - 2)); }
  }

  lemma AddedCopies(s: State, lost: set<uint32>, r: Rule, left: nat)
    requires InvBut(s, lost) && r.id !in s.rules && left >= 2
    ensures var t := Add(s, r, left).0;
            forall x: Rule :: Copies(t.root, None, x) == if Indexed(t, lost, x) then 1 else 0
  {
    var t := Add(s, r, left).0;
    forall x: Rule ensures Copies(t.root, None, x) == if Indexed(t, lost, x) then 1 else 0 {
      AddRuleCopies(s.root, r, {}, Heap(s.next, left - 2), None, x);
    }
  }

  lemma AddedPoints(s: State, lost: set<uint32>, r: Rule, left: nat, e: (Addr, Rule))
    requires InvBut(s, lost) && r.id !in s.rules && left >= 2 && e in Entries(Add(s, r, left).0.root)
    ensures PointsTo(Add(s, r, left).0.ptrs, e.1.id, e.0)
  {
    var h := Heap(s.next, left - 2);
    var a := AddRule(s.root, r, {}, h);
    EntriesAreCopies(a.at, e.0, e.1);
    AddRuleCopies(s.root, r, {}, h, Some(e.0), e.1);
    if Copies(s.root, Some(e.0), e.1) > 0 {
      EntriesAreCopies(s.root, e.0, e.1);
      assert Indexed(s, lost, e.1);
    }
  }

  lemma AddedBelow(s: State, lost: set<uint32>, r: Rule, left: nat)
    requires InvBut(s, lost) && r.id !in s.rules && left >= 2
    ensures var t := Add(s, r, left).0; Below(t.ptrs, Heap(t.next, 0))
  {
    var h := Heap(s.next, left - 2);
    var a := AddRule(s.root, r, {}, h);
    AddRuleUses(s.root, r, {}, h, 0);
    if a.placed.Some? {
      AddRuleCopies(s.root, r, {}, h, a.placed, r);
      EntriesAreCopies(a.at, a.placed.value, r);
      AddRuleUses(s.root, r, {}, h, a.placed.value);
    }
  }

  // ----- delete_rule and change_rule_priority

  function Delete(s: State, id: uint32): (State, bool) {
    if id !in s.rules then (s, false)
    else
      var root := if id in s.ptrs && s.ptrs[id].Some? then EditAt(s.root, s.ptrs[id].value, id, None) else s.root;
      (State(root, s.rules - {id}, s.ptrs - {id}, s.next), true)
  }

  /** The list of the node at address `a` has an entry with this id. */
  predicate Listed(n: Node, a: Addr, id: uint32) {
    exists e | e in Entries(n) :: e.0 == a && e.1.id == id
  }

  datatype Change = Absent | Changed | Threw

  /** The entry is erased, then the rule is inserted again at its new place; if
      the insertion throws, the rule stays in the id map and in no list. */
  function ChangePriority(s: State, id: uint32, priority: uint32, left: nat): (State, Change) {
    if id !in s.rules || id !in s.ptrs || s.ptrs[id].None? || !Listed(s.root, s.ptrs[id].value, id) then (s, Absent)
    else
      var r, a := s.rules[id].(priority := priority), s.ptrs[id].value;
      if left == 0 then (State(EditAt(s.root, a, id, None), s.rules[id := r], s.ptrs, s.next), Threw)
      else (State(EditAt(s.root, a, id, Some(r)), s.rules[id := r], s.ptrs, s.next), Changed)
  }

  /** The back pointer of a stored rule leads to the one node whose list holds
      it, and no other rule of that list has its id. */
  lemma PointerFindsRule(s: State, lost: set<uint32>, id: uint32)
    requires InvBut(s, lost) && id in s.rules && id !in lost
    ensures id in s.ptrs && s.ptrs[id].Some?
    ensures var a := s.ptrs[id].value;
            && Uses(s.root, a) == 1 && Copies(s.root, Some(a), s.rules[id]) > 0
            && s.rules[id] in ListAt(s.root, a)
            && forall y | y in ListAt(s.root, a) && y.id == id :: y == s.rules[id]
  {
    var r := s.rules[id];
    assert Indexed(s, lost, r);
    var a := Locate(s.root, r);
    EntriesAreCopies(s.root, a, r);
    ListAtCopies(s.root, a, r);
    forall y | y in ListAt(s.root, a) && y.id == id ensures y == r {
      ListAtCopies(s.root, a, y);
      EntriesAreCopies(s.root, a, y);
      assert Indexed(s, lost, y);
    }
  }

  /** What editing the list that holds rule `id` does to the whole tree. */
  lemma EditStored(s: State, lost: set<uint32>, id: uint32, repl: Option<Rule>, at: Option<Addr>, x: Rule)
    requires InvBut(s, lost) && id in s.rules && id !in lost
    ensures id in s.ptrs && s.ptrs[id].Some?
    ensures var r, a := s.rules[id], s.ptrs[id].value;
            Copies(EditAt(s.root, a, id, repl), at, x) ==
              if at.None? || at.value == a then
                Copies(s.root, at, x) as int - (if x == r then 1 else 0) + (if repl == Some(x) then 1 else 0)
              else Copies(s.root, at, x)
  {
    PointerFindsRule(s, lost, id);
    var r, a := s.rules[id], s.ptrs[id].value;
    EditCopies(s.root, a, id, repl, at, x);
    EditListBag(ListAt(s.root, a), r, repl, x);
  }

  lemma EditListBag(l: seq<Rule>, r: Rule, repl: Option<Rule>, x: Rule)
    requires r in l && forall y | y in l && y.id == r.id :: y == r
    ensures multiset(EditList(l, r.id, repl))[x]
            == multiset(l)[x] as int - (if x == r then 1 else 0) + (if repl == Some(x) then 1 else 0)
  {
    WithoutBag(l, r);
    if repl.Some? {
      InsertBag(Without(l, r.id), repl.value);
    }
  }

  /** The tree after replacing stored rule `id` by `repl`, or removing it. */
  ghost function EditTree(s: State, id: uint32, repl: Option<Rule>): Node
    requires id in s.ptrs && s.ptrs[id].Some?
  {
    EditAt(s.root, s.ptrs[id].value, id, repl)
  }

  lemma EditTreeSound(s: State, lost: set<uint32>, id: uint32, repl: Option<Rule>)
    requires InvBut(s, lost) && id in s.rules && id !in lost
    requires repl.Some? ==> repl.value.id == id && repl.value.expr == s.rules[id].expr
    ensures id in s.ptrs && s.ptrs[id].Some?
    ensures var root := EditTree(s, id, repl);
            && NodeWF(root, {}) && AddrsOK(root, Heap(s.next, 0))
            && forall e | e in Entries(root) :: PointsTo(s.ptrs, e.1.id, e.0) && (repl.None? ==> e.1.id != id)
  {
    PointerFindsRule(s, lost, id);
    var r, a := s.rules[id], s.ptrs[id].value;
    var root := EditTree(s, id, repl);
    EditWF(s.root, {}, a, r, repl);
    forall b: Addr | Uses(root, b) > 0 ensures b < s.next && Uses(root, b) == 1 { EditUses(s.root, a, id, repl, b); }
    forall e | e in Entries(root) ensures PointsTo(s.ptrs, e.1.id, e.0) && (repl.None? ==> e.1.id != id) {
      EntriesAreCopies(root, e.0, e.1);
      EntriesAreCopies(s.root, e.0, e.1);
      EditStored(s, lost, id, repl, Some(e.0), e.1);
      EditStored(s, lost, id, repl, None, e.1);
      if Copies(s.root, Some(e.0), e.1) > 0 {
        assert (e.0, e.1) in Entries(s.root);
        assert Indexed(s, lost, e.1);
      }
    }
  }

  /** No list has an entry for a lost rule. */
  lemma LostIsUnlisted(s: State, lost: set<uint32>, id: uint32)
    requires InvBut(s, lost) && id in lost
    ensures forall e | e in Entries(s.root) :: e.1.id != id
    ensures forall a: Addr :: !Listed(s.root, a, id) && EditAt(s.root, a, id, None) == s.root
  {
    forall e | e in Entries(s.root) ensures e.1.id != id {
      EntriesAreCopies(s.root, e.0, e.1);
      assert Indexed(s, lost, e.1);
    }
    forall a: Addr { EditNone(s.root, a, id); }
  }

  /** delete_rule removes the rule with this id, and only it. */
  lemma DeleteKeepsInv(s: State, lost: set<uint32>, id: uint32)
    requires InvBut(s, lost)
    ensures var (t, found) := Delete(s, id);
            InvBut(t, lost - {id}) && t.rules == s.rules - {id} && found == (id in s.rules)
  {
    var t := Delete(s, id).0;
    if id in lost {
      LostIsUnlisted(s, lost, id);
      forall x: Rule ensures Copies(t.root, None, x) == if Indexed(t, lost - {id}, x) then 1 else 0 {
        assert Indexed(t, lost - {id}, x) == Indexed(s, lost, x);
      }
    } else if id in s.rules {
      EditTreeSound(s, lost, id, None);
      forall x: Rule ensures Copies(t.root, None, x) == if Indexed(t, lost - {id}, x) then 1 else 0 {
        EditStored(s, lost, id, None, None, x);
      }
    } else {
      assert s.rules - {id} == s.rules && lost - {id} == lost;
    }
  }

  /** The rules lost when priority changes with `left` allocations to come. */
  ghost function LostNow(s: State, lost: set<uint32>, id: uint32, left: nat): set<uint32> {
    if id in s.rules && left == 0 then lost + {id} else lost
  }

  /** Storing a rule under a new priority and relisting it, or only unlisting it. */
  lemma RelistedKeepsInv(s: State, lost: set<uint32>, id: uint32, priority: uint32, left: nat)
    requires InvBut(s, lost) && id in s.rules && id !in lost
    ensures id in s.ptrs && s.ptrs[id].Some?
    ensures var r := s.rules[id].(priority := priority);
            var root := EditTree(s, id, if left == 0 then None else Some(r));
            InvBut(State(root, s.rules[id := r], s.ptrs, s.next), LostNow(s, lost, id, left))
  {
    var r := s.rules[id].(priority := priority);
    var repl := if left == 0 then None else Some(r);
    EditTreeSound(s, lost, id, repl);
    var t := State(EditTree(s, id, repl), s.rules[id := r], s.ptrs, s.next);
    forall x: Rule ensures Copies(t.root, None, x) == if Indexed(t, LostNow(s, lost, id, left), x) then 1 else 0 {
      EditStored(s, lost, id, repl, None, x);
    }
  }

  /** The rules other than those lost stay indexed; the one whose insertion threw
      is lost. */
  lemma ChangePriorityKeepsInv(s: State, lost: set<uint32>, id: uint32, priority: uint32, left: nat)
    requires InvBut(s, lost)
    ensures var (t, c) := ChangePriority(s, id, priority, left);
            && InvBut(t, LostNow(s, lost, id, left))
            && (c.Absent? <==> id !in s.rules || id in lost) && (c.Threw? ==> left == 0)
            && t.rules == if c.Absent? then s.rules else s.rules[id := s.rules[id].(priority := priority)]
  {
    if id in lost {
      LostIsUnlisted(s, lost, id);
      assert lost + {id} == lost;
    } else if id in s.rules {
      PointerFindsRule(s, lost, id);
      EntriesAreCopies(s.root, s.ptrs[id].value, s.rules[id]);
      assert (s.ptrs[id].value, s.rules[id]) in Entries(s.root);
      RelistedKeepsInv(s, lost, id, priority, left);
    }
  }

  /** From an exact state, changing a priority ends in an exact state if and only
      if there is no such rule or its list entry can be allocated. */
  lemma ChangePriorityExactIff(s: State, id: uint32, priority: uint32, left: nat)
    requires Inv(s)
    ensures Inv(ChangePriority(s, id, priority, left).0) <==> id !in s.rules || left > 0
  {
    ChangePriorityKeepsInv(s, {}, id, priority, left);
    LostIsInexact(ChangePriority(s, id, priority, left).0, LostNow(s, {}, id, left));
  }

  /** The back pointer of this stored rule names a node that has been freed. */
  ghost predicate Dangling(s: State, id: uint32) {
    id in s.rules && id in s.ptrs && s.ptrs[id].Some? && Uses(s.root, s.ptrs[id].value) == 0
  }

  /** Only lost rules can have dangling pointers. */
  lemma OnlyLostDangle(s: State, lost: set<uint32>, id: uint32)
    requires InvBut(s, lost) && Dangling(s, id)
    ensures id in lost
  {
    if id !in lost { PointerFindsRule(s, lost, id); }
  }

  // ----- build, unbuild, clean

  /** After a new root is in place the old one is freed. */
  function Replace(s: State, d: Built<Node>): State {
    var p := if d.at.addr != s.root.addr then Destroy(d.ptrs, s.root) else d.ptrs;
    State(d.at, s.rules, if d.ok then p else d.ptrs, d.heap.next)
  }

  function BuildAll(s: State, left: nat): (State, bool) {
    var d := Build(s.root, {}, false, Heap(s.next, left), s.ptrs);
    (Replace(s, d), d.ok)
  }

  function UnbuildAll(s: State, left: nat): (State, bool) {
    var d := Unbuild(s.root, Heap(s.next, left), s.ptrs);
    (Replace(s, d), d.ok)
  }

  function CleanAll(s: State): State {
    s.(root := Clean(s.root))
  }

  /** The tree holds as many rules as are stored and not lost. */
  lemma SizeIs(s: State, lost: set<uint32>)
    requires InvBut(s, lost)
    ensures Size(s.root) == |s.rules| - |lost|
  {
    var es := Entries(s.root);
    InvDistinct(s, lost);
    SizeIsEntries(s.root);
    IdsCount(es);
    forall id: uint32 ensures id in Ids(es) <==> id in s.rules && id !in lost {
      if id in s.rules && id !in lost {
        PointerFindsRule(s, lost, id);
        EntriesAreCopies(s.root, s.ptrs[id].value, s.rules[id]);
        assert (s.ptrs[id].value, s.rules[id]) in es;
      }
      if e :| e in es && e.1.id == id {
        EntriesAreCopies(s.root, e.0, e.1);
        assert Indexed(s, lost, e.1);
      }
    }
    assert Ids(es) == s.rules.Keys - lost;
  }

  /** Five allocations for each rule, on each level there can be, are enough for
      building. */
  lemma BuildSucceeds(s: State, lost: set<uint32>, left: nat)
    requires InvBut(s, lost) && left >= 5 * |s.rules| * (NUM_FIELDS + 1)
    ensures BuildAll(s, left).1
  {
    var fields := FieldsLeft({});
    AllFieldsLeft();
    SizeIs(s, lost);
    EnoughIs(|s.rules|, fields);
    EnoughMore(Size(s.root), |s.rules|, fields, fields);
    BuildGoesThrough(s.root, {}, false, Heap(s.next, left), s.ptrs);
  }

  /** Unbuilding takes one allocation for each rule of the index, and one more. */
  lemma UnbuildSucceedsIff(s: State, lost: set<uint32>, left: nat)
    requires InvBut(s, lost)
    ensures UnbuildAll(s, left).1 <==> s.root.split.Leaf? || left >= 1 + |s.rules| - |lost|
  {
    SizeIs(s, lost);
    UnbuildIff(s.root, Heap(s.next, left), s.ptrs);
  }

  /** Building keeps every stored rule in place of the index, whether it
      completes or runs out of memory at any point. */
  lemma BuildKeepsInv(s: State, lost: set<uint32>, left: nat)
    requires InvBut(s, lost)
    ensures var (t, ok) := BuildAll(s, left); InvBut(t, lost) && t.rules == s.rules
  {
    var h := Heap(s.next, left);
    var d := Build(s.root, {}, false, h, s.ptrs);
    var t := BuildAll(s, left).0;
    InvDistinct(s, lost);
    assert Below(s.ptrs, h);
    BuildPtrs(s.root, {}, h, s.ptrs);
    ReplacedIsUnreferenced(s.root, {}, h, s.ptrs);
    assert t.ptrs == d.ptrs;
    BuildWF(s.root, {}, false, h, s.ptrs);
    forall x: Rule ensures Copies(t.root, None, x) == if Indexed(t, lost, x) then 1 else 0 {
      BuildCopies(s.root, {}, false, h, s.ptrs, x);
    }
    forall b: Addr | Uses(t.root, b) > 0 ensures b < t.next && Uses(t.root, b) == 1 {
      BuildUses(s.root, {}, false, h, s.ptrs, b);
    }
  }

  lemma CleanKeepsInv(s: State, lost: set<uint32>)
    requires InvBut(s, lost)
    ensures InvBut(CleanAll(s), lost) && NoBareBelow(CleanAll(s).root)
  {
    var t := CleanAll(s);
    CleanWF(s.root, {});
    CleanLeavesNoneBare(s.root);
    forall x: Rule ensures Copies(t.root, None, x) == if Indexed(t, lost, x) then 1 else 0 { CleanCopies(s.root, None, x); }
    forall b: Addr | Uses(t.root, b) > 0 ensures b < t.next && Uses(t.root, b) == 1 { CleanUses(s.root, b); }
    forall e | e in Entries(t.root) ensures PointsTo(t.ptrs, e.1.id, e.0) {
      EntriesAreCopies(t.root, e.0, e.1);
      CleanCopies(s.root, Some(e.0), e.1);
      EntriesAreCopies(s.root, e.0, e.1);
    }
  }

  /** Unbuilding gives one sorted list of all stored rules, or changes nothing
      if memory runs out. */
  lemma UnbuildKeepsInv(s: State, lost: set<uint32>, left: nat)
    requires InvBut(s, lost)
    ensures var (t, ok) := UnbuildAll(s, left);
            && InvBut(t, lost) && t.rules == s.rules
            && (if ok then t.root.split.Leaf? else t.root == s.root && t.ptrs == s.ptrs)
  {
    var h := Heap(s.next, left);
    var (t, ok) := UnbuildAll(s, left);
    if s.root.split.Branch? && left > 0 {
      GatherCopies([], s.root, Heap(s.next + 1, left - 1), SAMPLE_RULE);
      if ok {
        UnbuiltIsSound(s, lost, left);
      }
    }
  }

  lemma UnbuiltSameRules(s: State, lost: set<uint32>, left: nat)
    requires InvBut(s, lost) && s.root.split.Branch? && left > 0 && UnbuildAll(s, left).1
    ensures var t := UnbuildAll(s, left).0;
            && (forall x: Rule :: Copies(t.root, None, x) == Copies(s.root, None, x))
            && NoIdTwice(Entries(t.root)) && Ids(Entries(t.root)) == Ids(Entries(s.root))
  {
    var t := UnbuildAll(s, left).0;
    forall x: Rule ensures CountRule(Entries(t.root), x) == CountRule(Entries(s.root), x)
                           && Copies(t.root, None, x) == Copies(s.root, None, x)
    {
      GatherCopies([], s.root, Heap(s.next + 1, left - 1), x);
      EntriesCount(t.root, x);
      EntriesCount(s.root, x);
    }
    InvDistinct(s, lost);
    SameRulesSameIds(Entries(s.root), Entries(t.root));
  }

  lemma UnbuiltPtrs(s: State, lost: set<uint32>, left: nat)
    requires InvBut(s, lost) && s.root.split.Branch? && left > 0 && UnbuildAll(s, left).1
    ensures var t := UnbuildAll(s, left).0;
            AllPoint(Entries(t.root), t.ptrs) && Frame(s.ptrs, t.ptrs, Ids(Entries(t.root)))
  {
    var d := Unbuild(s.root, Heap(s.next, left), s.ptrs);
    UnbuiltSameRules(s, lost, left);
    SetNodePointersOK(s.ptrs, d.at);
    forall e | e in Entries(s.root) ensures !PointsTo(d.ptrs, e.1.id, e.0) {
      assert e.1.id in Ids(Entries(d.at));
      var e' :| e' in Entries(d.at) && e'.1.id == e.1.id;
      assert PointsTo(d.ptrs, e'.1.id, e'.0) && PointsTo(s.ptrs, e.1.id, e.0);
    }
    TouchNone(d.ptrs, Entries(s.root));
  }

  lemma UnbuiltShape(s: State, lost: set<uint32>, left: nat)
    requires InvBut(s, lost) && s.root.split.Branch? && left > 0 && UnbuildAll(s, left).1
    ensures var t := UnbuildAll(s, left).0;
            && t.root.split.Leaf? && t.root.addr == s.next && Sorted(t.root.rules)
            && t.next == s.next + 1 && t.rules == s.rules
  {
    GatherSorted([], s.root, Heap(s.next + 1, left - 1), {});
    GatherCopies([], s.root, Heap(s.next + 1, left - 1), SAMPLE_RULE);
  }

  lemma LeafIsSound(s: State, lost: set<uint32>, t: State)
    requires InvBut(s, lost) && t.rules == s.rules && s.next < t.next
    requires t.root.split.Leaf? && t.root.addr < t.next && Sorted(t.root.rules)
    requires forall x: Rule :: Copies(t.root, None, x) == Copies(s.root, None, x)
    requires AllPoint(Entries(t.root), t.ptrs) && Frame(s.ptrs, t.ptrs, Ids(Entries(t.root)))
    ensures InvBut(t, lost)
  {
    forall id | id in t.ptrs && t.ptrs[id].Some? ensures t.ptrs[id].value < t.next {
      if id in Ids(Entries(t.root)) {
        var e :| e in Entries(t.root) && e.1.id == id;
        assert PointsTo(t.ptrs, id, e.0);
      } else {
        assert SameAt(s.ptrs, t.ptrs, id);
      }
    }
  }

  lemma UnbuiltIsSound(s: State, lost: set<uint32>, left: nat)
    requires InvBut(s, lost) && s.root.split.Branch? && left > 0 && UnbuildAll(s, left).1
    ensures InvBut(UnbuildAll(s, left).0, lost)
  {
    UnbuiltShape(s, lost, left);
    UnbuiltSameRules(s, lost, left);
    UnbuiltPtrs(s, lost, left);
    LeafIsSound(s, lost, UnbuildAll(s, left).0);
  }

  /** Once a split tree has been unbuilt, the pointer of every lost rule
      dangles. */
  lemma UnbuildDangles(s: State, lost: set<uint32>, left: nat, id: uint32)
    requires InvBut(s, lost) && id in lost && id in s.ptrs && s.ptrs[id].Some?
    requires s.root.split.Branch? && left > 0 && UnbuildAll(s, left).1
    ensures Dangling(UnbuildAll(s, left).0, id)
  {
    var t := UnbuildAll(s, left).0;
    UnbuiltShape(s, lost, left);
    UnbuiltSameRules(s, lost, left);
    UnbuiltPtrs(s, lost, left);
    LostIsUnlisted(s, lost, id);
    assert SameAt(s.ptrs, t.ptrs, id);
  }

  /** A rule is added to an empty classifier, and a change of its priority throws:
      the rule is still stored, and the tree is empty. */
  lemma LostRule()
    ensures var s := Add(EMPTY, SAMPLE_RULE, 3).0;
            var t := ChangePriority(s, 1, 7, 0).0;
            Inv(s) && 1 in t.rules && t.root.rules == [] && t.root.split.Leaf? && !Inv(t)
  {
    InitialInv(0, 1);
    AddKeepsInv(EMPTY, {}, SAMPLE_RULE, 3);
    var s := Add(EMPTY, SAMPLE_RULE, 3).0;
    ChangePriorityExactIff(s, 1, 7, 0);
  }
}
