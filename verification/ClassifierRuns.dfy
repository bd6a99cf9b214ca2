/** Every state a classifier can get into, by any sequence of operations with
    any allocation failing; and which stored rules the index has lost by then. */
module ClassifierRuns {
  import opened Basics
  import opened PacketExpr
  import opened RuleList
  import opened CnodeTree
  import opened CnodeBuild
  import opened CnodeEdit
  import opened CnodeClean
  import opened CnodeShape
  import opened ClassifierState

  datatype Op =
    | AddOp(rule: Rule, left: nat)
    | DeleteOp(id: uint32)
    | PriorityOp(id: uint32, priority: uint32, left: nat)
    | BuildOp(left: nat)
    | UnbuildOp(left: nat)
    | CleanOp

  /** A rule is added under an id that is not in use (see Classifier.GetId), and
      a rule is looked for only where its pointer names a live node: the code has
      no defined behaviour otherwise. */
  ghost predicate Enabled(s: State, op: Op) {
    && (op.AddOp? ==> op.rule.id !in s.rules)
    && (op.DeleteOp? || op.PriorityOp? ==> !Dangling(s, op.id))
  }

  function Apply(s: State, op: Op): State {
    match op
    case AddOp(r, left) => Add(s, r, left).0
    case DeleteOp(id) => Delete(s, id).0
    case PriorityOp(id, p, left) => ChangePriority(s, id, p, left).0
    case BuildOp(left) => BuildAll(s, left).0
    case UnbuildOp(left) => UnbuildAll(s, left).0
    case CleanOp => CleanAll(s)
  }

  /** What the operation means for the table of stored rules alone; `took` says
      whether an add went through, or the rule was found. */
  ghost function Meaning(table: map<uint32, Rule>, op: Op, took: bool): map<uint32, Rule> {
    match op
    case AddOp(r, _) => if took then table[r.id := r] else table
    case DeleteOp(id) => table - {id}
    case PriorityOp(id, p, _) => if took && id in table then table[id := table[id].(priority := p)] else table
    case _ => table
  }

  /** The rules lost from the index once the operation is done. */
  ghost function LostAfter(s: State, lost: set<uint32>, op: Op): set<uint32> {
    match op
    case DeleteOp(id) => lost - {id}
    case PriorityOp(id, _, left) => LostNow(s, lost, id, left)
    case _ => lost
  }

  /** Each operation keeps the index exact but for the lost rules, and does to the
      stored rules what it says, in every case. */
  lemma StepKeepsInv(s: State, lost: set<uint32>, op: Op)
    requires InvBut(s, lost) && Enabled(s, op)
    ensures InvBut(Apply(s, op), LostAfter(s, lost, op))
    ensures exists took :: Apply(s, op).rules == Meaning(s.rules, op, took)
  {
    match op
    case AddOp(r, left) =>
      AddKeepsInv(s, lost, r, left);
      assert Apply(s, op).rules == Meaning(s.rules, op, Add(s, r, left).1);
    case DeleteOp(id) =>
      DeleteKeepsInv(s, lost, id);
      assert Apply(s, op).rules == Meaning(s.rules, op, true);
    case PriorityOp(id, p, left) =>
      ChangePriorityKeepsInv(s, lost, id, p, left);
      assert Apply(s, op).rules == Meaning(s.rules, op, !ChangePriority(s, id, p, left).1.Absent?);
    case BuildOp(left) =>
      BuildKeepsInv(s, lost, left);
      assert Apply(s, op).rules == Meaning(s.rules, op, true);
    case UnbuildOp(left) =>
      UnbuildKeepsInv(s, lost, left);
      assert Apply(s, op).rules == Meaning(s.rules, op, true);
    case CleanOp =>
      CleanKeepsInv(s, lost);
      assert Apply(s, op).rules == Meaning(s.rules, op, true);
  }

  /** The tree splits only on fields in `fs`, and the stored rules wildcard all
      other splittable fields. */
  ghost predicate Shaped(s: State, fs: Mask) {
    SplitsIn(s.root, fs) && forall id | id in s.rules :: WildOutside(s.rules[id], fs)
  }

  lemma StepKeepsShape(s: State, lost: set<uint32>, op: Op, fs: Mask)
    requires InvBut(s, lost) && Enabled(s, op) && Shaped(s, fs)
    requires op.AddOp? ==> WildOutside(op.rule, fs)
    ensures Shaped(Apply(s, op), fs)
  {
    match op
    case AddOp(r, left) =>
      if left >= 2 { AddRuleSplits(s.root, r, {}, Heap(s.next, left - 2), fs); }
    case DeleteOp(id) =>
      if id in s.ptrs && s.ptrs[id].Some? { EditSplits(s.root, s.ptrs[id].value, id, None, fs); }
    case PriorityOp(id, p, left) =>
      if id in s.rules && id in s.ptrs && s.ptrs[id].Some? {
        EditSplits(s.root, s.ptrs[id].value, id, if left == 0 then None else Some(s.rules[id].(priority := p)), fs);
      }
    case BuildOp(left) =>
      forall x: Rule | Has(s.root, x) ensures WildOutside(x, fs) { assert Indexed(s, lost, x); }
      BuildSplits(s.root, {}, false, Heap(s.next, left), s.ptrs, fs);
    case UnbuildOp(left) =>
    case CleanOp => CleanSplits(s.root, fs);
  }

  // ----- Runs

  ghost predicate IsRun(s: State, ops: seq<Op>)
    decreases |ops|
  {
    ops == [] || (Enabled(s, ops[0]) && IsRun(Apply(s, ops[0]), ops[1..]))
  }

  ghost function Run(s: State, ops: seq<Op>): State
    decreases |ops|
  {
    if ops == [] then s else Run(Apply(s, ops[0]), ops[1..])
  }

  ghost predicate AddsOnly(ops: seq<Op>, fs: Mask) {
    forall i | 0 <= i < |ops| && ops[i].AddOp? :: WildOutside(ops[i].rule, fs)
  }

  /** The rules whose priority change threw and that were not deleted since. */
  ghost function LostOver(s: State, lost: set<uint32>, ops: seq<Op>): set<uint32>
    decreases |ops|
  {
    if ops == [] then lost else LostOver(Apply(s, ops[0]), LostAfter(s, lost, ops[0]), ops[1..])
  }

  /** In every reachable state the index holds exactly the stored rules that are
      not lost. */
  lemma {:induction false} RunKeepsInv(s: State, lost: set<uint32>, ops: seq<Op>)
    requires InvBut(s, lost) && IsRun(s, ops)
    ensures InvBut(Run(s, ops), LostOver(s, lost, ops))
    decreases |ops|
  {
    if ops != [] {
      StepKeepsInv(s, lost, ops[0]);
      RunKeepsInv(Apply(s, ops[0]), LostAfter(s, lost, ops[0]), ops[1..]);
    }
  }

  /** It only ever splits on fields some rule fixed. */
  lemma {:induction false} RunKeepsShape(s: State, lost: set<uint32>, ops: seq<Op>, fs: Mask)
    requires InvBut(s, lost) && Shaped(s, fs) && IsRun(s, ops) && AddsOnly(ops, fs)
    ensures Shaped(Run(s, ops), fs)
    decreases |ops|
  {
    if ops != [] {
      StepKeepsInv(s, lost, ops[0]);
      StepKeepsShape(s, lost, ops[0], fs);
      RunKeepsShape(Apply(s, ops[0]), LostAfter(s, lost, ops[0]), ops[1..], fs);
    }
  }

  /** No change of the priority of a stored rule throws during the run. */
  ghost predicate NoneThrows(s: State, ops: seq<Op>)
    decreases |ops|
  {
    ops != [] ==>
      && (ops[0].PriorityOp? && ops[0].id in s.rules ==> ops[0].left > 0)
      && NoneThrows(Apply(s, ops[0]), ops[1..])
  }

  lemma {:induction false} NoneThrowsNoneLost(s: State, ops: seq<Op>)
    requires NoneThrows(s, ops)
    ensures LostOver(s, {}, ops) == {}
    decreases |ops|
  {
    if ops != [] {
      assert LostAfter(s, {}, ops[0]) == {};
      NoneThrowsNoneLost(Apply(s, ops[0]), ops[1..]);
    }
  }

  /** A run from an exact state ends in one if and only if every rule whose
      priority change threw has been deleted since; so it does if none throws. */
  lemma RunExactIff(s: State, ops: seq<Op>)
    requires Inv(s) && IsRun(s, ops)
    ensures Inv(Run(s, ops)) <==> LostOver(s, {}, ops) == {}
    ensures NoneThrows(s, ops) ==> Inv(Run(s, ops))
  {
    RunKeepsInv(s, {}, ops);
    LostIsInexact(Run(s, ops), LostOver(s, {}, ops));
    if NoneThrows(s, ops) { NoneThrowsNoneLost(s, ops); }
  }

  /** From a default-constructed classifier, the tree never gets deeper than
      the number of splittable fields. */
  lemma DepthOverRuns(ops: seq<Op>)
    requires IsRun(EMPTY, ops)
    ensures Depth(Run(EMPTY, ops).root) <= NUM_FIELDS
  {
    InitialInv(0, 1);
    RunKeepsInv(EMPTY, {}, ops);
    RunKeepsShape(EMPTY, {}, ops, FIELDS);
    DepthBound(Run(EMPTY, ops).root, {});
    AllFieldsLeft();
  }

  /** If every rule ever added wildcards AP_DST, no reachable tree splits on it:
      a lookup by flow never asks the flow for it. */
  lemma FlowLookupsNeverAskForApDst(ops: seq<Op>)
    requires IsRun(EMPTY, ops)
    requires forall i | 0 <= i < |ops| && ops[i].AddOp? :: AP_DST in ops[i].rule.expr.wildcards
    ensures SplitsIn(Run(EMPTY, ops).root, FIELDS - {AP_DST})
  {
    var fs := FIELDS - {AP_DST};
    assert FIELDS - fs == {AP_DST};
    InitialInv(0, 1);
    RunKeepsShape(EMPTY, {}, ops, fs);
  }
}
