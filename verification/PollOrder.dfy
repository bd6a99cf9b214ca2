/** Round robin: whichever threads poll and wherever they block, the loop serves
    the registered pollables as one queue. */
module PollOrder {
  import opened Basics
  import opened PollLoop

  /** The node the polling thread is at, if it is in the middle of a pass. */
  ghost function Cursor(s: Loop): Option<nat> {
    if s.polling.Some? && s.polling.value in s.loc && s.loc[s.polling.value].InPoll?
    then Some(s.loc[s.polling.value].node) else None
  }

  /** The nodes after the cut, then those before it. */
  function Cut(list: seq<Ref>, k: nat): seq<Pid>
    requires k <= |list|
  {
    Live(list[k..]) + Live(list[..k])
  }

  /** How much of the list this pass has behind it. */
  ghost function Point(list: seq<Ref>, c: Option<nat>): (k: nat)
    ensures k <= |list|
  {
    if c.Some? && Find(list, c.value) < |list| then Find(list, c.value) + 1 else 0
  }

  /** The order in which the registered pollables will be polled next. */
  ghost function Order(s: Loop): seq<Pid> { Cut(s.list, Point(s.list, Cursor(s))) }

  function Drop(q: seq<Pid>, p: Pid): seq<Pid> {
    if q == [] then [] else (if q[0] == p then [] else [q[0]]) + Drop(q[1..], p)
  }

  /** What one step may do to the queue. */
  ghost predicate QueueStep(q: seq<Pid>, q': seq<Pid>, st: Step, started: Option<Pid>) {
    match started
    case Some(p) => q != [] && q[0] == p && q' == q[1..] + [p]
    case None =>
      match st
      case Add(p) => exists k :: 0 <= k <= |q| && q' == q[..k] + [p] + q[k..]
      case Remove(p) => q' == Drop(q, p)
      case _ => q' == q
  }

  /** A step of the loop is a step of its queue. */
  ghost predicate Queues(s: Loop, st: Step)
    requires Enabled(s, st)
  {
    QueueStep(Order(s), Order(Next(s, st).0), st, Next(s, st).1)
  }

  // ----- Live and Drop over pieces of the list

  lemma {:induction false} LiveConcat(a: seq<Ref>, b: seq<Ref>)
    ensures Live(a + b) == Live(a) + Live(b)
  {
    if a == [] {
      assert a + b == b;
    } else {
      assert (a + b)[1..] == a[1..] + b;
      LiveConcat(a[1..], b);
    }
  }

  lemma {:induction false} DropConcat(a: seq<Pid>, b: seq<Pid>, p: Pid)
    ensures Drop(a + b, p) == Drop(a, p) + Drop(b, p)
  {
    if a == [] {
      assert a + b == b;
    } else {
      assert (a + b)[1..] == a[1..] + b;
      DropConcat(a[1..], b, p);
    }
  }

  lemma {:induction false} DropNothing(q: seq<Pid>, p: Pid)
    requires p !in q
    ensures Drop(q, p) == q
  {
    if q != [] { DropNothing(q[1..], p); }
  }

  lemma {:induction false} LiveOnly(list: seq<Ref>, p: Pid)
    requires forall r | r in list :: r.pollable != Some(p)
    ensures p !in Live(list)
  {
    if list != [] { LiveOnly(list[1..], p); }
  }

  lemma LiveAt(list: seq<Ref>, k: nat)
    requires k <= |list|
    ensures Live(list) == Live(list[..k]) + Live(list[k..])
  {
    assert list == list[..k] + list[k..];
    LiveConcat(list[..k], list[k..]);
  }

  /** Replaces or erases the node at `i`. */
  function Patch(list: seq<Ref>, i: nat, now: Option<Ref>): seq<Ref>
    requires i < |list|
  {
    if now.Some? then list[i := now.value] else Erase(list, i)
  }

  function Shown(now: Option<Ref>): seq<Pid> {
    if now.Some? && now.value.pollable.Some? then [now.value.pollable.value] else []
  }

  lemma PatchLive(list: seq<Ref>, i: nat, now: Option<Ref>)
    requires i < |list|
    ensures Live(Patch(list, i, now)) == Live(list[..i]) + Shown(now) + Live(list[i + 1..])
  {
    if now.Some? {
      assert list[i := now.value] == list[..i] + [now.value] + list[i + 1..];
      LiveConcat(list[..i] + [now.value], list[i + 1..]);
      LiveConcat(list[..i], [now.value]);
    } else {
      LiveConcat(list[..i], list[i + 1..]);
    }
  }

  /** Dropping what a node shows, when nothing else shows the same. */
  lemma PatchDrops(list: seq<Ref>, i: nat, now: Option<Ref>, p: Pid)
    requires i < |list| && list[i].pollable == Some(p) && Shown(now) == []
    requires p !in Live(list[..i]) && p !in Live(list[i + 1..])
    ensures Live(Patch(list, i, now)) == Drop(Live(list), p)
  {
    PatchLive(list, i, now);
    PatchLive(list, i, Some(list[i]));
    assert list[i := list[i]] == list;
    var a, b := Live(list[..i]), Live(list[i + 1..]);
    DropConcat(a + [p], b, p);
    DropConcat(a, [p], p);
    DropNothing(a, p);
    DropNothing(b, p);
  }

  lemma PatchKeeps(list: seq<Ref>, i: nat, now: Option<Ref>)
    requires i < |list| && Shown(now) == Shown(Some(list[i]))
    ensures Live(Patch(list, i, now)) == Live(list)
  {
    PatchLive(list, i, now);
    PatchLive(list, i, Some(list[i]));
    assert list[i := list[i]] == list;
  }

  lemma FindIs(list: seq<Ref>, node: nat, i: nat)
    requires i < |list| && list[i].node == node && forall j | 0 <= j < |list| && j != i :: list[j].node != node
    ensures Find(list, node) == i
  {
  }

  /** Where the cursor's cut falls after a patch elsewhere or at the cursor. */
  lemma PatchFind(list: seq<Ref>, i: nat, now: Option<Ref>, node: nat, nextNode: nat)
    requires NodesOK(list, nextNode) && i < |list| && Find(list, node) < |list|
    requires if now.Some? then now.value.node == list[i].node else list[i].node != node
    ensures Find(Patch(list, i, now), node) == Find(list, node) - (if now.None? && i < Find(list, node) then 1 else 0)
  {
    var c := Find(list, node);
    var l := Patch(list, i, now);
    if now.Some? {
      FindIs(l, node, c);
    } else {
      assert forall j | 0 <= j < |l| :: l[j] == if j < i then list[j] else list[j + 1];
      FindIs(l, node, if i < c then c - 1 else c);
    }
  }

  lemma PatchCut(list: seq<Ref>, i: nat, now: Option<Ref>, k: nat)
    requires i < |list| && k <= |list|
    ensures i >= k ==> Patch(list, i, now)[..k] == list[..k] && Patch(list, i, now)[k..] == Patch(list[k..], i - k, now)
    ensures i < k ==> var k' := if now.None? then k - 1 else k;
                      && Patch(list, i, now)[..k'] == Patch(list[..k], i, now) && Patch(list, i, now)[k'..] == list[k..]
  {
  }

  // ----- Each step acts on the queue

  /** What is shown at `i` is shown nowhere else. */
  lemma ShownOnce(list: seq<Ref>, i: nat, p: Pid, nextNode: nat, lo: nat, hi: nat)
    requires NodesOK(list, nextNode) && PollablesOK(list) && i < |list| && list[i].pollable == Some(p)
    requires lo <= hi <= |list| && !(lo <= i < hi)
    ensures p !in Live(list[lo..hi])
  {
    forall r | r in list[lo..hi] ensures r.pollable != Some(p) {
      var j :| lo <= j < hi && list[j] == r;
      assert list[j] in list && list[i] in list;
    }
    LiveOnly(list[lo..hi], p);
  }

  function Shift(i: nat, now: Option<Ref>, k: nat): nat { if now.None? && i < k then k - 1 else k }

  lemma PatchPoint(list: seq<Ref>, i: nat, now: Option<Ref>, c: Option<nat>, nextNode: nat)
    requires NodesOK(list, nextNode) && i < |list| && (c.Some? ==> Find(list, c.value) < |list|)
    requires if now.Some? then now.value.node == list[i].node else c != Some(list[i].node)
    ensures Point(Patch(list, i, now), c) == Shift(i, now, Point(list, c))
  {
    if c.Some? { PatchFind(list, i, now, c.value, nextNode); }
  }

  lemma CutDrops(list: seq<Ref>, i: nat, now: Option<Ref>, p: Pid, k: nat, nextNode: nat)
    requires NodesOK(list, nextNode) && PollablesOK(list) && i < |list| && list[i].pollable == Some(p) && Shown(now) == []
    requires k <= |list|
    ensures Cut(Patch(list, i, now), Shift(i, now, k)) == Drop(Cut(list, k), p)
  {
    assert list[0..k] == list[..k] && list[k..|list|] == list[k..];
    PatchCut(list, i, now, k);
    DropConcat(Live(list[k..]), Live(list[..k]), p);
    PieceDrops(list, i, now, p, nextNode, 0, k);
    PieceDrops(list, i, now, p, nextNode, k, |list|);
  }

  /** Of two pieces of the list, the one with the node loses it. */
  lemma PieceDrops(list: seq<Ref>, i: nat, now: Option<Ref>, p: Pid, nextNode: nat, lo: nat, hi: nat)
    requires NodesOK(list, nextNode) && PollablesOK(list) && i < |list| && list[i].pollable == Some(p) && Shown(now) == []
    requires lo <= hi <= |list|
    ensures Drop(Live(list[lo..hi]), p) == Live(if lo <= i < hi then Patch(list[lo..hi], i - lo, now) else list[lo..hi])
  {
    var l := list[lo..hi];
    if lo <= i < hi {
      ShownOnce(list, i, p, nextNode, lo, i);
      ShownOnce(list, i, p, nextNode, i + 1, hi);
      assert l[..i - lo] == list[lo..i] && l[i - lo + 1..] == list[i + 1..hi];
      PatchDrops(l, i - lo, now, p);
    } else {
      ShownOnce(list, i, p, nextNode, lo, hi);
      DropNothing(Live(l), p);
    }
  }

  lemma CutKeeps(list: seq<Ref>, i: nat, now: Option<Ref>, k: nat)
    requires i < |list| && Shown(now) == Shown(Some(list[i])) && k <= |list|
    ensures Cut(Patch(list, i, now), Shift(i, now, k)) == Cut(list, k)
  {
    PatchCut(list, i, now, k);
    if i < k {
      PatchKeeps(list[..k], i, now);
    } else {
      PatchKeeps(list[k..], i - k, now);
    }
  }

  /** The cursor names a node of the list that the polling thread holds. */
  lemma CursorFound(s: Loop)
    requires Inv(s) && Cursor(s).Some?
    ensures Find(s.list, Cursor(s).value) < |s.list|
    ensures s.polling.value in Inside(s.loc, Cursor(s).value) && !s.loc[s.polling.value].hooked
  {
    var t := s.polling.value;
    assert Active(s.loc[t]);
    assert Holds(s.list, s.loc[t].node, s.loc[t].pollable);
  }

  lemma AppendCut(list: seq<Ref>, r: Ref, p: Pid, k: nat)
    requires k <= |list| && r.pollable == Some(p)
    ensures Cut(list + [r], k) == Live(list[k..]) + [p] + Live(list[..k])
  {
    assert (list + [r])[k..] == list[k..] + [r] && (list + [r])[..k] == list[..k];
    LiveConcat(list[k..], [r]);
    assert Live([r]) == [p];
  }

  lemma AppendPoint(list: seq<Ref>, r: Ref, c: Option<nat>)
    requires c.Some? ==> Find(list, c.value) < |list|
    ensures Point(list + [r], c) == Point(list, c)
  {
    if c.Some? {
      var i := Find(list, c.value);
      assert (list + [r])[i] == list[i];
      assert forall j | 0 <= j < i :: (list + [r])[j] == list[j];
    }
  }

  lemma InsertAt(a: seq<Pid>, p: Pid, b: seq<Pid>)
    ensures QueueStep(a + b, a + [p] + b, Add(p), None)
  {
    var q := a + b;
    assert q[..|a|] == a && q[|a|..] == b;
  }

  lemma AddOrder(s: Loop, p: Pid)
    requires Inv(s) && Enabled(s, Add(p))
    ensures Queues(s, Add(p))
  {
    var r := Ref(s.nextNode, Some(p), 0);
    if Cursor(s).Some? { CursorFound(s); }
    var k := Point(s.list, Cursor(s));
    AppendPoint(s.list, r, Cursor(s));
    AppendCut(s.list, r, p, k);
    InsertAt(Live(s.list[k..]), p, Live(s.list[..k]));
  }

  lemma RemoveOrder(s: Loop, p: Pid)
    requires Inv(s) && Enabled(s, Remove(p))
    ensures Queues(s, Remove(p))
  {
    LiveIn(s.list, p);
    var i := FindPollable(s.list, p);
    var r := s.list[i].(pollable := None);
    assert s.list[i] in s.list;
    assert Erase(s.list[i := r], i) == Erase(s.list, i);
    if Cursor(s).Some? { CursorFound(s); }
    var now := if r.refCnt == 0 then None else Some(r);
    PatchPoint(s.list, i, now, Cursor(s), s.nextNode);
    CutDrops(s.list, i, now, p, Point(s.list, Cursor(s)), s.nextNode);
  }

  lemma {:induction false} SkipsNothing(list: seq<Ref>, j: nat)
    requires j <= |list|
    ensures Live(list[j..NextLive(list, j)]) == []
    decreases |list| - j
  {
    var m := NextLive(list, j);
    if j < m {
      SkipsNothing(list, j + 1);
      assert list[j..m][1..] == list[j + 1..m];
    }
  }

  lemma ServeHead(list: seq<Ref>, j: nat, m: nat, r: Ref, p: Pid)
    requires j <= m < |list| && r.pollable == Some(p) == list[m].pollable && Live(list[j..m]) == []
    ensures Cut(list, j) == [p] + (Live(list[m + 1..]) + Live(list[..j]))
    ensures Cut(list[m := r], m + 1) == Live(list[m + 1..]) + Live(list[..j]) + [p]
  {
    HeadFirst(list, j, m, p);
    HeadLast(list, j, m, r, p);
  }

  lemma HeadFirst(list: seq<Ref>, j: nat, m: nat, p: Pid)
    requires j <= m < |list| && list[m].pollable == Some(p) && Live(list[j..m]) == []
    ensures Cut(list, j) == [p] + (Live(list[m + 1..]) + Live(list[..j]))
  {
    LiveAt(list[j..], m - j);
    assert list[j..][..m - j] == list[j..m] && list[j..][m - j..] == list[m..];
    assert list[m..][1..] == list[m + 1..];
  }

  lemma HeadLast(list: seq<Ref>, j: nat, m: nat, r: Ref, p: Pid)
    requires j <= m < |list| && r.pollable == Some(p) && Live(list[j..m]) == []
    ensures Cut(list[m := r], m + 1) == Live(list[m + 1..]) + Live(list[..j]) + [p]
  {
    assert list[m := r][m + 1..] == list[m + 1..] && list[m := r][..m + 1] == list[..m] + [r];
    LiveConcat(list[..m], [r]);
    assert list[..m] == list[..j] + list[j..m];
    LiveConcat(list[..j], list[j..m]);
    assert Live([r]) == [p];
  }

  lemma PassOver(list: seq<Ref>, j: nat)
    requires j <= |list| && Live(list[j..]) == []
    ensures Cut(list, j) == Cut(list, 0)
  {
    LiveAt(list, j);
    assert list[0..] == list && list[..0] == [];
  }

  lemma EnteredOrder(s: Loop, t: Tid, m: nat)
    requires NodesOK(s.list, s.nextNode) && s.polling == Some(t) && m < |s.list| && s.list[m].pollable.Some?
    ensures Order(Entered(s, t, m).0) == Cut(s.list[m := s.list[m].(refCnt := s.list[m].refCnt + 1)], m + 1)
  {
    var r := s.list[m].(refCnt := s.list[m].refCnt + 1);
    SetOne(s.list, m, r, s.nextNode);
    FindUnique(s.list[m := r], s.nextNode, m);
  }

  lemma Serves(p: Pid, rest: seq<Pid>, st: Step)
    ensures QueueStep([p] + rest, rest + [p], st, Some(p))
  {
  }

  /** Entering the next poll() serves the head of the queue. */
  lemma EnterOrder(s: Loop, t: Tid, j: nat)
    requires ListInv(s.list, s.nextNode, s.loc[t := Top]) && s.polling == Some(t) && j <= |s.list|
    ensures var (u, started) := EnterFrom(s, t, j);
            QueueStep(Cut(s.list, j), Order(u), Begin(t), started)
  {
    AllHeld(s.list, s.loc[t := Top]);
    EnterIs(s, t, j);
    SkipsNothing(s.list, j);
    var m := NextLive(s.list, j);
    if m < |s.list| {
      var p := s.list[m].pollable.value;
      ServeHead(s.list, j, m, s.list[m].(refCnt := s.list[m].refCnt + 1), p);
      EnteredOrder(s, t, m);
      Serves(p, Live(s.list[m + 1..]) + Live(s.list[..j]), Begin(t));
    } else {
      assert s.list[j..m] == s.list[j..];
      PassOver(s.list, j);
    }
  }

  lemma BeginOrder(s: Loop, t: Tid)
    requires Inv(s) && Enabled(s, Begin(t))
    ensures Queues(s, Begin(t))
  {
    assert s.loc[t := Top] == s.loc && Active(s.loc[t]);
    EnterOrder(s, t, 0);
    assert s.list[0..] == s.list && s.list[..0] == [];
  }

  /** The rotation moves the cut to the front. */
  lemma RotateCut(list: seq<Ref>, k: nat)
    requires k <= |list|
    ensures Cut(list[k..] + list[..k], 0) == Cut(list, k)
  {
    var l := list[k..] + list[..k];
    LiveConcat(list[k..], list[..k]);
    assert l[0..] == l && l[..0] == [];
  }

  lemma BlockOrder(s: Loop, t: Tid)
    requires Inv(s) && Enabled(s, Block(t))
    ensures Queues(s, Block(t))
  {
    BlockInv(s, t);
    CursorFound(s);
    RotateCut(s.list, Find(s.list, s.loc[t].node) + 1);
    BlockCursor(s, t);
  }

  lemma BlockCursor(s: Loop, t: Tid)
    requires Enabled(s, Block(t)) && Find(s.list, s.loc[t].node) < |s.list|
    ensures Cursor(Next(s, Block(t)).0).None?
  {
  }

  lemma ReleaseOrder(s: Loop, t: Tid)
    requires Inv(s) && Enabled(s, Return(t)) && s.polling != Some(t)
    ensures Find(s.list, s.loc[t].node) < |s.list|
    ensures var list := Release(s.list, Find(s.list, s.loc[t].node)).0;
            Cut(list, Point(list, Cursor(s))) == Order(s)
  {
    var i := Find(s.list, s.loc[t].node);
    assert Holds(s.list, s.loc[t].node, s.loc[t].pollable);
    var was := s.list[i];
    assert was in s.list;
    var r := was.(refCnt := was.refCnt - 1);
    var now := if r.refCnt == 0 && r.pollable.None? then None else Some(r);
    if Cursor(s).Some? {
      CursorFound(s);
      if now.None? { OnlyInside(s.loc, t, s.polling.value, was.node); }
    }
    PatchPoint(s.list, i, now, Cursor(s), s.nextNode);
    CutKeeps(s.list, i, now, Point(s.list, Cursor(s)));
  }

  /** A thread that lost its role gives back its node without a trace. */
  lemma ReturnLateOrder(s: Loop, t: Tid)
    requires Inv(s) && Enabled(s, Return(t)) && s.polling != Some(t)
    ensures Queues(s, Return(t))
  {
    ReleaseOrder(s, t);
    assert Cursor(Next(s, Return(t)).0) == Cursor(s);
  }

  lemma OnlyInside(loc: map<Tid, Loc>, t: Tid, t': Tid, node: nat)
    requires t in loc && At(loc[t], node) && |Inside(loc, node)| == 1 && t' in loc && t' != t
    ensures !At(loc[t'], node)
  {
    InsideMoved(loc, t, Top, node);
    assert Inside(loc[t := Top], node) == {};
    assert t' !in Inside(loc[t := Top], node);
  }

  lemma ReturnOrder(s: Loop, t: Tid)
    requires Inv(s) && Enabled(s, Return(t)) && s.polling == Some(t)
    ensures Queues(s, Return(t))
  {
    ReleaseInv(s, t, Top);
    var i := Find(s.list, s.loc[t].node);
    var (list, j) := Release(s.list, i);
    ReleaseCut(s.list, i);
    EnterOrder(s.(list := list), t, j);
  }

  lemma ReleaseCut(list: seq<Ref>, i: nat)
    requires i < |list|
    ensures Cut(Release(list, i).0, Release(list, i).1) == Cut(list, i + 1)
  {
    var r := list[i].(refCnt := list[i].refCnt - 1);
    var now := if r.refCnt == 0 && r.pollable.None? then None else Some(r);
    CutKeeps(list, i, now, i + 1);
  }

  lemma WakeOrder(s: Loop, t: Tid)
    requires Inv(s) && Enabled(s, Wake(t))
    ensures Queues(s, Wake(t))
  {
    assert Active(s.loc[t]);
  }

  /** Every step of the loop is a step of the queue. */
  lemma StepOrder(s: Loop, st: Step)
    requires Inv(s) && Enabled(s, st)
    ensures Queues(s, st)
  {
    match st
    case Add(p) => AddOrder(s, p);
    case Remove(p) => RemoveOrder(s, p);
    case Begin(t) => BeginOrder(s, t);
    case Return(t) => if s.polling == Some(t) { ReturnOrder(s, t); } else { ReturnLateOrder(s, t); }
    case Block(t) => BlockOrder(s, t);
    case Wake(t) => WakeOrder(s, t);
  }

  // ----- Round robin

  ghost predicate Before(q: seq<Pid>, x: Pid, p: Pid) {
    exists i, j :: 0 <= i < j < |q| && q[i] == x && q[j] == p
  }

  ghost predicate NoRepeats(q: seq<Pid>) {
    forall i, j | 0 <= i < j < |q| :: q[i] != q[j]
  }

  /** The states of a run, and the poll() call each step started. */
  ghost predicate Run(ss: seq<Loop>, sts: seq<Step>) {
    && |ss| == |sts| + 1
    && forall i | 0 <= i < |sts| :: Enabled(ss[i], sts[i]) && ss[i + 1] == Next(ss[i], sts[i]).0
  }

  ghost predicate Starts(s: Loop, st: Step, p: Pid)
    requires Enabled(s, st)
  {
    Next(s, st).1 == Some(p)
  }

  ghost predicate Registered(s: Loop, p: Pid) { p in Live(s.list) }

  lemma {:induction false} LiveNoRepeats(list: seq<Ref>, nextNode: nat)
    requires NodesOK(list, nextNode) && PollablesOK(list)
    ensures NoRepeats(Live(list))
  {
    if list != [] {
      var tail := list[1..];
      assert forall r | r in tail :: r in list;
      LiveNoRepeats(tail, nextNode);
      if list[0].pollable.Some? {
        forall j | 0 <= j < |tail| ensures tail[j].pollable != list[0].pollable {
          assert list[0] in list && list[j + 1] in list;
        }
        LiveOnly(tail, list[0].pollable.value);
      }
    }
  }

  /** The queue holds each registered pollable once. */
  lemma OrderHolds(s: Loop)
    requires Inv(s)
    ensures NoRepeats(Order(s)) && forall p :: p in Order(s) <==> Registered(s, p)
  {
    var k := Point(s.list, Cursor(s));
    RotateAt(s.list, k, s.nextNode);
    LiveConcat(s.list[k..], s.list[..k]);
    LiveNoRepeats(s.list[k..] + s.list[..k], s.nextNode);
    LiveAt(s.list, k);
  }

  lemma {:induction false} DropKeepsBefore(q: seq<Pid>, z: Pid, x: Pid, p: Pid)
    requires Before(q, x, p) && z != x && z != p
    ensures Before(Drop(q, z), x, p)
  {
    var i, j :| 0 <= i < j < |q| && q[i] == x && q[j] == p;
    DropConcat(q[..j], q[j..], z);
    assert q[..j] + q[j..] == q;
    var a, b := Drop(q[..j], z), Drop(q[j..], z);
    assert q[..j][i] == x && b[0] == p;
    DropKeeps(q[..j], z, x);
    var m :| 0 <= m < |a| && a[m] == x;
    assert (a + b)[m] == x && (a + b)[|a|] == p;
  }

  lemma {:induction false} DropKeeps(q: seq<Pid>, z: Pid, x: Pid)
    requires x in q && x != z
    ensures x in Drop(q, z)
  {
    if q[0] != x { DropKeeps(q[1..], z, x); }
  }

  lemma {:induction false} DropIsGone(q: seq<Pid>, z: Pid)
    ensures z !in Drop(q, z)
  {
    if q != [] { DropIsGone(q[1..], z); }
  }

  lemma InsertKeepsBefore(q: seq<Pid>, k: nat, z: Pid, x: Pid, p: Pid)
    requires k <= |q| && Before(q, x, p)
    ensures Before(q[..k] + [z] + q[k..], x, p)
  {
    var i, j :| 0 <= i < j < |q| && q[i] == x && q[j] == p;
    var q' := q[..k] + [z] + q[k..];
    assert q'[if i < k then i else i + 1] == x && q'[if j < k then j else j + 1] == p;
  }

  lemma ServeKeepsBefore(q: seq<Pid>, x: Pid, p: Pid)
    requires Before(q, x, p) && q[0] != x && q[0] != p
    ensures Before(q[1..] + [q[0]], x, p)
  {
    var i, j :| 0 <= i < j < |q| && q[i] == x && q[j] == p;
    var q' := q[1..] + [q[0]];
    assert q'[i - 1] == x && q'[j - 1] == p;
  }

  /** While `x` waits before `p`, only a poll of `x` or the end of a
      registration changes that. */
  lemma QueueKeepsBefore(q: seq<Pid>, q': seq<Pid>, st: Step, started: Option<Pid>, x: Pid, p: Pid)
    requires QueueStep(q, q', st, started) && Before(q, x, p) && NoRepeats(q)
    requires started != Some(x) && x in q' && p in q'
    ensures started != Some(p) && Before(q', x, p)
  {
    match started
    case Some(z) => ServeKeepsBefore(q, x, p);
    case None =>
      match st
      case Add(z) =>
        var k :| 0 <= k <= |q| && q' == q[..k] + [z] + q[k..];
        InsertKeepsBefore(q, k, z, x, p);
      case Remove(z) =>
        DropIsGone(q, z);
        DropKeepsBefore(q, z, x, p);
      case _ =>
  }

  lemma {:induction false} StaysBefore(ss: seq<Loop>, sts: seq<Step>, a: nat, b: nat, x: Pid, p: Pid)
    requires Run(ss, sts) && a <= b <= |sts| && Inv(ss[a]) && Before(Order(ss[a]), x, p)
    requires forall i | a <= i <= b :: Registered(ss[i], x) && Registered(ss[i], p)
    requires forall i | a <= i < b :: !Starts(ss[i], sts[i], x)
    ensures Before(Order(ss[b]), x, p) && Inv(ss[b])
    decreases b - a
  {
    if a < b {
      StepInv(ss[a], sts[a]);
      StepOrder(ss[a], sts[a]);
      OrderHolds(ss[a]);
      OrderHolds(ss[a + 1]);
      QueueKeepsBefore(Order(ss[a]), Order(ss[a + 1]), sts[a], Next(ss[a], sts[a]).1, x, p);
      StaysBefore(ss, sts, a + 1, b, x, p);
    }
  }

  lemma {:induction false} RunInv(ss: seq<Loop>, sts: seq<Step>, n: nat)
    requires Run(ss, sts) && Inv(ss[0]) && n <= |sts|
    ensures Inv(ss[n])
  {
    if n > 0 {
      RunInv(ss, sts, n - 1);
      StepInv(ss[n - 1], sts[n - 1]);
    }
  }

  /** Having been served, `p` waits behind everyone else. */
  lemma ServedLast(s: Loop, st: Step, x: Pid, p: Pid)
    requires Inv(s) && Enabled(s, st) && Starts(s, st, p) && x != p && Registered(s, x)
    ensures Before(Order(Next(s, st).0), x, p)
  {
    StepOrder(s, st);
    OrderHolds(s);
    var q := Order(s);
    var i :| 0 <= i < |q| && q[i] == x;
    assert (q[1..] + [p])[i - 1] == x && (q[1..] + [p])[|q| - 1] == p;
  }

  /** Between two polls of `p`, every `x` registered throughout is polled. */
  lemma RoundRobin(ss: seq<Loop>, sts: seq<Step>, a: nat, b: nat, x: Pid, p: Pid)
    requires Run(ss, sts) && Inv(ss[0]) && a < b < |sts| && x != p
    requires Starts(ss[a], sts[a], p) && Starts(ss[b], sts[b], p)
    requires forall i | a <= i <= b :: Registered(ss[i], x) && Registered(ss[i], p)
    ensures exists m :: a < m < b && Starts(ss[m], sts[m], x)
  {
    if forall m | a < m < b :: !Starts(ss[m], sts[m], x) {
      RunInv(ss, sts, a);
      ServedLast(ss[a], sts[a], x, p);
      StepInv(ss[a], sts[a]);
      StaysBefore(ss, sts, a + 1, b, x, p);
      StepOrder(ss[b], sts[b]);
      OrderHolds(ss[b]);
      assert false;
    }
  }
}
