/** The poll loop gets round: a pass polls every registered pollable, and a thread
    that takes over goes on where the last one left off (src/lib/poll-loop.cc). */
module PollProgress {
  import opened Basics
  import opened PollLoop
  import opened PollOrder

  /** The pollables that this pass has still to poll; all, between passes. */
  ghost function ToCome(s: Loop): seq<Pid> { Live(s.list[Point(s.list, Cursor(s))..]) }

  function Head(q: seq<Pid>): Option<Pid> { if q == [] then None else Some(q[0]) }

  function Tail(q: seq<Pid>): seq<Pid> { if q == [] then [] else q[1..] }

  ghost predicate Polls(s: Loop, t: Tid) { t in s.loc && s.loc[t].InPoll? }

  // ----- What a poll starts

  lemma FirstFrom(list: seq<Ref>, j: nat)
    requires j <= |list|
    ensures var m := NextLive(list, j);
            Live(list[j..]) == if m < |list| then [list[m].pollable.value] + Live(list[m + 1..]) else []
  {
    SkipsNothing(list, j);
    var m := NextLive(list, j);
    LiveAt(list[j..], m - j);
    assert list[j..][..m - j] == list[j..m] && list[j..][m - j..] == list[m..];
    if m < |list| { assert list[m..][1..] == list[m + 1..]; }
  }

  /** Entering from position `j` starts the first pollable from there on. */
  lemma EnterStarts(s: Loop, t: Tid, j: nat)
    requires ListInv(s.list, s.nextNode, s.loc[t := Top]) && s.polling == Some(t) && j <= |s.list|
    ensures var (u, started) := EnterFrom(s, t, j);
            && started == Head(Live(s.list[j..])) && u.polling == s.polling
            && (started.Some? ==> ToCome(u) == Tail(Live(s.list[j..])) && t in u.loc && u.loc[t].InPoll?)
  {
    AllHeld(s.list, s.loc[t := Top]);
    EnterIs(s, t, j);
    FirstFrom(s.list, j);
    var m := NextLive(s.list, j);
    if m < |s.list| { EnteredToCome(s, t, m); }
  }

  lemma EnteredToCome(s: Loop, t: Tid, m: nat)
    requires NodesOK(s.list, s.nextNode) && s.polling == Some(t) && m < |s.list| && s.list[m].pollable.Some?
    ensures ToCome(Entered(s, t, m).0) == Live(s.list[m + 1..])
  {
    var r := s.list[m].(refCnt := s.list[m].refCnt + 1);
    SetOne(s.list, m, r, s.nextNode);
    FindUnique(s.list[m := r], s.nextNode, m);
    assert s.list[m := r][m + 1..] == s.list[m + 1..];
  }

  /** A pass starts with the head of the queue, if anybody is registered. */
  lemma BeginStarts(s: Loop, t: Tid)
    requires Inv(s) && Enabled(s, Begin(t))
    ensures Next(s, Begin(t)).1 == Head(Order(s)) == Head(ToCome(s))
    ensures Next(s, Begin(t)).1.Some? ==>
              ToCome(Next(s, Begin(t)).0) == Tail(ToCome(s)) && Polls(Next(s, Begin(t)).0, t)
  {
    assert s.loc[t := Top] == s.loc && Active(s.loc[t]);
    EnterStarts(s, t, 0);
    assert s.list[..0] == [];
  }

  /** When a poll returns to the polling thread, the pass goes on to the next
      pollable; it ends only if there is none. */
  lemma ReturnStarts(s: Loop, t: Tid)
    requires Inv(s) && Enabled(s, Return(t)) && s.polling == Some(t)
    ensures Next(s, Return(t)).1 == Head(ToCome(s))
    ensures Next(s, Return(t)).1.Some? ==>
              ToCome(Next(s, Return(t)).0) == Tail(ToCome(s)) && Polls(Next(s, Return(t)).0, t)
  {
    ReleaseInv(s, t, Top);
    CursorFound(s);
    var i := Find(s.list, s.loc[t].node);
    var (list, j) := Release(s.list, i);
    assert list[j..] == s.list[i + 1..];
    EnterStarts(s.(list := list), t, j);
  }

  // ----- What other steps do to the pass

  lemma AddComes(s: Loop, p: Pid)
    requires Inv(s) && Enabled(s, Add(p))
    ensures ToCome(Next(s, Add(p)).0) == ToCome(s) + [p]
  {
    var r := Ref(s.nextNode, Some(p), 0);
    if Cursor(s).Some? { CursorFound(s); }
    var k := Point(s.list, Cursor(s));
    AppendPoint(s.list, r, Cursor(s));
    assert (s.list + [r])[k..] == s.list[k..] + [r];
    LiveConcat(s.list[k..], [r]);
    assert Live([r]) == [p];
  }

  lemma TailDrops(list: seq<Ref>, i: nat, now: Option<Ref>, p: Pid, k: nat, nextNode: nat)
    requires NodesOK(list, nextNode) && PollablesOK(list) && i < |list| && list[i].pollable == Some(p) && Shown(now) == []
    requires k <= |list|
    ensures Shift(i, now, k) <= |Patch(list, i, now)|
    ensures Live(Patch(list, i, now)[Shift(i, now, k)..]) == Drop(Live(list[k..]), p)
  {
    assert list[k..|list|] == list[k..];
    PatchCut(list, i, now, k);
    PieceDrops(list, i, now, p, nextNode, k, |list|);
  }

  lemma TailKeeps(list: seq<Ref>, i: nat, now: Option<Ref>, k: nat)
    requires i < |list| && Shown(now) == Shown(Some(list[i])) && k <= |list|
    ensures Shift(i, now, k) <= |Patch(list, i, now)|
    ensures Live(Patch(list, i, now)[Shift(i, now, k)..]) == Live(list[k..])
  {
    PatchCut(list, i, now, k);
    if i >= k { PatchKeeps(list[k..], i - k, now); }
  }

  lemma RemoveIsPatch(s: Loop, p: Pid) returns (i: nat, now: Option<Ref>)
    requires Inv(s) && Enabled(s, Remove(p))
    ensures i < |s.list| && s.list[i].pollable == Some(p) && Shown(now) == []
    ensures if now.Some? then now.value.node == s.list[i].node else s.list[i].refCnt == 0
    ensures Next(s, Remove(p)).0 == s.(list := Patch(s.list, i, now))
  {
    LiveIn(s.list, p);
    i := FindPollable(s.list, p);
    var r := s.list[i].(pollable := None);
    assert Erase(s.list[i := r], i) == Erase(s.list, i);
    now := if r.refCnt == 0 then None else Some(r);
  }

  /** A node nobody holds is not the one the pass is at. */
  lemma CursorHeld(s: Loop, i: nat)
    requires Inv(s) && i < |s.list| && s.list[i].refCnt == 0
    ensures Cursor(s) != Some(s.list[i].node)
  {
    assert s.list[i] in s.list;
    if Cursor(s).Some? { CursorFound(s); }
  }

  lemma RemoveComes(s: Loop, p: Pid)
    requires Inv(s) && Enabled(s, Remove(p))
    ensures ToCome(Next(s, Remove(p)).0) == Drop(ToCome(s), p)
  {
    var i, now := RemoveIsPatch(s, p);
    if Cursor(s).Some? { CursorFound(s); }
    if now.None? { CursorHeld(s, i); }
    PatchPoint(s.list, i, now, Cursor(s), s.nextNode);
    TailDrops(s.list, i, now, p, Point(s.list, Cursor(s)), s.nextNode);
  }

  lemma LateIsPatch(s: Loop, t: Tid) returns (i: nat, now: Option<Ref>)
    requires Inv(s) && Enabled(s, Return(t)) && s.polling.Some? && s.polling != Some(t)
    ensures i < |s.list| && s.list[i].node == s.loc[t].node && Shown(now) == Shown(Some(s.list[i]))
    ensures if now.Some? then now.value.node == s.list[i].node else s.list[i].refCnt == 1
    ensures Next(s, Return(t)).0
            == s.(list := Patch(s.list, i, now), dormant := [t] + s.dormant, loc := s.loc[t := Dormant])
  {
    i := Find(s.list, s.loc[t].node);
    assert Holds(s.list, s.loc[t].node, s.loc[t].pollable);
    var r := s.list[i].(refCnt := s.list[i].refCnt - 1);
    now := if r.refCnt == 0 && r.pollable.None? then None else Some(r);
  }

  /** A node only `t` holds is not the one the polling thread is at. */
  lemma CursorElsewhere(s: Loop, t: Tid, i: nat)
    requires Inv(s) && Polls(s, t) && s.polling != Some(t)
    requires i < |s.list| && s.list[i].node == s.loc[t].node && s.list[i].refCnt == 1
    ensures Cursor(s) != Some(s.list[i].node)
  {
    assert s.list[i] in s.list;
    if Cursor(s).Some? {
      CursorFound(s);
      OnlyInside(s.loc, t, s.polling.value, s.list[i].node);
    }
  }

  lemma LateReturnComes(s: Loop, t: Tid)
    requires Inv(s) && Enabled(s, Return(t)) && s.polling.Some? && s.polling != Some(t)
    ensures ToCome(Next(s, Return(t)).0) == ToCome(s)
  {
    var i, now := LateIsPatch(s, t);
    if Cursor(s).Some? { CursorFound(s); }
    if now.None? { CursorElsewhere(s, t, i); }
    assert Cursor(Next(s, Return(t)).0) == Cursor(s);
    PatchPoint(s.list, i, now, Cursor(s), s.nextNode);
    TailKeeps(s.list, i, now, Point(s.list, Cursor(s)));
  }

  // ----- A whole pass

  /** Steps that leave thread `t` in its pass: its polls return, and around them
      pollables come and go and other threads come back. */
  ghost predicate InPass(s: Loop, st: Step, t: Tid) {
    s.polling == Some(t) && !st.Block? && !st.Begin?
  }

  /** Thread `t` passes over the list from step `a` to step `b`, where the pass ends. */
  ghost predicate Pass(ss: seq<Loop>, sts: seq<Step>, a: nat, b: nat, t: Tid) {
    && Run(ss, sts) && a <= b < |sts| && sts[a] == Begin(t)
    && (forall i | a < i <= b :: InPass(ss[i], sts[i], t))
    && t in ss[b + 1].loc && ss[b + 1].loc[t].Top?
  }

  /** Who has yet to come in this pass stays so until polled. */
  lemma StaysToCome(s: Loop, st: Step, t: Tid, p: Pid)
    requires Inv(s) && Enabled(s, st) && InPass(s, st, t) && Polls(s, t) && p in ToCome(s)
    requires Registered(Next(s, st).0, p) && !Starts(s, st, p)
    ensures Polls(Next(s, st).0, t) && p in ToCome(Next(s, st).0)
  {
    match st
    case Add(z) => AddComes(s, z);
    case Remove(z) =>
      RemoveComes(s, z);
      RemovedIsGone(s, z);
      DropKeeps(ToCome(s), z, p);
    case Return(u) => if u == t { ReturnStarts(s, t); } else { LateReturnComes(s, u); }
    case Wake(u) =>
  }

  lemma RemovedIsGone(s: Loop, p: Pid)
    requires Inv(s) && Enabled(s, Remove(p))
    ensures !Registered(Next(s, Remove(p)).0, p)
  {
    StepInv(s, Remove(p));
    StepOrder(s, Remove(p));
    OrderHolds(Next(s, Remove(p)).0);
    DropIsGone(Order(s), p);
  }

  lemma BeginWaits(s: Loop, t: Tid, p: Pid)
    requires Inv(s) && Enabled(s, Begin(t)) && Registered(s, p) && !Starts(s, Begin(t), p)
    ensures Polls(Next(s, Begin(t)).0, t) && p in ToCome(Next(s, Begin(t)).0)
  {
    BeginStarts(s, t);
    assert Active(s.loc[t]);
    assert s.list[0..] == s.list && ToCome(s) == Live(s.list);
  }

  /** Thread `t` is in a pass that has yet to come to `p`.  (Said of everything
      equal to `s`, so that proofs use it as a whole; likewise Passes.) */
  ghost predicate Waits(s: Loop, t: Tid, p: Pid) {
    forall u | u == s :: Inv(u) && Polls(u, t) && p in ToCome(u)
  }

  /** A step within the pass of `t` that does not poll `p`, which stays registered. */
  ghost predicate Passes(s: Loop, st: Step, s': Loop, t: Tid, p: Pid) {
    forall u | u == s :: Enabled(u, st) && s' == Next(u, st).0 && InPass(u, st, t) && Registered(s', p) && !Starts(u, st, p)
  }

  lemma WaitsOn(s: Loop, st: Step, s': Loop, t: Tid, p: Pid)
    requires Waits(s, t, p) && Passes(s, st, s', t, p)
    ensures Waits(s', t, p)
  {
    assert s == s && Inv(s) && Enabled(s, st);
    StaysToCome(s, st, t, p);
    StepInv(s, st);
  }

  lemma {:induction false} WaitsInPass(ss: seq<Loop>, sts: seq<Step>, i: nat, b: nat, t: Tid, p: Pid)
    requires |ss| == |sts| + 1 && i <= b <= |sts| && Waits(ss[i], t, p)
    requires forall j | i <= j < b :: Passes(ss[j], sts[j], ss[j + 1], t, p)
    ensures Polls(ss[b], t)
    decreases b - i
  {
    assert Polls(ss[i], t);
    if i < b {
      WaitsOn(ss[i], sts[i], ss[i + 1], t, p);
      WaitsInPass(ss, sts, i + 1, b, t, p);
    }
  }

  lemma PassWaits(ss: seq<Loop>, sts: seq<Step>, a: nat, b: nat, t: Tid, p: Pid)
    requires Pass(ss, sts, a, b, t) && Inv(ss[0]) && forall i | a <= i <= b + 1 :: Registered(ss[i], p)
    requires forall m | a <= m <= b :: !Starts(ss[m], sts[m], p)
    ensures Waits(ss[a + 1], t, p) && forall j | a < j <= b :: Passes(ss[j], sts[j], ss[j + 1], t, p)
  {
    RunInv(ss, sts, a);
    BeginWaits(ss[a], t, p);
    StepInv(ss[a], sts[a]);
  }

  /** A pass during which no poll blocks polls every pollable that is registered
      throughout it. */
  lemma PassPollsAll(ss: seq<Loop>, sts: seq<Step>, a: nat, b: nat, t: Tid, p: Pid)
    requires Pass(ss, sts, a, b, t) && Inv(ss[0]) && forall i | a <= i <= b + 1 :: Registered(ss[i], p)
    ensures exists m :: a <= m <= b && Starts(ss[m], sts[m], p)
  {
    if forall m | a <= m <= b :: !Starts(ss[m], sts[m], p) {
      PassWaits(ss, sts, a, b, t, p);
      WaitsInPass(ss, sts, a + 1, b + 1, t, p);
    }
  }

  // ----- Handing over

  /** A thread that is about to block hands its place to a dormant one, which goes
      on with the next pollable of the queue. */
  lemma HandsOver(s: Loop, t: Tid)
    requires Inv(s) && Enabled(s, Block(t)) && s.dormant != []
    ensures var u := s.dormant[0];
            var s1 := Next(s, Block(t)).0;
            && Enabled(s1, Wake(u))
            && var s2 := Next(s1, Wake(u)).0;
               Enabled(s2, Begin(u)) && Next(s2, Begin(u)).1 == Head(Order(s))
  {
    var u, s1 := s.dormant[0], Next(s, Block(t)).0;
    StepInv(s, Block(t));
    StepOrder(s, Block(t));
    BlockAppoints(s, t);
    StepInv(s1, Wake(u));
    StepOrder(s1, Wake(u));
    BeginStarts(Next(s1, Wake(u)).0, u);
  }

  lemma BlockAppoints(s: Loop, t: Tid)
    requires Inv(s) && Enabled(s, Block(t)) && s.dormant != []
    ensures Enabled(Next(s, Block(t)).0, Wake(s.dormant[0]))
  {
    assert Active(s.loc[t]);
    CursorFound(s);
  }

  /** If all were busy, the first thread to come back goes on with the queue. */
  lemma TakesBack(s: Loop, t: Tid)
    requires Inv(s) && Enabled(s, Return(t)) && s.polling.None?
    ensures var s1 := Next(s, Return(t)).0;
            Enabled(s1, Begin(t)) && Next(s1, Begin(t)).1 == Head(Order(s))
  {
    StepInv(s, Return(t));
    StepOrder(s, Return(t));
    assert Holds(s.list, s.loc[t].node, s.loc[t].pollable);
    BeginStarts(Next(s, Return(t)).0, t);
  }
}
