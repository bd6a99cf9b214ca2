/** The poll loop (src/lib/poll-loop.cc): a pool of cooperative threads hands
    over the role of polling thread and rotates a list of ref-counted nodes in
    place, one step per stretch of code between points where a thread may lose
    the processor. */
module PollLoop {
  import opened Basics

  type Tid = nat
  type Pid = nat

  /** A list node: its identity, the pollable (None once removed), and the
      number of threads that hold a reference. */
  datatype Ref = Ref(node: nat, pollable: Option<Pid>, refCnt: int)

  /** Where a pool thread is: waiting to be appointed; appointed but not yet
      running; between passes over the list; or inside poll() of a node, with
      `hooked` once its pre-block hook has run. */
  datatype Loc = Dormant | Appointed | Top | InPoll(node: nat, pollable: Pid, hooked: bool)

  datatype Loop = Loop(list: seq<Ref>, polling: Option<Tid>, dormant: seq<Tid>, loc: map<Tid, Loc>, nextNode: nat)

  // ----- The list

  function Find(list: seq<Ref>, node: nat): (i: nat)
    ensures i <= |list|
    ensures i < |list| ==> list[i].node == node
    ensures forall j | 0 <= j < i :: list[j].node != node
  {
    if list == [] then 0 else if list[0].node == node then 0 else 1 + Find(list[1..], node)
  }

  function FindPollable(list: seq<Ref>, p: Pid): (i: nat)
    ensures i <= |list|
    ensures i < |list| ==> list[i].pollable == Some(p)
    ensures forall j | 0 <= j < i :: list[j].pollable != Some(p)
  {
    if list == [] then 0 else if list[0].pollable == Some(p) then 0 else 1 + FindPollable(list[1..], p)
  }

  function Erase(list: seq<Ref>, i: nat): seq<Ref>
    requires i < |list|
  {
    list[..i] + list[i + 1..]
  }

  /** The pollables registered, in list order. */
  function Live(list: seq<Ref>): seq<Pid> {
    if list == [] then []
    else (if list[0].pollable.Some? then [list[0].pollable.value] else []) + Live(list[1..])
  }

  // ----- Steps

  datatype Step =
    | Add(p: Pid)
    | Remove(p: Pid)
    | Begin(t: Tid)    // service_pollables starts a pass
    | Return(t: Tid)   // a poll() call returns
    | Block(t: Tid)    // the thread is about to block: its hook runs
    | Wake(t: Tid)     // an appointed thread gets to run

  ghost predicate Enabled(s: Loop, st: Step) {
    match st
    case Add(p) => p !in Live(s.list)
    case Remove(p) => p in Live(s.list)
    case Begin(t) => t in s.loc && s.loc[t].Top?
    case Return(t) => t in s.loc && s.loc[t].InPoll?
    case Block(t) => t in s.loc && s.loc[t].InPoll? && !s.loc[t].hooked
    case Wake(t) => t in s.loc && s.loc[t].Appointed?
  }

  /** From list position `i`, takes a reference on the next registered pollable
      and enters its poll(); at the end of the list the pass is over.  A
      removed node on the way is erased if nobody holds it. */
  function EnterFrom(s: Loop, t: Tid, i: nat): (Loop, Option<Pid>)
    requires i <= |s.list|
    decreases |s.list| - i
  {
    if i == |s.list| then (s.(loc := s.loc[t := Top]), None)
    else
      var r := s.list[i];
      if r.pollable.Some? then
        (s.(list := s.list[i := r.(refCnt := r.refCnt + 1)],
            loc := s.loc[t := InPoll(r.node, r.pollable.value, false)]), r.pollable)
      else if r.refCnt == 0 then EnterFrom(s.(list := Erase(s.list, i)), t, i)
      else EnterFrom(s, t, i + 1)
  }

  /** Gives back the reference of the node at `i`; also the position after it. */
  function Release(list: seq<Ref>, i: nat): (seq<Ref>, nat)
    requires i < |list|
  {
    var r := list[i].(refCnt := list[i].refCnt - 1);
    if r.refCnt == 0 && r.pollable.None? then (Erase(list, i), i) else (list[i := r], i + 1)
  }

  /** The successor state, and the pollable whose poll() was started if any. */
  function Next(s: Loop, st: Step): (Loop, Option<Pid>)
    requires Enabled(s, st)
  {
    match st
    case Add(p) =>
      (s.(list := s.list + [Ref(s.nextNode, Some(p), 0)], nextNode := s.nextNode + 1), None)
    case Remove(p) =>
      var i := FindPollable(s.list, p);
      if i == |s.list| then (s, None)
      else
        var list := s.list[i := s.list[i].(pollable := None)];
        (s.(list := if list[i].refCnt == 0 then Erase(list, i) else list), None)
    case Begin(t) => EnterFrom(s, t, 0)
    case Return(t) =>
      var i := Find(s.list, s.loc[t].node);
      if i == |s.list| then (s, None)
      else
        var (list, j) := Release(s.list, i);
        if s.polling == Some(t) then EnterFrom(s.(list := list), t, j)
        else if s.polling.Some? then
          (s.(list := list, dormant := [t] + s.dormant, loc := s.loc[t := Dormant]), None)
        else (s.(list := list, polling := Some(t), loc := s.loc[t := Top]), None)
    case Block(t) =>
      var i := Find(s.list, s.loc[t].node);
      if i == |s.list| then (s, None)
      else
        var list := s.list[i + 1..] + s.list[..i + 1];
        var loc := s.loc[t := s.loc[t].(hooked := true)];
        if s.dormant != [] then
          (s.(list := list, polling := Some(s.dormant[0]), dormant := s.dormant[1..],
              loc := loc[s.dormant[0] := Appointed]), None)
        else (s.(list := list, polling := None, loc := loc), None)
    case Wake(t) => (s.(loc := s.loc[t := Top]), None)
  }

  // ----- The invariant

  /** The threads inside poll() of a node. */
  ghost function Inside(loc: map<Tid, Loc>, node: nat): set<Tid> {
    set t | t in loc && loc[t].InPoll? && loc[t].node == node
  }

  predicate At(l: Loc, node: nat) { l.InPoll? && l.node == node }

  /** Not dormant, and not having handed over: such a thread is the polling one. */
  predicate Active(l: Loc) {
    l.Top? || l.Appointed? || (l.InPoll? && !l.hooked)
  }

  /** Nodes are distinct, and below the next fresh identity. */
  ghost predicate NodesOK(list: seq<Ref>, nextNode: nat) {
    && (forall r | r in list :: r.node < nextNode)
    && (forall i, j | 0 <= i < j < |list| :: list[i].node != list[j].node)
  }

  /** A pollable is registered at most once. */
  ghost predicate PollablesOK(list: seq<Ref>) {
    forall r, q | r in list && q in list && r.pollable.Some? && r.pollable == q.pollable :: r.node == q.node
  }

  /** A reference count is the number of threads inside, and a removed node
      stays exactly while that is not zero. */
  ghost predicate CountsOK(list: seq<Ref>, loc: map<Tid, Loc>) {
    forall r | r in list :: r.refCnt == |Inside(loc, r.node)| && (r.pollable.None? ==> r.refCnt > 0)
  }

  /** A thread inside poll() holds a node of the list, the pollable's own or one
      it has been removed from. */
  ghost predicate InsideOK(list: seq<Ref>, loc: map<Tid, Loc>) {
    forall t | t in loc && loc[t].InPoll? :: Holds(list, loc[t].node, loc[t].pollable)
  }

  ghost predicate Holds(list: seq<Ref>, node: nat, p: Pid) {
    exists r :: r in list && r.node == node && (r.pollable.None? || r.pollable == Some(p))
  }

  ghost predicate ListInv(list: seq<Ref>, nextNode: nat, loc: map<Tid, Loc>) {
    NodesOK(list, nextNode) && PollablesOK(list) && CountsOK(list, loc) && InsideOK(list, loc)
  }

  /** Each pool thread is the polling one, dormant, or inside a poll() that
      blocked; nobody is dormant while there is no polling thread. */
  ghost predicate ThreadsOK(polling: Option<Tid>, dormant: seq<Tid>, loc: map<Tid, Loc>) {
    && (polling.Some? ==> polling.value in loc)
    && (forall t | t in loc :: polling == Some(t) <==> Active(loc[t]))
    && (forall t :: t in dormant <==> t in loc && loc[t].Dormant?)
    && (forall i, j | 0 <= i < j < |dormant| :: dormant[i] != dormant[j])
    && (polling.None? ==> dormant == [])
  }

  ghost predicate Inv(s: Loop) {
    ListInv(s.list, s.nextNode, s.loc) && ThreadsOK(s.polling, s.dormant, s.loc)
  }

  // ----- Facts about the list

  lemma InsideUpdate(loc: map<Tid, Loc>, t: Tid, l: Loc, node: nat)
    ensures Inside(loc[t := l], node)
            == Inside(loc, node) - {t} + (if l.InPoll? && l.node == node then {t} else {})
  {
  }

  /** The first registered pollable at or after `i`. */
  function NextLive(list: seq<Ref>, i: nat): (j: nat)
    requires i <= |list|
    ensures i <= j <= |list|
    ensures j < |list| ==> list[j].pollable.Some?
    ensures forall k | i <= k < j :: list[k].pollable.None?
    decreases |list| - i
  {
    if i == |list| || list[i].pollable.Some? then i else NextLive(list, i + 1)
  }

  ghost function Entered(s: Loop, t: Tid, j: nat): (Loop, Option<Pid>)
    requires j < |s.list| ==> s.list[j].pollable.Some?
  {
    if j >= |s.list| then (s.(loc := s.loc[t := Top]), None)
    else
      var r := s.list[j];
      (s.(list := s.list[j := r.(refCnt := r.refCnt + 1)],
          loc := s.loc[t := InPoll(r.node, r.pollable.value, false)]), r.pollable)
  }

  /** While removed nodes are held by someone, entering erases none. */
  lemma {:induction false} EnterIs(s: Loop, t: Tid, i: nat)
    requires i <= |s.list| && forall k | 0 <= k < |s.list| && s.list[k].pollable.None? :: s.list[k].refCnt > 0
    ensures EnterFrom(s, t, i) == Entered(s, t, NextLive(s.list, i))
    decreases |s.list| - i
  {
    if i < |s.list| && s.list[i].pollable.None? {
      EnterIs(s, t, i + 1);
    }
  }

  lemma FindUnique(list: seq<Ref>, nextNode: nat, i: nat)
    requires NodesOK(list, nextNode) && i < |list|
    ensures Find(list, list[i].node) == i
  {
  }

  lemma PollableAt(list: seq<Ref>, nextNode: nat, i: nat, p: Pid)
    requires NodesOK(list, nextNode) && PollablesOK(list) && i < |list| && list[i].pollable == Some(p)
    ensures FindPollable(list, p) == i
  {
    assert list[i] in list && forall j | 0 <= j < i :: list[j] in list;
  }

  // ----- Every step keeps the invariant

  /** Changing the entry of one node, but not which node it is. */
  lemma SetOne(list: seq<Ref>, j: nat, r: Ref, nextNode: nat)
    requires NodesOK(list, nextNode) && j < |list| && r.node == list[j].node
    ensures NodesOK(list[j := r], nextNode)
    ensures forall x :: x in list[j := r] <==> x == r || (x in list && x.node != r.node)
  {
    var l := list[j := r];
    forall x ensures x in l <==> x == r || (x in list && x.node != r.node) {
      if x in l && x != r {
        var i :| 0 <= i < |l| && l[i] == x;
        assert i != j && list[i] == x;
      }
      if x == r { assert l[j] == x; }
      if x in list && x.node != r.node {
        var i :| 0 <= i < |list| && list[i] == x;
        assert l[i] == x;
      }
    }
    forall x | x in l ensures x.node < nextNode { assert list[j] in list; }
  }

  lemma EraseIn(list: seq<Ref>, j: nat, nextNode: nat, x: Ref)
    requires NodesOK(list, nextNode) && j < |list|
    ensures x in Erase(list, j) <==> x in list && x.node != list[j].node
  {
    var l := Erase(list, j);
    if x in list && x.node != list[j].node {
      var i :| 0 <= i < |list| && list[i] == x;
      assert x == l[if i < j then i else i - 1];
    }
  }

  lemma EraseOne(list: seq<Ref>, j: nat, nextNode: nat)
    requires NodesOK(list, nextNode) && j < |list|
    ensures NodesOK(Erase(list, j), nextNode)
    ensures forall x :: x in Erase(list, j) <==> x in list && x.node != list[j].node
  {
    var l := Erase(list, j);
    assert forall i | 0 <= i < |l| :: l[i] == list[if i < j then i else i + 1];
    forall x ensures x in l <==> x in list && x.node != list[j].node { EraseIn(list, j, nextNode, x); }
  }

  lemma RotateAt(list: seq<Ref>, k: nat, nextNode: nat)
    requires NodesOK(list, nextNode) && k <= |list|
    ensures NodesOK(list[k..] + list[..k], nextNode)
    ensures forall x :: x in list[k..] + list[..k] <==> x in list
  {
    var l := list[k..] + list[..k];
    assert forall i | 0 <= i < |l| :: l[i] == if i < |list| - k then list[i + k] else list[i - (|list| - k)];
    forall x ensures x in l <==> x in list {
      if x in list {
        var i :| 0 <= i < |list| && list[i] == x;
        assert x == l[if i < k then i + (|list| - k) else i - k];
      }
    }
  }

  /** Counts after a thread moved: only the nodes it left or entered change. */
  lemma InsideMoved(loc: map<Tid, Loc>, t: Tid, l: Loc, node: nat)
    requires t in loc
    ensures |Inside(loc[t := l], node)|
            == |Inside(loc, node)| - (if At(loc[t], node) then 1 else 0) + (if At(l, node) then 1 else 0)
  {
    InsideUpdate(loc, t, l, node);
    var a := Inside(loc, node);
    assert At(loc[t], node) <==> t in a;
    assert t !in a ==> a - {t} == a;
  }

  lemma EnteredInv(s: Loop, t: Tid, j: nat)
    requires Inv(s) && t in s.loc && s.loc[t].Top?
    requires j < |s.list| ==> s.list[j].pollable.Some?
    ensures Inv(Entered(s, t, j).0)
  {
    var u := Entered(s, t, j).0;
    if j >= |s.list| {
      assert u == s;
    } else {
      var r := s.list[j];
      assert r in s.list;
      SetOne(s.list, j, r.(refCnt := r.refCnt + 1), s.nextNode);
      forall x | x in u.list ensures x.refCnt == |Inside(u.loc, x.node)| && (x.pollable.None? ==> x.refCnt > 0) {
        InsideMoved(s.loc, t, u.loc[t], x.node);
      }
      EnteredHolds(s, t, j);
    }
  }

  lemma EnteredHolds(s: Loop, t: Tid, j: nat)
    requires NodesOK(s.list, s.nextNode) && InsideOK(s.list, s.loc) && j < |s.list| && s.list[j].pollable.Some?
    ensures InsideOK(Entered(s, t, j).0.list, Entered(s, t, j).0.loc)
  {
    var u := Entered(s, t, j).0;
    var r := s.list[j];
    var r' := r.(refCnt := r.refCnt + 1);
    SetOne(s.list, j, r', s.nextNode);
    forall t' | t' in u.loc && u.loc[t'].InPoll? ensures Holds(u.list, u.loc[t'].node, u.loc[t'].pollable) {
      if t' == t {
        assert r' in u.list;
      } else {
        assert Holds(s.list, s.loc[t'].node, s.loc[t'].pollable);
        var x :| x in s.list && x.node == s.loc[t'].node && (x.pollable.None? || x.pollable == Some(s.loc[t'].pollable));
        SameNode(s.list, s.nextNode, x, j);
        assert (if x.node == r.node then r' else x) in u.list;
      }
    }
  }

  lemma SameNode(list: seq<Ref>, nextNode: nat, x: Ref, j: nat)
    requires NodesOK(list, nextNode) && j < |list| && x in list
    ensures x.node == list[j].node ==> x == list[j]
  {
  }

  /** The list differs in one node, which has a new entry or is gone. */
  ghost predicate Changed(list: seq<Ref>, list': seq<Ref>, was: Ref, now: Option<Ref>, nextNode: nat) {
    && was in list && NodesOK(list', nextNode)
    && (forall x :: x in list' <==> (x in list && x.node != was.node) || now == Some(x))
    && (now.Some? ==> now.value.node == was.node && (now.value.pollable.None? || now.value.pollable == was.pollable))
  }

  /** Threads only left nodes. */
  ghost predicate OnlyLeft(loc: map<Tid, Loc>, loc': map<Tid, Loc>) {
    forall t | t in loc' && loc'[t].InPoll? ::
      t in loc && loc[t].InPoll? && loc'[t].node == loc[t].node && loc'[t].pollable == loc[t].pollable
  }

  lemma ChangedOK(list: seq<Ref>, list': seq<Ref>, was: Ref, now: Option<Ref>, nextNode: nat, loc: map<Tid, Loc>, loc': map<Tid, Loc>)
    requires NodesOK(list, nextNode) && PollablesOK(list) && CountsOK(list, loc) && InsideOK(list, loc)
    requires Changed(list, list', was, now, nextNode) && OnlyLeft(loc, loc')
    requires forall r | r in list && r.node != was.node :: |Inside(loc', r.node)| == |Inside(loc, r.node)|
    requires now.Some? ==> now.value.refCnt == |Inside(loc', was.node)| && (now.value.pollable.None? ==> now.value.refCnt > 0)
    requires now.None? ==> Inside(loc', was.node) == {}
    ensures PollablesOK(list') && CountsOK(list', loc') && InsideOK(list', loc')
  {
    forall t | t in loc' && loc'[t].InPoll? ensures Holds(list', loc'[t].node, loc'[t].pollable) {
      assert Holds(list, loc[t].node, loc[t].pollable);
      var x :| x in list && x.node == loc[t].node && (x.pollable.None? || x.pollable == Some(loc[t].pollable));
      if x.node == was.node {
        var j :| 0 <= j < |list| && list[j] == was;
        SameNode(list, nextNode, x, j);
        assert t in Inside(loc', was.node);
        assert now.value in list';
      } else {
        assert x in list';
      }
    }
  }

  lemma AddInv(list: seq<Ref>, nextNode: nat, loc: map<Tid, Loc>, p: Pid)
    requires ListInv(list, nextNode, loc) && p !in Live(list)
    ensures ListInv(list + [Ref(nextNode, Some(p), 0)], nextNode + 1, loc)
  {
    var r := Ref(nextNode, Some(p), 0);
    var l := list + [r];
    assert forall x :: x in l <==> x in list || x == r;
    forall x | x in list ensures x.pollable != Some(p) {
      if x.pollable.Some? { LiveMember(list, x); }
    }
    forall t | t in loc && loc[t].InPoll? ensures Holds(l, loc[t].node, loc[t].pollable) && loc[t].node < nextNode {
      assert Holds(list, loc[t].node, loc[t].pollable);
      var x :| x in list && x.node == loc[t].node && (x.pollable.None? || x.pollable == Some(loc[t].pollable));
      assert x in l;
    }
    assert Inside(loc, nextNode) == {};
  }

  lemma {:induction false} LiveMember(list: seq<Ref>, r: Ref)
    requires r in list && r.pollable.Some?
    ensures r.pollable.value in Live(list)
  {
    if r != list[0] { LiveMember(list[1..], r); }
  }

  lemma {:induction false} LiveIn(list: seq<Ref>, p: Pid)
    requires p in Live(list)
    ensures FindPollable(list, p) < |list|
  {
    if list[0].pollable != Some(p) { LiveIn(list[1..], p); }
  }

  lemma RemoveInv(s: Loop, p: Pid)
    requires Inv(s) && Enabled(s, Remove(p))
    ensures Inv(Next(s, Remove(p)).0)
  {
    LiveIn(s.list, p);
    var i := FindPollable(s.list, p);
    var was := s.list[i];
    var r := was.(pollable := None);
    var list := s.list[i := r];
    assert was in s.list;
    SetOne(s.list, i, r, s.nextNode);
    if r.refCnt == 0 {
      EraseOne(list, i, s.nextNode);
      ChangedOK(s.list, Erase(list, i), was, None, s.nextNode, s.loc, s.loc);
    } else {
      ChangedOK(s.list, list, was, Some(r), s.nextNode, s.loc, s.loc);
    }
  }

  /** A thread gives back its node and goes elsewhere. */
  lemma ReleaseInv(s: Loop, t: Tid, l: Loc)
    requires Inv(s) && t in s.loc && s.loc[t].InPoll? && !l.InPoll?
    ensures Find(s.list, s.loc[t].node) < |s.list|
    ensures var list := Release(s.list, Find(s.list, s.loc[t].node)).0;
            ListInv(list, s.nextNode, s.loc[t := l])
  {
    assert Holds(s.list, s.loc[t].node, s.loc[t].pollable);
    var i := Find(s.list, s.loc[t].node);
    assert i < |s.list|;
    var was := s.list[i];
    assert was in s.list;
    var r := was.(refCnt := was.refCnt - 1);
    var loc := s.loc[t := l];
    forall n: nat ensures |Inside(loc, n)| == |Inside(s.loc, n)| - (if n == was.node then 1 else 0) {
      InsideMoved(s.loc, t, l, n);
    }
    SetOne(s.list, i, r, s.nextNode);
    if r.refCnt == 0 && r.pollable.None? {
      EraseOne(s.list, i, s.nextNode);
      ChangedOK(s.list, Erase(s.list, i), was, None, s.nextNode, s.loc, loc);
    } else {
      ChangedOK(s.list, s.list[i := r], was, Some(r), s.nextNode, s.loc, loc);
    }
  }

  lemma RotateInv(list: seq<Ref>, nextNode: nat, loc: map<Tid, Loc>, loc': map<Tid, Loc>, k: nat)
    requires ListInv(list, nextNode, loc) && k <= |list| && OnlyLeft(loc, loc') && OnlyLeft(loc', loc)
    ensures ListInv(list[k..] + list[..k], nextNode, loc')
  {
    var l := list[k..] + list[..k];
    RotateAt(list, k, nextNode);
    forall n: nat ensures Inside(loc', n) == Inside(loc, n) {}
    forall t | t in loc' && loc'[t].InPoll? ensures Holds(l, loc'[t].node, loc'[t].pollable) {
      assert Holds(list, loc[t].node, loc[t].pollable);
      var x :| x in list && x.node == loc[t].node && (x.pollable.None? || x.pollable == Some(loc[t].pollable));
      assert x in l;
    }
  }

  /** The hook appoints a dormant thread, or leaves nobody polling. */
  lemma AppointThreads(dormant: seq<Tid>, loc: map<Tid, Loc>, t: Tid)
    requires ThreadsOK(Some(t), dormant, loc) && loc[t].InPoll?
    ensures var loc' := loc[t := loc[t].(hooked := true)];
            if dormant == [] then ThreadsOK(None, [], loc')
            else ThreadsOK(Some(dormant[0]), dormant[1..], loc'[dormant[0] := Appointed])
  {
    if dormant != [] {
      var d := dormant[0];
      assert d in dormant && dormant == [d] + dormant[1..];
      forall x ensures x in dormant[1..] <==> x in dormant && x != d {
        if x in dormant[1..] {
          var k :| 0 <= k < |dormant[1..]| && dormant[1..][k] == x;
          assert dormant[k + 1] == x;
        }
      }
    }
  }

  /** The hook only runs in the polling thread. */
  lemma BlockInv(s: Loop, t: Tid)
    requires Inv(s) && Enabled(s, Block(t))
    ensures s.polling == Some(t) && Inv(Next(s, Block(t)).0)
  {
    assert Active(s.loc[t]);
    var u := Next(s, Block(t)).0;
    assert Holds(s.list, s.loc[t].node, s.loc[t].pollable);
    AppointThreads(s.dormant, s.loc, t);
    RotateInv(s.list, s.nextNode, s.loc, u.loc, Find(s.list, s.loc[t].node) + 1);
  }

  /** The thread that lost its role takes it back, or goes to rest. */
  lemma ReturnInv(s: Loop, t: Tid)
    requires Inv(s) && Enabled(s, Return(t))
    ensures Inv(Next(s, Return(t)).0)
  {
    if s.polling == Some(t) {
      ReturnPolling(s, t);
    } else {
      ReturnLate(s, t);
    }
  }

  lemma ReturnLate(s: Loop, t: Tid)
    requires Inv(s) && Enabled(s, Return(t)) && s.polling != Some(t)
    ensures Inv(Next(s, Return(t)).0)
  {
    if s.polling.Some? {
      ReleaseInv(s, t, Dormant);
      RestThreads(s.polling, s.dormant, s.loc, t);
    } else {
      ReleaseInv(s, t, Top);
      ReclaimThreads(s.dormant, s.loc, t);
    }
  }

  lemma ReclaimThreads(dormant: seq<Tid>, loc: map<Tid, Loc>, t: Tid)
    requires ThreadsOK(None, dormant, loc) && t in loc
    ensures ThreadsOK(Some(t), dormant, loc[t := Top])
  {
    assert t !in dormant;
  }

  lemma ReturnPolling(s: Loop, t: Tid)
    requires Inv(s) && Enabled(s, Return(t)) && s.polling == Some(t)
    ensures Inv(Next(s, Return(t)).0)
  {
    ReleaseInv(s, t, Top);
    var (list, j) := Release(s.list, Find(s.list, s.loc[t].node));
    ContinueInv(s.(list := list), t, j);
  }

  lemma ContinueInv(s: Loop, t: Tid, j: nat)
    requires ListInv(s.list, s.nextNode, s.loc[t := Top]) && ThreadsOK(s.polling, s.dormant, s.loc)
    requires s.polling == Some(t) && j <= |s.list|
    ensures Inv(EnterFrom(s, t, j).0)
  {
    var v := s.(loc := s.loc[t := Top]);
    assert ThreadsOK(v.polling, v.dormant, v.loc);
    AllHeld(s.list, v.loc);
    EnterIs(s, t, j);
    EnteredInv(v, t, NextLive(s.list, j));
    EnteredAgain(s, t, NextLive(s.list, j));
  }

  lemma AllHeld(list: seq<Ref>, loc: map<Tid, Loc>)
    requires CountsOK(list, loc)
    ensures forall k | 0 <= k < |list| && list[k].pollable.None? :: list[k].refCnt > 0
  {
    forall k | 0 <= k < |list| && list[k].pollable.None? ensures list[k].refCnt > 0 { assert list[k] in list; }
  }

  lemma EnteredAgain(s: Loop, t: Tid, j: nat)
    requires j < |s.list| ==> s.list[j].pollable.Some?
    ensures Entered(s.(loc := s.loc[t := Top]), t, j) == Entered(s, t, j)
  {
    var l := if j < |s.list| then InPoll(s.list[j].node, s.list[j].pollable.value, false) else Top;
    assert s.loc[t := Top][t := l] == s.loc[t := l];
  }

  lemma RestThreads(polling: Option<Tid>, dormant: seq<Tid>, loc: map<Tid, Loc>, t: Tid)
    requires ThreadsOK(polling, dormant, loc) && t in loc && polling.Some? && polling != Some(t) && !loc[t].Dormant?
    ensures ThreadsOK(polling, [t] + dormant, loc[t := Dormant])
  {
    assert t !in dormant;
    forall x ensures x in [t] + dormant <==> x == t || x in dormant {}
  }

  lemma StepInv(s: Loop, st: Step)
    requires Inv(s) && Enabled(s, st)
    ensures Inv(Next(s, st).0)
  {
    match st
    case Add(p) => AddInv(s.list, s.nextNode, s.loc, p);
    case Remove(p) => RemoveInv(s, p);
    case Begin(t) =>
      assert s.loc[t := Top] == s.loc && Active(s.loc[t]);
      ContinueInv(s, t, 0);
    case Return(t) => ReturnInv(s, t);
    case Block(t) => BlockInv(s, t);
    case Wake(t) => assert Active(s.loc[t]); WakeInv(s, t);
  }

  lemma WakeInv(s: Loop, t: Tid)
    requires Inv(s) && Enabled(s, Wake(t))
    ensures Inv(Next(s, Wake(t)).0)
  {
    forall n: nat ensures Inside(s.loc[t := Top], n) == Inside(s.loc, n) {}
  }

  // ----- What the invariant is for

  /** The state when run() enters the loop: the pool of `n - 1` threads lies
      dormant, the calling thread polls. */
  ghost function Initial(n: nat, ps: seq<Pid>): Loop
    requires n > 0
  {
    var dormant := seq(n - 1, i requires 0 <= i < n - 1 => n - 2 - i);
    var pool := [n - 1] + dormant;
    Loop(seq(|ps|, i requires 0 <= i < |ps| => Ref(i, Some(ps[i]), 0)), Some(n - 1), dormant,
         map t | t in pool :: if t == n - 1 then Top else Dormant, |ps|)
  }

  lemma InitialInv(n: nat, ps: seq<Pid>)
    requires n > 0 && forall i, j | 0 <= i < j < |ps| :: ps[i] != ps[j]
    ensures Inv(Initial(n, ps))
  {
    var s := Initial(n, ps);
    forall r | r in s.list ensures r.refCnt == |Inside(s.loc, r.node)| && r.pollable.Some? {
      assert Inside(s.loc, r.node) == {};
    }
    assert n - 1 !in s.dormant;
  }

  /** No assertion about `polling_thread` fails: a thread that starts a pass,
      wakes up, or runs its hook is the polling thread. */
  lemma OnlyThePollingThread(s: Loop, st: Step)
    requires Inv(s) && Enabled(s, st) && (st.Begin? || st.Wake? || st.Block?)
    ensures s.polling == Some(st.t)
  {
    assert Active(s.loc[st.t]);
  }

  ghost predicate HasNode(list: seq<Ref>, node: nat) { exists r :: r in list && r.node == node }

  predicate Removed(r: Ref, z: Option<Pid>) { r.pollable.None? || r.pollable == z }

  /** Entries persist; a removed one may be gone. */
  ghost predicate Tracks(list: seq<Ref>, list': seq<Ref>, z: Option<Pid>) {
    forall r | r in list ::
      && (HasNode(list', r.node) || Removed(r, z))
      && (forall r' | r' in list' && r'.node == r.node :: r'.pollable == if Removed(r, z) then None else r.pollable)
  }

  lemma SetTracks(list: seq<Ref>, i: nat, r: Ref, nextNode: nat, z: Option<Pid>)
    requires NodesOK(list, nextNode) && i < |list| && r.node == list[i].node
    requires r.pollable == (if Removed(list[i], z) then None else list[i].pollable)
    requires forall j | 0 <= j < |list| && j != i && z.Some? :: list[j].pollable != z
    ensures Tracks(list, list[i := r], z)
  {
    SetOne(list, i, r, nextNode);
    forall x | x in list ensures HasNode(list[i := r], x.node) {
      assert (if x.node == r.node then r else x) in list[i := r];
    }
    forall x, y | x in list && y in list[i := r] && x.node == y.node
      ensures y.pollable == if Removed(x, z) then None else x.pollable
    {
      SameNode(list, nextNode, x, i);
      if y != r {
        var j :| 0 <= j < |list| && list[j] == y;
        SameNode(list, nextNode, x, j);
      }
    }
  }

  lemma EraseTracks(list: seq<Ref>, i: nat, nextNode: nat, z: Option<Pid>)
    requires NodesOK(list, nextNode) && i < |list| && Removed(list[i], z)
    requires forall j | 0 <= j < |list| && j != i && z.Some? :: list[j].pollable != z
    ensures Tracks(list, Erase(list, i), z)
  {
    EraseOne(list, i, nextNode);
    forall x | x in list ensures HasNode(Erase(list, i), x.node) || Removed(x, z) {
      if x.node != list[i].node { assert x in Erase(list, i); } else { SameNode(list, nextNode, x, i); }
    }
    forall x, y | x in list && y in Erase(list, i) && x.node == y.node
      ensures y.pollable == if Removed(x, z) then None else x.pollable
    {
      var j :| 0 <= j < |list| && list[j] == y;
      SameNode(list, nextNode, x, j);
    }
  }

  lemma SameTracks(list: seq<Ref>, list': seq<Ref>, nextNode: nat)
    requires NodesOK(list, nextNode) && forall x :: x in list ==> x in list'
    requires forall x | x in list' :: x in list || x.node >= nextNode
    ensures Tracks(list, list', None)
  {
    forall x, y | x in list && y in list' && x.node == y.node ensures y.pollable == x.pollable {
      var j :| 0 <= j < |list| && list[j] == y;
      SameNode(list, nextNode, x, j);
    }
    forall x | x in list ensures HasNode(list', x.node) { assert x in list'; }
  }

  lemma RemoveTracks(s: Loop, p: Pid)
    requires Inv(s) && Enabled(s, Remove(p))
    ensures Tracks(s.list, Next(s, Remove(p)).0.list, Some(p))
  {
    LiveIn(s.list, p);
    var i := FindPollable(s.list, p);
    var r := s.list[i].(pollable := None);
    forall j | 0 <= j < |s.list| && j != i ensures s.list[j].pollable != Some(p) {
      assert s.list[j] in s.list && s.list[i] in s.list;
    }
    if r.refCnt == 0 {
      assert Erase(s.list[i := r], i) == Erase(s.list, i);
      EraseTracks(s.list, i, s.nextNode, Some(p));
    } else {
      SetTracks(s.list, i, r, s.nextNode, Some(p));
    }
  }

  lemma ReleaseTracks(list: seq<Ref>, i: nat, nextNode: nat)
    requires NodesOK(list, nextNode) && i < |list|
    ensures Tracks(list, Release(list, i).0, None)
  {
    var r := list[i].(refCnt := list[i].refCnt - 1);
    if r.refCnt == 0 && r.pollable.None? {
      EraseTracks(list, i, nextNode, None);
    } else {
      SetTracks(list, i, r, nextNode, None);
    }
  }

  lemma EnterTracks(s: Loop, t: Tid, j: nat)
    requires NodesOK(s.list, s.nextNode) && CountsOK(s.list, s.loc[t := Top]) && j <= |s.list|
    ensures Tracks(s.list, EnterFrom(s, t, j).0.list, None)
    ensures forall r | r in EnterFrom(s, t, j).0.list :: HasNode(s.list, r.node)
  {
    AllHeld(s.list, s.loc[t := Top]);
    EnterIs(s, t, j);
    var m := NextLive(s.list, j);
    if m < |s.list| {
      var r := s.list[m].(refCnt := s.list[m].refCnt + 1);
      SetTracks(s.list, m, r, s.nextNode, None);
      SetOne(s.list, m, r, s.nextNode);
      assert s.list[m] in s.list;
    } else {
      SameTracks(s.list, s.list, s.nextNode);
    }
  }

  lemma TracksOn(a: seq<Ref>, b: seq<Ref>, c: seq<Ref>)
    requires Tracks(a, b, None) && Tracks(b, c, None) && forall r | r in c :: HasNode(b, r.node)
    ensures Tracks(a, c, None)
  {
    forall r | r in a && r.pollable.Some? ensures HasNode(c, r.node) {
      var r' :| r' in b && r'.node == r.node;
    }
    forall r, r'' | r in a && r'' in c && r''.node == r.node ensures r''.pollable == r.pollable {
      var r' :| r' in b && r'.node == r''.node;
    }
  }

  /** After a step, an entry of the list is the same but for what the step did:
      it shows its pollable unless that is removed. */
  lemma StepTracks(s: Loop, st: Step)
    requires Inv(s) && Enabled(s, st)
    ensures Tracks(s.list, Next(s, st).0.list, if st.Remove? then Some(st.p) else None)
  {
    match st
    case Add(p) => SameTracks(s.list, Next(s, st).0.list, s.nextNode);
    case Remove(p) => RemoveTracks(s, p);
    case Begin(t) =>
      assert s.loc[t := Top] == s.loc;
      EnterTracks(s, t, 0);
    case Return(t) =>
      ReleaseInv(s, t, Top);
      var i := Find(s.list, s.loc[t].node);
      ReleaseTracks(s.list, i, s.nextNode);
      if s.polling == Some(t) {
        var (list, j) := Release(s.list, i);
        EnterTracks(s.(list := list), t, j);
        TracksOn(s.list, list, Next(s, st).0.list);
      }
    case Block(t) =>
      BlockInv(s, t);
      var k := Find(s.list, s.loc[t].node) + 1;
      if k <= |s.list| { RotateAt(s.list, k, s.nextNode); }
      SameTracks(s.list, Next(s, st).0.list, s.nextNode);
    case Wake(t) => SameTracks(s.list, s.list, s.nextNode);
  }

  /** A node is erased exactly when it is removed and nobody is inside. */
  lemma NodeLifetime(s: Loop, st: Step, r: Ref)
    requires Inv(s) && Enabled(s, st) && r in s.list
    ensures var u := Next(s, st).0;
            HasNode(u.list, r.node)
            <==> !(Removed(r, if st.Remove? then Some(st.p) else None) && Inside(u.loc, r.node) == {})
  {
    var u := Next(s, st).0;
    StepInv(s, st);
    StepTracks(s, st);
    forall t | t in Inside(u.loc, r.node) ensures HasNode(u.list, r.node) {
      assert Holds(u.list, u.loc[t].node, u.loc[t].pollable);
    }
    if HasNode(u.list, r.node) {
      var r' :| r' in u.list && r'.node == r.node;
      assert r'.refCnt == |Inside(u.loc, r.node)|;
    }
  }
}
