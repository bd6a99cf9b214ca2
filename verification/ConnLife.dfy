/** Connections on the poll loop (src/builtin/nox.cc): `Conn::poll`,
    `Conn::close` and `register_conn`, running as pollables of the loop. */
module ConnLife {
  import opened Basics
  import opened PollLoop
  import opened PollOrder

  type Dpid = nat

  /** `frees` counts the executions of `delete this`. */
  datatype Conn = Conn(dp: Dpid, closing: bool, pollCnt: int, frees: nat)

  datatype Nox = Nox(loop: Loop, conns: map<Pid, Conn>, connectionMap: map<Dpid, Pid>)

  datatype Act =
    | Register(dp: Dpid, conn: Pid)
    | Close(conn: Pid)
    | Turn(st: Step)

  // ----- Conn::poll and Conn::close

  /** The start of poll(). */
  function Enter(conns: map<Pid, Conn>, p: Option<Pid>): map<Pid, Conn> {
    if p.Some? && p.value in conns then conns[p.value := conns[p.value].(pollCnt := conns[p.value].pollCnt + 1)]
    else conns
  }

  /** The end of poll(): the last one out of a closing connection deletes it. */
  function Leave(conns: map<Pid, Conn>, p: Pid): map<Pid, Conn> {
    if p in conns then
      var c := conns[p].(pollCnt := conns[p].pollCnt - 1);
      conns[p := if c.pollCnt == 0 && c.closing then c.(frees := c.frees + 1) else c]
    else conns
  }

  function CloseConn(n: Nox, p: Pid): Nox
    requires p in n.conns && (!n.conns[p].closing ==> Enabled(n.loop, Remove(p)))
  {
    var c := n.conns[p];
    if c.closing then n
    else
      Nox(Next(n.loop, Remove(p)).0,
          n.conns[p := c.(closing := true, frees := if c.pollCnt == 0 then c.frees + 1 else c.frees)],
          n.connectionMap - {c.dp})
  }

  /** Creating the connection adds it to the loop; an older one with the same
      datapath id is closed before the new one takes its place in the map. */
  function RegisterConn(n: Nox, dp: Dpid, p: Pid): Nox
    requires Enabled(n.loop, Add(p)) && p !in n.conns
    requires dp in n.connectionMap ==>
      var q := n.connectionMap[dp];
      q in n.conns && (!n.conns[q].closing ==> q != p && Enabled(Next(n.loop, Add(p)).0, Remove(q)))
  {
    var m := n.(loop := Next(n.loop, Add(p)).0, conns := n.conns[p := Conn(dp, false, 0, 0)]);
    var k := if dp in m.connectionMap then CloseConn(m, m.connectionMap[dp]) else m;
    k.(connectionMap := k.connectionMap[dp := p])
  }

  /** A loop step, with the poll() calls it ends and starts. */
  function LoopStep(n: Nox, st: Step): Nox
    requires Enabled(n.loop, st)
  {
    var (loop, started) := Next(n.loop, st);
    var conns := if st.Return? then Leave(n.conns, n.loop.loc[st.t].pollable) else n.conns;
    n.(loop := loop, conns := Enter(conns, started))
  }

  /** close() needs a connection that still exists; other pollables come and go
      on their own. */
  ghost predicate Allowed(n: Nox, a: Act) {
    match a
    case Register(dp, p) => Enabled(n.loop, Add(p)) && p !in n.conns && Pollers(n.loop.loc, p) == {}
    case Close(p) => p in n.conns && n.conns[p].frees == 0
    case Turn(st) =>
      && Enabled(n.loop, st)
      && (st.Add? ==> st.p !in n.conns)
      && (st.Remove? ==> st.p !in n.conns)
  }

  // ----- The invariant

  ghost function Pollers(loc: map<Tid, Loc>, p: Pid): set<Tid> {
    set t | t in loc && loc[t].InPoll? && loc[t].pollable == p
  }

  /** An open connection is registered; a closed one is not, and it has been
      deleted, once, exactly if no poll() of it is running. */
  ghost predicate ConnOK(loop: Loop, p: Pid, c: Conn) {
    && (Registered(loop, p) <==> !c.closing)
    && c.pollCnt == |Pollers(loop.loc, p)|
    && c.frees == (if c.closing && c.pollCnt == 0 then 1 else 0)
  }

  /** The connection map names the open connections, by datapath id. */
  ghost predicate MapOK(conns: map<Pid, Conn>, connectionMap: map<Dpid, Pid>) {
    && (forall dp | dp in connectionMap ::
          connectionMap[dp] in conns && conns[connectionMap[dp]].dp == dp && !conns[connectionMap[dp]].closing)
    && (forall p | p in conns && !conns[p].closing :: conns[p].dp in connectionMap && connectionMap[conns[p].dp] == p)
  }

  ghost predicate ConnsOK(loop: Loop, conns: map<Pid, Conn>) {
    forall p | p in conns :: ConnOK(loop, p, conns[p])
  }

  ghost predicate NoxInv(n: Nox) {
    Inv(n.loop) && ConnsOK(n.loop, n.conns) && MapOK(n.conns, n.connectionMap)
  }

  // ----- How a loop step changes who is registered and who is inside

  lemma {:induction false} DropMember(q: seq<Pid>, z: Pid, p: Pid)
    ensures p in Drop(q, z) <==> p in q && p != z
  {
    if q != [] { DropMember(q[1..], z, p); }
  }

  lemma StepRegistered(s: Loop, st: Step, p: Pid)
    requires Inv(s) && Enabled(s, st)
    ensures Registered(Next(s, st).0, p) <==> (Registered(s, p) && st != Remove(p)) || st == Add(p)
    ensures Next(s, st).1 == Some(p) ==> Registered(s, p)
  {
    StepInv(s, st);
    StepOrder(s, st);
    OrderHolds(s);
    OrderHolds(Next(s, st).0);
    QueueMember(Order(s), Order(Next(s, st).0), st, Next(s, st).1, p);
  }

  lemma QueueMember(q: seq<Pid>, q': seq<Pid>, st: Step, started: Option<Pid>, p: Pid)
    requires QueueStep(q, q', st, started) && (started.Some? ==> !st.Add? && !st.Remove?)
    ensures p in q' <==> (p in q && st != Remove(p)) || st == Add(p)
    ensures started == Some(p) ==> p in q
  {
    match started
    case Some(z) => assert q == [z] + q[1..];
    case None =>
      match st
      case Add(z) =>
        var k :| 0 <= k <= |q| && q' == q[..k] + [z] + q[k..];
        assert q == q[..k] + q[k..];
      case Remove(z) => DropMember(q, z, p);
      case _ =>
  }

  predicate Polls(l: Loc, p: Pid) { l.InPoll? && l.pollable == p }

  lemma PollersMoved(loc: map<Tid, Loc>, t: Tid, l: Loc, p: Pid)
    requires t in loc
    ensures |Pollers(loc[t := l], p)|
            == |Pollers(loc, p)| - (if Polls(loc[t], p) then 1 else 0) + (if Polls(l, p) then 1 else 0)
  {
    var a := Pollers(loc, p);
    assert Pollers(loc[t := l], p) == a - {t} + (if Polls(l, p) then {t} else {});
    assert Polls(loc[t], p) <==> t in a;
    assert t !in a ==> a - {t} == a;
  }

  lemma EnterPollers(s: Loop, t: Tid, j: nat, p: Pid)
    requires CountsOK(s.list, s.loc[t := Top]) && t in s.loc && j <= |s.list|
    ensures var (u, started) := EnterFrom(s, t, j);
            |Pollers(u.loc, p)| == |Pollers(s.loc, p)| - (if Polls(s.loc[t], p) then 1 else 0) + (if started == Some(p) then 1 else 0)
  {
    AllHeld(s.list, s.loc[t := Top]);
    EnterIs(s, t, j);
    var m := NextLive(s.list, j);
    PollersMoved(s.loc, t, if m < |s.list| then InPoll(s.list[m].node, s.list[m].pollable.value, false) else Top, p);
  }

  lemma StepPollers(s: Loop, st: Step, p: Pid)
    requires Inv(s) && Enabled(s, st)
    ensures var (u, started) := Next(s, st);
            |Pollers(u.loc, p)| == |Pollers(s.loc, p)|
              - (if st.Return? && s.loc[st.t].pollable == p then 1 else 0) + (if started == Some(p) then 1 else 0)
  {
    match st
    case Add(_) =>
    case Remove(_) =>
    case Begin(t) =>
      assert s.loc[t := Top] == s.loc;
      EnterPollers(s, t, 0, p);
    case Return(t) =>
      ReleaseInv(s, t, Top);
      var (list, j) := Release(s.list, Find(s.list, s.loc[t].node));
      if s.polling == Some(t) {
        EnterPollers(s.(list := list), t, j, p);
      } else {
        PollersMoved(s.loc, t, if s.polling.Some? then Dormant else Top, p);
      }
    case Block(t) => BlockPollers(s, t, p);
    case Wake(t) => PollersMoved(s.loc, t, Top, p);
  }

  lemma BlockPollers(s: Loop, t: Tid, p: Pid)
    requires Inv(s) && Enabled(s, Block(t))
    ensures Next(s, Block(t)).1 == None && |Pollers(Next(s, Block(t)).0.loc, p)| == |Pollers(s.loc, p)|
  {
    assert Pollers(Next(s, Block(t)).0.loc, p) == Pollers(s.loc, p) by {
      if s.dormant != [] { assert s.dormant[0] in s.dormant; }
    }
  }

  // ----- Every action keeps the invariant

  /** Only the counts of the connections entered or left change. */
  lemma LoopStepConns(n: Nox, st: Step, p: Pid)
    requires Enabled(n.loop, st)
    ensures p in LoopStep(n, st).conns <==> p in n.conns
    ensures p in n.conns ==>
      var c, c' := n.conns[p], LoopStep(n, st).conns[p];
      var left := st.Return? && n.loop.loc[st.t].pollable == p;
      && c'.dp == c.dp && c'.closing == c.closing
      && c'.pollCnt == c.pollCnt - (if left then 1 else 0) + (if Next(n.loop, st).1 == Some(p) then 1 else 0)
      && c'.frees == c.frees + (if left && c.closing && c.pollCnt == 1 then 1 else 0)
  {
  }

  lemma LoopStepConn(n: Nox, st: Step, p: Pid)
    requires Inv(n.loop) && Allowed(n, Turn(st)) && p in n.conns && ConnOK(n.loop, p, n.conns[p])
    ensures p in LoopStep(n, st).conns && ConnOK(LoopStep(n, st).loop, p, LoopStep(n, st).conns[p])
  {
    StepRegistered(n.loop, st, p);
    StepPollers(n.loop, st, p);
    LoopStepConns(n, st, p);
  }

  lemma LoopStepInv(n: Nox, st: Step)
    requires NoxInv(n) && Allowed(n, Turn(st))
    ensures NoxInv(LoopStep(n, st))
  {
    var m := LoopStep(n, st);
    StepInv(n.loop, st);
    forall p ensures p in m.conns <==> p in n.conns { LoopStepConns(n, st, p); }
    forall p | p in m.conns ensures ConnOK(m.loop, p, m.conns[p]) { LoopStepConn(n, st, p); }
    forall p | p in m.conns ensures m.conns[p].dp == n.conns[p].dp && m.conns[p].closing == n.conns[p].closing {
      LoopStepConns(n, st, p);
    }
    MapSame(n.conns, m.conns, n.connectionMap);
  }

  lemma MapSame(conns: map<Pid, Conn>, conns': map<Pid, Conn>, connectionMap: map<Dpid, Pid>)
    requires MapOK(conns, connectionMap) && forall p :: p in conns' <==> p in conns
    requires forall p | p in conns' :: conns'[p].dp == conns[p].dp && conns'[p].closing == conns[p].closing
    ensures MapOK(conns', connectionMap)
  {
  }

  lemma CloseInv(n: Nox, p: Pid)
    requires NoxInv(n) && p in n.conns
    ensures !n.conns[p].closing ==> Enabled(n.loop, Remove(p))
    ensures NoxInv(CloseConn(n, p))
  {
    assert ConnOK(n.loop, p, n.conns[p]);
    if !n.conns[p].closing {
      StepInv(n.loop, Remove(p));
      CloseAll(n, p);
      CloseMap(n.conns, n.connectionMap, p, CloseConn(n, p).conns[p]);
    }
  }

  lemma CloseAll(n: Nox, p: Pid)
    requires Inv(n.loop) && ConnsOK(n.loop, n.conns) && p in n.conns && !n.conns[p].closing && Enabled(n.loop, Remove(p))
    ensures ConnsOK(CloseConn(n, p).loop, CloseConn(n, p).conns)
  {
    forall q | q in CloseConn(n, p).conns ensures ConnOK(CloseConn(n, p).loop, q, CloseConn(n, p).conns[q]) {
      CloseOne(n, p, q);
    }
  }

  /** The closed connection leaves the map. */
  lemma CloseMap(conns: map<Pid, Conn>, connectionMap: map<Dpid, Pid>, p: Pid, c: Conn)
    requires MapOK(conns, connectionMap) && p in conns && !conns[p].closing && c.closing
    ensures MapOK(conns[p := c], connectionMap - {conns[p].dp})
  {
  }

  lemma CloseOne(n: Nox, p: Pid, q: Pid)
    requires Inv(n.loop) && p in n.conns && !n.conns[p].closing && Enabled(n.loop, Remove(p))
    requires q in n.conns && ConnOK(n.loop, q, n.conns[q])
    ensures ConnOK(CloseConn(n, p).loop, q, CloseConn(n, p).conns[q])
  {
    StepRegistered(n.loop, Remove(p), q);
    StepPollers(n.loop, Remove(p), q);
  }

  /** Registering is: the loop takes the pollable, the older connection with
      that datapath id is closed, and the new one goes into the map. */
  lemma RegisterInv(n: Nox, dp: Dpid, p: Pid)
    requires NoxInv(n) && Allowed(n, Register(dp, p))
    ensures dp in n.connectionMap ==>
      var q := n.connectionMap[dp];
      q in n.conns && (!n.conns[q].closing ==> q != p && Enabled(Next(n.loop, Add(p)).0, Remove(q)))
    ensures NoxInv(RegisterConn(n, dp, p))
  {
    var n1 := LoopStep(n, Add(p));
    LoopStepInv(n, Add(p));
    var n2 := n1;
    if dp in n.connectionMap {
      CloseInv(n1, n.connectionMap[dp]);
      n2 := CloseConn(n1, n.connectionMap[dp]);
    }
    StepRegistered(n.loop, Add(p), p);
    ClosedElsewhere(n1, dp, p);
    Admit(n2, dp, p);
    RegisterIs(n, dp, p);
  }

  lemma RegisterIs(n: Nox, dp: Dpid, p: Pid)
    requires Enabled(n.loop, Add(p)) && p !in n.conns
    requires dp in n.connectionMap ==>
      var q := n.connectionMap[dp];
      q in n.conns && (!n.conns[q].closing ==> q != p && Enabled(Next(n.loop, Add(p)).0, Remove(q)))
    ensures var n1 := LoopStep(n, Add(p));
            var n2 := if dp in n.connectionMap then CloseConn(n1, n.connectionMap[dp]) else n1;
            RegisterConn(n, dp, p) == Nox(n2.loop, n2.conns[p := Conn(dp, false, 0, 0)], n2.connectionMap[dp := p])
  {
  }

  /** A new connection under a free datapath id. */
  lemma Admit(n: Nox, dp: Dpid, p: Pid)
    requires NoxInv(n) && p !in n.conns && Registered(n.loop, p) && Pollers(n.loop.loc, p) == {} && dp !in n.connectionMap
    ensures NoxInv(Nox(n.loop, n.conns[p := Conn(dp, false, 0, 0)], n.connectionMap[dp := p]))
  {
  }

  /** Closing the older connection does not touch the new one. */
  lemma ClosedElsewhere(n: Nox, dp: Dpid, p: Pid)
    requires NoxInv(n) && p !in n.conns && Registered(n.loop, p) && Pollers(n.loop.loc, p) == {}
    ensures var m := if dp in n.connectionMap then CloseConn(n, n.connectionMap[dp]) else n;
            Registered(m.loop, p) && Pollers(m.loop.loc, p) == {} && dp !in m.connectionMap && m.conns.Keys == n.conns.Keys
  {
    if dp in n.connectionMap {
      var q := n.connectionMap[dp];
      CloseInv(n, q);
      StepRegistered(n.loop, Remove(q), p);
    }
  }

  function Do(n: Nox, a: Act): Nox
    requires NoxInv(n) && Allowed(n, a)
  {
    match a
    case Register(dp, p) => RegisterInv(n, dp, p); RegisterConn(n, dp, p)
    case Close(p) => CloseInv(n, p); CloseConn(n, p)
    case Turn(st) => LoopStep(n, st)
  }

  lemma ActInv(n: Nox, a: Act)
    requires NoxInv(n) && Allowed(n, a)
    ensures NoxInv(Do(n, a))
  {
    match a
    case Register(dp, p) => RegisterInv(n, dp, p);
    case Close(p) => CloseInv(n, p);
    case Turn(st) => LoopStepInv(n, st);
  }

  // ----- Runs

  ghost predicate Trace(ns: seq<Nox>, acts: seq<Act>) {
    && |ns| == |acts| + 1
    && forall i | 0 <= i < |acts| && NoxInv(ns[i]) :: Allowed(ns[i], acts[i]) && ns[i + 1] == Do(ns[i], acts[i])
  }

  lemma {:induction false} TraceInv(ns: seq<Nox>, acts: seq<Act>, k: nat)
    requires Trace(ns, acts) && NoxInv(ns[0]) && k <= |acts|
    ensures NoxInv(ns[k])
  {
    if k > 0 {
      TraceInv(ns, acts, k - 1);
      ActInv(ns[k - 1], acts[k - 1]);
    }
  }

  /** The poll() call an action starts. */
  ghost function Entering(n: Nox, a: Act): Option<Pid>
    requires Allowed(n, a)
  {
    if a.Turn? then Next(n.loop, a.st).1 else None
  }

  /** A connection never reopens, and deletions only add up. */
  ghost predicate OnlyMore(c: Conn, d: Conn) { (c.closing ==> d.closing) && c.frees <= d.frees }

  lemma CloseMonotone(n: Nox, q: Pid, p: Pid)
    requires q in n.conns && (!n.conns[q].closing ==> Enabled(n.loop, Remove(q))) && p in n.conns
    ensures p in CloseConn(n, q).conns && OnlyMore(n.conns[p], CloseConn(n, q).conns[p])
  {
  }

  lemma RegisterMonotone(n: Nox, dp: Dpid, q: Pid, p: Pid)
    requires NoxInv(n) && Allowed(n, Register(dp, q)) && p in n.conns
    ensures p in Do(n, Register(dp, q)).conns && OnlyMore(n.conns[p], Do(n, Register(dp, q)).conns[p])
  {
    RegisterInv(n, dp, q);
    RegisterIs(n, dp, q);
    if dp in n.connectionMap { CloseMonotone(LoopStep(n, Add(q)), n.connectionMap[dp], p); }
  }

  lemma ActMonotone(n: Nox, a: Act, p: Pid)
    requires NoxInv(n) && Allowed(n, a) && p in n.conns
    ensures p in Do(n, a).conns && OnlyMore(n.conns[p], Do(n, a).conns[p])
  {
    match a
    case Register(dp, q) => RegisterMonotone(n, dp, q, p);
    case Close(q) =>
      CloseInv(n, q);
      CloseMonotone(n, q, p);
    case Turn(st) => LoopStepConns(n, st, p);
  }

  lemma {:induction false} ClosedForever(ns: seq<Nox>, acts: seq<Act>, a: nat, b: nat, p: Pid)
    requires Trace(ns, acts) && NoxInv(ns[0]) && a <= b < |acts| && p in ns[a].conns && ns[a].conns[p].closing
    ensures p in ns[b].conns && ns[b].conns[p].closing && ns[a].conns[p].frees <= ns[b].conns[p].frees
    decreases b - a
  {
    TraceInv(ns, acts, a);
    if a < b {
      ActMonotone(ns[a], acts[a], p);
      ClosedForever(ns, acts, a + 1, b, p);
    }
  }

  /** Once closed, a connection is never entered again; it is deleted at most
      once, and by the time no poll() of it is running it has been; while one
      is running it has not. */
  lemma ClosedOnce(ns: seq<Nox>, acts: seq<Act>, a: nat, b: nat, p: Pid)
    requires Trace(ns, acts) && NoxInv(ns[0]) && a <= b < |acts| && p in ns[a].conns && ns[a].conns[p].closing
    ensures Allowed(ns[b], acts[b]) && Entering(ns[b], acts[b]) != Some(p)
    ensures p in ns[b].conns && ns[b].conns[p].frees == if Pollers(ns[b].loop.loc, p) == {} then 1 else 0
    ensures ns[a].conns[p].frees == 1 ==> Pollers(ns[b].loop.loc, p) == {}
  {
    TraceInv(ns, acts, a);
    TraceInv(ns, acts, b);
    ClosedForever(ns, acts, a, b, p);
    assert ConnOK(ns[b].loop, p, ns[b].conns[p]);
    if acts[b].Turn? { StepRegistered(ns[b].loop, acts[b].st, p); }
  }

  /** What a closed connection is. */
  lemma ClosedNow(n: Nox, p: Pid)
    requires NoxInv(n) && p in n.conns && n.conns[p].closing
    ensures !Registered(n.loop, p) && (n.conns[p].frees == 1 <==> n.conns[p].pollCnt == 0)
    ensures n.conns[p].dp in n.connectionMap ==> n.connectionMap[n.conns[p].dp] != p
  {
    assert ConnOK(n.loop, p, n.conns[p]);
  }

  // ----- The connections object

  class Connections {
    var loop: PollLoop.Loop
    var conns: map<Pid, Conn>
    var connectionMap: map<Dpid, Pid>

    ghost function Value(): Nox
      reads this
    {
      Nox(loop, conns, connectionMap)
    }

    /** (Said of everything equal to the value, so that proofs use it as a whole.) */
    ghost predicate Valid()
      reads this
    {
      forall n | n == Value() :: NoxInv(n)
    }

    /** The connection is closed: off the loop and the map, and deleted at once
        unless it is being polled; no other is touched. */
    method Close(p: Pid)
      requires Valid() && Allowed(Value(), Act.Close(p))
      modifies this
      ensures Valid() && Value() == Do(old(Value()), Act.Close(p))
      ensures p in conns && conns[p].closing && !Registered(loop, p) && (conns[p].frees == 1 <==> conns[p].pollCnt == 0)
      ensures conns.Keys == old(conns).Keys && forall q | q in conns && q != p :: conns[q] == old(conns)[q]
      ensures conns[p].dp in connectionMap ==> connectionMap[conns[p].dp] != p
    {
      assert NoxInv(Value());
      CloseInv(Value(), p);
      Shut(p);
      ClosedNow(Value(), p);
    }

    /** The body of Conn::close. */
    method Shut(p: Pid)
      requires p in conns && (!conns[p].closing ==> Enabled(loop, Remove(p)))
      modifies this
      ensures Value() == CloseConn(old(Value()), p)
    {
      var c := conns[p];
      if !c.closing {
        c := c.(closing := true);
        connectionMap := connectionMap - {c.dp};
        loop := Next(loop, Remove(p)).0;
        if c.pollCnt == 0 { c := c.(frees := c.frees + 1); }
        conns := conns[p := c];
      }
    }

    /** register_conn. */
    method Register(dp: Dpid, p: Pid)
      requires Valid() && Allowed(Value(), Act.Register(dp, p))
      modifies this
      ensures Valid() && Value() == Do(old(Value()), Act.Register(dp, p))
      ensures dp in connectionMap && connectionMap[dp] == p && conns[p] == Conn(dp, false, 0, 0)
      ensures dp in old(connectionMap) ==> old(connectionMap)[dp] in conns && conns[old(connectionMap)[dp]].closing
    {
      assert NoxInv(Value());
      RegisterInv(Value(), dp, p);
      LoopStepInv(Value(), Add(p));
      loop := Next(loop, Add(p)).0;
      if dp in connectionMap {
        assert MapOK(conns, connectionMap) && conns[connectionMap[dp]].frees == 0 by {
          assert ConnOK(loop, connectionMap[dp], conns[connectionMap[dp]]);
        }
        Close(connectionMap[dp]);
      }
      RegisterIs(old(Value()), dp, p);
      conns := conns[p := Conn(dp, false, 0, 0)];
      connectionMap := connectionMap[dp := p];
    }

    /** The end of Conn::poll: if it was the last running poll of a connection that
        has been closed, the connection is deleted; no other changes. */
    method PollEnds(p: Pid)
      modifies this`conns
      ensures conns.Keys == old(conns).Keys && forall q | q in conns && q != p :: conns[q] == old(conns)[q]
      ensures p in conns ==>
                && conns[p].pollCnt == old(conns)[p].pollCnt - 1
                && conns[p].closing == old(conns)[p].closing
                && (conns[p].frees == old(conns)[p].frees + 1 <==> conns[p].closing && conns[p].pollCnt == 0)
                && (conns[p].frees == old(conns)[p].frees <==> !conns[p].closing || conns[p].pollCnt != 0)
      ensures conns == Leave(old(conns), p)
    {
      if p in conns {
        var c := conns[p].(pollCnt := conns[p].pollCnt - 1);
        if c.pollCnt == 0 && c.closing { c := c.(frees := c.frees + 1); }
        conns := conns[p := c];
      }
    }

    /** The beginning of Conn::poll. */
    method PollBegins(p: Option<Pid>)
      modifies this`conns
      ensures conns == Enter(old(conns), p)
    {
      if p.Some? && p.value in conns {
        conns := conns[p.value := conns[p.value].(pollCnt := conns[p.value].pollCnt + 1)];
      }
    }

    /** A step of the poll loop, with the poll() it ends and the one it begins. */
    method Turn(st: Step)
      requires Valid() && Allowed(Value(), Act.Turn(st))
      modifies this
      ensures Valid() && Value() == Do(old(Value()), Act.Turn(st)) && loop == Next(old(loop), st).0
    {
      assert NoxInv(Value());
      LoopStepInv(Value(), st);
      if st.Return? { PollEnds(loop.loc[st.t].pollable); }
      var (next, started) := Next(loop, st);
      loop := next;
      PollBegins(started);
      assert Value() == LoopStep(old(Value()), st);
    }
  }
}
