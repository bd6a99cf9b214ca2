/** What is sent arrives: without failures the receiver refuses nothing, and
    enough reads deliver every message accepted (src/lib/openflow.cc). */
module FramingProgress {
  import opened Basics
  import opened Framing

  // ----- Writing

  function Sum(plan: Plan): int { if plan == [] then 0 else plan[0] + Sum(plan[1..]) }

  predicate Positive(plan: Plan) { forall i | 0 <= i < |plan| :: plan[i] > 0 }

  lemma {:induction false} SumPositive(plan: Plan)
    requires Positive(plan)
    ensures Sum(plan) >= 0
  {
    if plan != [] { SumPositive(plan[1..]); }
  }

  /** Where every write takes something, as much goes out as the writes take; it is
      all, without error, if and only if they take that much. */
  lemma {:induction false} WritesWhatFits(size: nat, plan: Plan)
    requires Positive(plan)
    ensures WriteFully(size, plan) == if Sum(plan) >= size then (size, 0) else (Sum(plan), EAGAIN)
    decreases |plan|
  {
    SumPositive(plan);
    if size > 0 && plan != [] {
      SumPositive(plan[1..]);
      WritesWhatFits(size - if plan[0] <= size then plan[0] else size, plan[1..]);
    }
  }

  /** The pending buffer is gone if and only if the writes take all of it. */
  lemma FlushesIff(s: Sender, plan: Plan)
    requires s.tx.Some? && s.tx.value != [] && Positive(plan)
    ensures SendTx(s, plan).0.tx.None? <==> Sum(plan) >= |s.tx.value|
    ensures SendTx(s, plan).0.closed == s.closed
  {
    WritesWhatFits(|s.tx.value|, plan);
    SumPositive(plan);
  }

  /** Without failing writes a message is accepted if and only if what was pending
      before it goes out; how much of the message itself goes out does not matter. */
  lemma AcceptsIff(s: Sender, m: Bytes, plan1: Plan, plan2: Plan)
    requires m != [] && (s.tx.Some? ==> s.tx.value != []) && Positive(plan1) && Positive(plan2)
    ensures Send(s, m, plan1, plan2).2 == 0 <==> Sum(plan1) >= |Pending(s)|
    ensures Send(s, m, plan1, plan2).0.closed == s.closed
  {
    SumPositive(plan1);
    if s.tx.Some? {
      FlushesIff(s, plan1);
      SendTxIs(s, plan1);
    }
    var s1 := if s.tx.Some? then SendTx(s, plan1).0 else s;
    WritesWhatFits(|m|, plan2);
    SendTxIs(s1.(tx := Some(m)), plan2);
  }

  // ----- Reading

  /** The bytes a chunk brings; it does not fail. */
  function Brings(c: Chunk): Bytes { if c.Data? then c.bytes else [] }

  predicate Quiet(c: Chunk) { c.Data? || c.Again? }

  /** What a call takes up: the first chunk while the header is incomplete, and the
      second once it is complete and more is to come. */
  function TakenUp(rx: Bytes, c1: Chunk, c2: Chunk): Bytes {
    var rx1 := if |rx| < HEADER then rx + Brings(c1) else rx;
    if |rx1| >= HEADER && |rx1| < Length(rx1) then rx1 + Brings(c2) else rx1
  }

  /** A call in the middle of message `m`, cut anywhere: it returns the message if
      the chunks complete it, and otherwise keeps what it has for the next call. */
  lemma RecvExact(rx: Bytes, c1: Chunk, c2: Chunk, m: Bytes)
    requires Framed(m) && Quiet(c1) && Quiet(c2) && (|rx| < HEADER ==> Fits(c1, HEADER - |rx|))
    requires FitsBody(rx, c1, c2) && |rx| < |m| && TakenUp(rx, c1, c2) <= m
    ensures Recv(rx, c1, c2)
            == if TakenUp(rx, c1, c2) == m then ([], Message(m)) else (TakenUp(rx, c1, c2), Error(EAGAIN))
  {
    var rx1 := if |rx| < HEADER then rx + Brings(c1) else rx;
    var rx2 := TakenUp(rx, c1, c2);
    assert rx + [] == rx && rx1 + [] == rx1;
    assert rx1 <= rx2;
    if |rx1| >= HEADER {
      LengthSame(rx1, m);
      if |rx1| < |m| { BodyExact(rx1, c2, m); }
    }
  }

  lemma BodyExact(rx: Bytes, c: Chunk, m: Bytes)
    requires Framed(m) && HEADER <= |rx| < |m| && Quiet(c) && Fits(c, |m| - |rx|) && rx + Brings(c) <= m
    ensures ReadBody(rx, c) == if rx + Brings(c) == m then ([], Message(m)) else (rx + Brings(c), Error(EAGAIN))
  {
    LengthSame(rx, m);
    assert rx + [] == rx;
  }

  // ----- The two ends together

  predicate NoFailure(st: Step) { st.DoRecv? ==> !st.r1.Fails? && !st.r2.Fails? }

  /** As long as the sender has not closed, the messages not yet received come next
      in the stream, and the next one may have begun. */
  lemma NextMessage(l: Link) returns (m: Bytes)
    requires Inv(l) && !l.broken && !l.s.closed && l.rx + l.wire != []
    ensures |l.received| < |l.accepted| && m == l.accepted[|l.received|] && Framed(m)
    ensures |l.rx| < |m| && l.rx <= m && (l.rx + l.wire <= m || m <= l.rx + l.wire)
  {
    ReceivedIsPrefix(l);
    var rest := l.accepted[|l.received|..];
    var stream := l.rx + l.wire + Pending(l.s);
    assert l.accepted + l.dead == l.accepted && Flat(rest) == stream;
    assert rest != [];
    m := rest[0];
    assert m in l.accepted && Flat(rest) == m + Flat(rest[1..]);
    assert m <= stream && l.rx <= stream && l.rx + l.wire <= stream;
    if |l.rx| >= |m| {
      assert m <= l.rx;
      LengthSame(m, l.rx);
      assert false;
    }
  }

  /** The chunk a read gets, while the sender has not closed. */
  lemma ChunkIs(wire: Bytes, need: nat, r: Reply)
    requires !r.Fails?
    ensures var c := ChunkOf(wire, false, need, r);
            && Quiet(c) && Brings(c) <= wire && |Brings(c)| <= need && Brings(c) + Rest(wire, c) == wire
            && (need > 0 ==> Fits(c, need))
            && (wire != [] && need > 0 && r.Take? && r.n > 0 ==> Brings(c) != [])
  {
  }

  lemma Extends(rx: Bytes, b: Bytes, wire: Bytes, m: Bytes)
    requires b <= wire && (rx + wire <= m || m <= rx + wire) && |rx| + |b| <= |m|
    ensures rx + b <= m
  {
    assert rx + b <= rx + wire;
  }

  /** Outcome and state of a call agree on whether the receiver goes on. */
  lemma BrokenIff(l: Link, r1: Reply, r2: Reply)
    requires Partial(l.rx) && Sane(r1) && Sane(r2)
    ensures RecvStep(l, r1, r2).0.broken <==> RecvStep(l, r1, r2).1.Error? && RecvStep(l, r1, r2).1.e != EAGAIN
  {
  }

  /** The body of message `m` on a stream that goes on with it. */
  lemma BodyStepExact(l: Link, r: Reply, m: Bytes)
    requires HEADER <= |l.rx| <= |m| && !l.s.closed && !r.Fails?
    requires Framed(m) && l.rx <= m && (l.rx + l.wire <= m || m <= l.rx + l.wire)
    ensures BodyStep(l, r).1 in {Message(m), Error(EAGAIN)}
  {
    LengthSame(l.rx, m);
    if |l.rx| < |m| {
      var c := ChunkOf(l.wire, false, |m| - |l.rx|, r);
      ChunkIs(l.wire, |m| - |l.rx|, r);
      Extends(l.rx, Brings(c), l.wire, m);
      BodyExact(l.rx, c, m);
    } else {
      assert l.rx == m;
    }
  }

  lemma ReadQuiet(rx: Bytes, need: nat, c: Chunk)
    requires Quiet(c) && |Brings(c)| <= need && need > 0
    ensures Read(rx, need, c) == (rx + Brings(c), if |Brings(c)| < need then EAGAIN else 0)
  {
    assert rx + [] == rx;
  }

  /** A complete header is the one of message `m`. */
  lemma HeaderStepExact(l: Link, r: Reply, m: Bytes)
    requires |l.rx| < HEADER && !l.s.closed && !r.Fails?
    requires Framed(m) && (l.rx + l.wire <= m || m <= l.rx + l.wire)
    ensures var (u, e) := HeaderStep(l, r);
            && u.rx + u.wire == l.rx + l.wire && u.rx <= m && u.s == l.s
            && (if |u.rx| == HEADER then e == 0 && Length(u.rx) == |m| else |u.rx| < HEADER && e == EAGAIN)
            && |u.wire| <= |l.wire| && (l.wire != [] && r.Take? && r.n > 0 ==> |u.wire| < |l.wire|)
  {
    var c := ChunkOf(l.wire, false, HEADER - |l.rx|, r);
    ChunkIs(l.wire, HEADER - |l.rx|, r);
    Extends(l.rx, Brings(c), l.wire, m);
    ReadQuiet(l.rx, HEADER - |l.rx|, c);
    var rx := l.rx + Brings(c);
    assert rx + Rest(l.wire, c) == l.rx + (Brings(c) + Rest(l.wire, c));
    if |rx| == HEADER { LengthSame(rx, m); }
  }

  /** A call in the middle of message `m` on a stream that goes on with it. */
  lemma StepExact(l: Link, r1: Reply, r2: Reply, m: Bytes)
    requires Partial(l.rx) && !l.s.closed && !r1.Fails? && !r2.Fails?
    requires Framed(m) && |l.rx| < |m| && l.rx <= m && (l.rx + l.wire <= m || m <= l.rx + l.wire)
    ensures RecvStep(l, r1, r2).1 in {Message(m), Error(EAGAIN)}
  {
    if |l.rx| < HEADER {
      HeaderStepExact(l, r1, m);
      var u := HeaderStep(l, r1).0;
      if |u.rx| == HEADER { BodyStepExact(u, r2, m); }
    } else {
      BodyStepExact(l, r2, m);
    }
  }

  lemma RecvGoesOn(l: Link, r1: Reply, r2: Reply)
    requires Inv(l) && Enabled(l, DoRecv(r1, r2)) && !l.s.closed && !r1.Fails? && !r2.Fails?
    ensures !Next(l, DoRecv(r1, r2)).broken
  {
    BrokenIff(l, r1, r2);
    if l.rx + l.wire != [] {
      var m := NextMessage(l);
      StepExact(l, r1, r2, m);
    } else {
      assert l.rx == [] && l.wire == [];
    }
  }

  /** Without failures the receiver refuses nothing before the sender closes. */
  lemma {:induction false} NothingRefused(ls: seq<Link>, sts: seq<Step>, n: nat)
    requires Run(ls, sts) && n <= |sts| && ls[0] == Link(Sender(None, false), [], [], [], [], [], false)
    requires !ls[n].s.closed && forall i | 0 <= i < n :: NoFailure(sts[i])
    ensures !ls[n].broken
  {
    if n > 0 {
      RunDelivers(ls, sts, n - 1);
      var st := sts[n - 1];
      assert Enabled(ls[n - 1], st);
      assert !ls[n - 1].s.closed;
      NothingRefused(ls, sts, n - 1);
      if st.DoRecv? { RecvGoesOn(ls[n - 1], st.r1, st.r2); }
    }
  }

  // ----- Everything arrives

  /** A read for which the stream has something gets some of it. */
  predicate Reads(st: Step) { st.DoRecv? && st.r1.Take? && st.r1.n > 0 && st.r2.Take? && st.r2.n > 0 }

  lemma BodyTakes(l: Link, r: Reply)
    requires |l.rx| >= HEADER && Length(l.rx) >= |l.rx| && !l.s.closed && r.Take? && r.n > 0
    ensures var u := BodyStep(l, r).0;
            && |u.wire| <= |l.wire| && (l.wire != [] && Length(l.rx) > |l.rx| ==> |u.wire| < |l.wire|)
            && u.s == l.s && u.accepted == l.accepted && u.dead == l.dead
  {
    ChunkIs(l.wire, Length(l.rx) - |l.rx|, r);
  }

  lemma ReadTakes(l: Link, st: Step)
    requires Inv(l) && Enabled(l, st) && Reads(st) && !l.s.closed
    ensures var u := Next(l, st);
            && |u.wire| <= |l.wire| && (l.wire != [] ==> |u.wire| < |l.wire|)
            && u.s == l.s && u.accepted == l.accepted && u.dead == l.dead
  {
    if |l.rx| >= HEADER {
      BodyTakes(l, st.r2);
    } else if l.rx + l.wire != [] {
      var m := NextMessage(l);
      HeaderStepExact(l, st.r1, m);
      var u := HeaderStep(l, st.r1).0;
      if |u.rx| == HEADER { BodyTakes(u, st.r2); }
    }
  }

  /** Once nothing is pending, as many reads as there are bytes under way deliver
      every message accepted, however the stream cuts them. */
  lemma {:induction false} AllArrive(ls: seq<Link>, sts: seq<Step>, a: nat, b: nat)
    requires Run(ls, sts) && a <= b <= |sts| && Inv(ls[a]) && !ls[a].broken && !ls[a].s.closed && ls[a].s.tx.None?
    requires (forall i | a <= i < b :: Reads(sts[i])) && b - a >= |ls[a].wire|
    ensures ls[b].received == ls[b].accepted == ls[a].accepted
    decreases b - a
  {
    if a < b {
      var st := sts[a];
      StepInv(ls[a], st);
      ReadTakes(ls[a], st);
      RecvGoesOn(ls[a], st.r1, st.r2);
      AllArrive(ls, sts, a + 1, b);
    } else {
      EmptyIsDone(ls[a]);
    }
  }

  lemma WholeIsNotPartial(ms: seq<Bytes>)
    requires AllFramed(ms) && ms != []
    ensures !Partial(Flat(ms))
  {
    assert ms[0] in ms;
    LengthSame(ms[0], Flat(ms));
  }

  lemma EmptyIsDone(l: Link)
    requires Inv(l) && !l.broken && !l.s.closed && l.s.tx.None? && l.wire == []
    ensures l.received == l.accepted
  {
    ReceivedIsPrefix(l);
    assert l.accepted + l.dead == l.accepted && l.rx + [] + [] == l.rx;
    if l.accepted[|l.received|..] != [] { WholeIsNotPartial(l.accepted[|l.received|..]); }
  }

  /** From the start: any run without failures, then reads. */
  lemma RunArrives(ls: seq<Link>, sts: seq<Step>, a: nat, b: nat)
    requires Run(ls, sts) && a <= b <= |sts| && ls[0] == Link(Sender(None, false), [], [], [], [], [], false)
    requires (forall i | 0 <= i < a :: NoFailure(sts[i])) && !ls[a].s.closed && Pending(ls[a].s) == []
    requires (forall i | a <= i < b :: Reads(sts[i])) && b - a >= |ls[a].wire|
    ensures ls[b].received == ls[b].accepted == ls[a].accepted
  {
    RunDelivers(ls, sts, a);
    NothingRefused(ls, sts, a);
    AllArrive(ls, sts, a, b);
  }

  // ----- Ends and errors

  /** Once the sender has closed and all has been read, the receiver says so: a
      clean end between messages, a protocol error within one. */
  lemma EndReported(l: Link, r1: Reply, r2: Reply)
    requires Inv(l) && Enabled(l, DoRecv(r1, r2)) && l.s.closed && l.wire == [] && r1.Take? && r2.Take?
    ensures RecvStep(l, r1, r2).1 == Error(if l.rx == [] then EOF else EPROTO) && Next(l, DoRecv(r1, r2)).broken
  {
  }

  /** An error of the read that is due is passed on, and ends the connection. */
  lemma FailureReported(l: Link, r1: Reply, r2: Reply)
    requires Inv(l) && Enabled(l, DoRecv(r1, r2)) && if |l.rx| < HEADER then r1.Fails? else r2.Fails?
    ensures RecvStep(l, r1, r2).1 == Error(if |l.rx| < HEADER then r1.errno else r2.errno)
    ensures Next(l, DoRecv(r1, r2)).broken
  {
  }
}
