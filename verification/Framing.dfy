/** OpenFlow messages over a byte stream (src/lib/openflow.cc, src/lib/async_io.cc):
    partial writes on one side, arbitrary read chunks on the other. */
module Framing {
  import opened Basics

  type Bytes = seq<uint8>

  const EAGAIN := 11
  const EPROTO := 71
  const EOF := -1
  const HEADER := 8

  /** The length field of the header, in network byte order. */
  function Length(b: Bytes): nat
    requires |b| >= HEADER
  {
    b[2] as int * 256 + b[3] as int
  }

  /** A message whose length field tells its length. */
  predicate Framed(m: Bytes) { |m| >= HEADER && Length(m) == |m| }

  ghost predicate AllFramed(ms: seq<Bytes>) { forall m | m in ms :: Framed(m) }

  function Flat(ms: seq<Bytes>): Bytes { if ms == [] then [] else ms[0] + Flat(ms[1..]) }

  // ----- The sender

  /** The results of successive write calls: a positive number of bytes, or a
      negated errno.  No more results means no more room for now. */
  type Plan = seq<int>

  /** write_fully: how many bytes went out, and the error. */
  function WriteFully(size: nat, plan: Plan): (nat, int)
    decreases |plan|
  {
    if size == 0 then (0, 0)
    else if plan == [] then (0, EAGAIN)
    else if plan[0] <= 0 then (0, -plan[0])
    else
      var n := if plan[0] <= size then plan[0] else size;
      var (w, e) := WriteFully(size - n, plan[1..]);
      (n + w, e)
  }

  /** The pending buffer, and whether the stream was closed on an error. */
  datatype Sender = Sender(tx: Option<Bytes>, closed: bool)

  /** send_tx_buf: the sender afterwards, the bytes written, the error. */
  function SendTx(s: Sender, plan: Plan): (Sender, Bytes, int)
    requires s.tx.Some?
  {
    var tx := s.tx.value;
    var (n, e) := WriteFully(|tx|, plan);
    var n' := if n <= |tx| then n else |tx|;
    var rest := tx[n'..];
    if e != 0 then (Sender(Some(rest), s.closed || e != EAGAIN), tx[..n'], e)
    else if rest == [] then (Sender(None, s.closed), tx[..n'], 0)
    else (Sender(Some(rest), s.closed), tx[..n'], EAGAIN)
  }

  /** do_send_openflow: first what is pending, then the message. */
  function Send(s: Sender, m: Bytes, plan1: Plan, plan2: Plan): (Sender, Bytes, int) {
    var (s1, w1, e1) := if s.tx.Some? then SendTx(s, plan1) else (s, [], 0);
    if e1 != 0 then (s1, w1, e1)
    else
      var (s2, w2, e2) := SendTx(s1.(tx := Some(m)), plan2);
      (s2, w1 + w2, if e2 == EAGAIN then 0 else e2)
  }

  // ----- The receiver

  /** What a read call returns. */
  datatype Chunk = Data(bytes: Bytes) | Again | End | Fail(errno: int)

  datatype Received = Message(m: Bytes) | Error(e: int)

  /** do_read on top of the bytes `rx` of a message so far. */
  function Read(rx: Bytes, need: nat, c: Chunk): (Bytes, int) {
    match c
    case Data(bs) => (rx + bs, if |bs| < need then EAGAIN else 0)
    case Again => (rx, EAGAIN)
    case End => (rx, if rx == [] then EOF else EPROTO)
    case Fail(e) => (rx, e)
  }

  /** The rest of a message whose header is there. */
  function ReadBody(rx: Bytes, c: Chunk): (Bytes, Received)
    requires |rx| >= HEADER
  {
    if Length(rx) <= |rx| then ([], Message(rx))
    else
      var (rx', e) := Read(rx, Length(rx) - |rx|, c);
      if e != 0 then (rx', Error(e)) else ([], Message(rx'))
  }

  /** do_recv_openflow: the bytes kept for later, and the message or error. */
  function Recv(rx: Bytes, c1: Chunk, c2: Chunk): (Bytes, Received) {
    if |rx| < HEADER then
      var (rx1, e) := Read(rx, HEADER - |rx|, c1);
      if e != 0 then (rx1, Error(e))
      else if |rx1| < HEADER || Length(rx1) < HEADER then (rx1, Error(EPROTO))
      else ReadBody(rx1, c2)
    else ReadBody(rx, c2)
  }

  // ----- The two ends together

  /** `wire` is what was written and not yet read; `accepted` the messages that
      do_send_openflow took; `dead` one it was sending when the stream failed;
      `received` those that do_recv_openflow returned; `broken` once the
      receiver has closed its end. */
  datatype Link = Link(s: Sender, wire: Bytes, rx: Bytes, accepted: seq<Bytes>, dead: seq<Bytes>, received: seq<Bytes>, broken: bool)

  /** How the stream answers a read: with at most so many bytes, if there are
      any; not just now; or with an error. */
  datatype Reply = Take(n: nat) | NotNow | Fails(errno: int)

  datatype Step =
    | DoSend(m: Bytes, plan1: Plan, plan2: Plan)
    | TxRun(plan: Plan)
    | CloseSender
    | DoRecv(r1: Reply, r2: Reply)

  function Min(a: nat, b: nat): nat { if a <= b then a else b }

  /** The stream delivers in order what was written; its end shows only when all
      has been read and no more will come. */
  function ChunkOf(wire: Bytes, closed: bool, need: nat, r: Reply): Chunk {
    match r
    case NotNow => Again
    case Fails(e) => Fail(e)
    case Take(n) =>
      if wire == [] then (if closed then End else Again)
      else if n == 0 || need == 0 then Again
      else Data(wire[..Min(n, Min(need, |wire|))])
  }

  function Rest(wire: Bytes, c: Chunk): Bytes {
    if c.Data? && |c.bytes| <= |wire| then wire[|c.bytes|..] else wire
  }

  /** Only an errno that is neither 0 nor EAGAIN counts as a failure. */
  predicate Sane(r: Reply) { r.Fails? ==> r.errno != 0 && r.errno != EAGAIN }

  predicate Enabled(l: Link, st: Step) {
    match st
    case DoSend(m, _, _) => Framed(m) && !l.s.closed
    case TxRun(_) => l.s.tx.Some? && !l.s.closed
    case CloseSender => !l.s.closed
    case DoRecv(r1, r2) => !l.broken && Sane(r1) && Sane(r2)
  }

  function BodyStep(l: Link, r: Reply): (Link, Received)
    requires |l.rx| >= HEADER
  {
    var c := ChunkOf(l.wire, l.s.closed, if Length(l.rx) >= |l.rx| then Length(l.rx) - |l.rx| else 0, r);
    var (rx, got) := ReadBody(l.rx, c);
    var wire := if Length(l.rx) <= |l.rx| then l.wire else Rest(l.wire, c);
    (l.(rx := rx, wire := wire, received := if got.Message? then l.received + [got.m] else l.received,
        broken := match got case Message(_) => false case Error(e) => e != EAGAIN), got)
  }

  function HeaderStep(l: Link, r: Reply): (Link, int)
    requires |l.rx| < HEADER
  {
    var c := ChunkOf(l.wire, l.s.closed, HEADER - |l.rx|, r);
    var (rx, e) := Read(l.rx, HEADER - |l.rx|, c);
    (l.(rx := rx, wire := Rest(l.wire, c)), e)
  }

  function RecvStep(l: Link, r1: Reply, r2: Reply): (Link, Received) {
    if |l.rx| >= HEADER then BodyStep(l, r2)
    else
      var (l1, e) := HeaderStep(l, r1);
      if e != 0 then (l1.(broken := e != EAGAIN), Error(e))
      else if |l1.rx| < HEADER || Length(l1.rx) < HEADER then (l1.(broken := true), Error(EPROTO))
      else BodyStep(l1, r2)
  }

  function Next(l: Link, st: Step): Link
    requires Enabled(l, st)
  {
    match st
    case DoSend(m, plan1, plan2) =>
      var (s, w, e) := Send(l.s, m, plan1, plan2);
      var took := e == 0;
      var tried := !l.s.tx.Some? || SendTx(l.s, plan1).2 == 0;
      l.(s := s, wire := l.wire + w, accepted := if took then l.accepted + [m] else l.accepted,
         dead := if tried && !took then [m] else l.dead)
    case TxRun(plan) =>
      var (s, w, _) := SendTx(l.s, plan);
      l.(s := s, wire := l.wire + w)
    case CloseSender => l.(s := l.s.(closed := true))
    case DoRecv(r1, r2) => RecvStep(l, r1, r2).0
  }

  // ----- The invariant

  function Pending(s: Sender): Bytes { if s.tx.Some? then s.tx.value else [] }

  /** Nothing is lost, made up or reordered: what the receiver has, what is under
      way and what is pending make up the messages sent. */
  ghost predicate Conserved(l: Link) {
    Flat(l.received) + l.rx + l.wire + Pending(l.s) == Flat(l.accepted + l.dead)
  }

  /** The bytes kept by the receiver are a proper beginning of a message. */
  predicate Partial(rx: Bytes) { |rx| < HEADER || |rx| < Length(rx) }

  ghost predicate Inv(l: Link) {
    && AllFramed(l.accepted) && AllFramed(l.dead) && AllFramed(l.received)
    && Conserved(l)
    && (l.s.tx.Some? ==> l.s.tx.value != [])
    && (l.dead != [] ==> l.s.closed && |l.dead| == 1 && l.s.tx.Some?)
    && (!l.broken ==> Partial(l.rx))
  }

  lemma {:induction false} FlatConcat(a: seq<Bytes>, b: seq<Bytes>)
    ensures Flat(a + b) == Flat(a) + Flat(b)
  {
    if a == [] {
      assert a + b == b;
    } else {
      assert (a + b)[1..] == a[1..] + b;
      FlatConcat(a[1..], b);
    }
  }

  lemma FlatOne(m: Bytes)
    ensures Flat([m]) == m
  {
    assert [m][1..] == [];
  }

  /** All is written if there is no error, unless some write returned zero; an
      error leaves something unwritten. */
  lemma {:induction false} WriteFullyIs(size: nat, plan: Plan)
    ensures WriteFully(size, plan).0 <= size
    ensures WriteFully(size, plan).1 == 0 && 0 !in plan ==> WriteFully(size, plan).0 == size
    ensures WriteFully(size, plan).1 != 0 ==> WriteFully(size, plan).0 < size
    decreases |plan|
  {
    if size > 0 && plan != [] && plan[0] > 0 {
      var n := if plan[0] <= size then plan[0] else size;
      WriteFullyIs(size - n, plan[1..]);
    }
  }

  /** What is written and what stays pending are the buffer; it stays only on an
      error, and then it is not empty. */
  lemma SendTxIs(s: Sender, plan: Plan)
    requires s.tx.Some? && s.tx.value != []
    ensures var (s', w, e) := SendTx(s, plan);
            && w + Pending(s') == s.tx.value
            && (s'.tx.Some? <==> e != 0) && (s'.tx.Some? ==> s'.tx.value != [])
            && (e == 0 || e == EAGAIN ==> s'.closed == s.closed) && (e != 0 && e != EAGAIN ==> s'.closed)
  {
    WriteFullyIs(|s.tx.value|, plan);
  }

  lemma TxRunInv(l: Link, plan: Plan)
    requires Inv(l) && Enabled(l, TxRun(plan))
    ensures Inv(Next(l, TxRun(plan)))
  {
    SendTxIs(l.s, plan);
    var (s, w, e) := SendTx(l.s, plan);
    assert Flat(l.received) + l.rx + (l.wire + w) + Pending(s) == Flat(l.received) + l.rx + l.wire + (w + Pending(s));
  }

  /** A message is accepted, or refused before any of it is written, or lost with
      the stream. */
  lemma SendIs(s: Sender, m: Bytes, plan1: Plan, plan2: Plan)
    requires m != [] && (s.tx.Some? ==> s.tx.value != [])
    ensures var (s', w, e) := Send(s, m, plan1, plan2);
            var tried := !s.tx.Some? || SendTx(s, plan1).2 == 0;
            && w + Pending(s') == Pending(s) + (if tried then m else [])
            && (s'.tx.Some? ==> s'.tx.value != [])
            && (e == 0 ==> tried && s'.closed == s.closed)
            && (e != 0 && tried ==> s'.closed && s'.tx.Some?)
  {
    if s.tx.Some? { SendTxIs(s, plan1); }
    var (s1, w1, e1) := if s.tx.Some? then SendTx(s, plan1) else (s, [], 0);
    if e1 == 0 {
      SendTxIs(s1.(tx := Some(m)), plan2);
      var (s2, w2, e2) := SendTx(s1.(tx := Some(m)), plan2);
      assert w1 + w2 + Pending(s2) == w1 + (w2 + Pending(s2));
    }
  }

  lemma Shifted(front: Bytes, wire: Bytes, w: Bytes, left: Bytes, pending: Bytes, more: Bytes, total: Bytes)
    requires w + left == pending + more && front + wire + pending == total
    ensures front + (wire + w) + left == total + more
  {
    assert front + (wire + w) + left == front + wire + (w + left);
    assert front + wire + (pending + more) == front + wire + pending + more;
  }

  lemma SendConserved(l: Link, m: Bytes, plan1: Plan, plan2: Plan)
    requires Inv(l) && Enabled(l, DoSend(m, plan1, plan2))
    ensures Conserved(Next(l, DoSend(m, plan1, plan2)))
  {
    SendIs(l.s, m, plan1, plan2);
    var (s, w, e) := Send(l.s, m, plan1, plan2);
    var tried := !l.s.tx.Some? || SendTx(l.s, plan1).2 == 0;
    var more := if tried then [m] else [];
    FlatOne(m);
    FlatConcat(l.accepted, more);
    assert l.dead == [] && l.accepted + l.dead == l.accepted;
    assert Flat(more) == if tried then m else [];
    Shifted(Flat(l.received) + l.rx, l.wire, w, Pending(s), Pending(l.s), Flat(more), Flat(l.accepted));
    var u := Next(l, DoSend(m, plan1, plan2));
    assert u.accepted + u.dead == l.accepted + more;
  }

  lemma SendInv(l: Link, m: Bytes, plan1: Plan, plan2: Plan)
    requires Inv(l) && Enabled(l, DoSend(m, plan1, plan2))
    ensures Inv(Next(l, DoSend(m, plan1, plan2)))
  {
    SendIs(l.s, m, plan1, plan2);
    SendConserved(l, m, plan1, plan2);
  }

  // ----- The receiving side

  /** What a read adds comes off the wire. */
  lemma ReadIs(rx: Bytes, wire: Bytes, closed: bool, need: nat, r: Reply)
    requires need > 0
    ensures var c := ChunkOf(wire, closed, need, r);
            var (rx', e) := Read(rx, need, c);
            && rx' + Rest(wire, c) == rx + wire
            && |rx| <= |rx'| <= |rx| + need && rx <= rx' && (e == 0 ==> |rx'| == |rx| + need || (c.Fail? && rx' == rx))
            && (e == EAGAIN ==> |rx'| < |rx| + need)
            && (e == EOF && !c.Fail? ==> rx' == rx == [] && wire == [] && closed)
  {
    var c := ChunkOf(wire, closed, need, r);
    if c.Data? {
      assert c.bytes + wire[|c.bytes|..] == wire;
      assert rx + c.bytes + wire[|c.bytes|..] == rx + (c.bytes + wire[|c.bytes|..]);
    }
  }

  lemma LengthSame(a: Bytes, b: Bytes)
    requires HEADER <= |a| && a <= b
    ensures Length(a) == Length(b)
  {
  }

  /** `u` differs from `l` on the receiving side only, and has the same bytes. */
  ghost predicate KeepsBytes(l: Link, u: Link) {
    && u == l.(rx := u.rx, wire := u.wire, received := u.received, broken := u.broken)
    && Flat(u.received) + u.rx + u.wire == Flat(l.received) + l.rx + l.wire
    && AllFramed(u.received) && (!u.broken ==> Partial(u.rx))
  }

  lemma Regroup(a: Bytes, b: Bytes, c: Bytes, b': Bytes, c': Bytes)
    requires b + c == b' + c'
    ensures a + b + c == a + b' + c'
  {
    assert a + b + c == a + (b + c) && a + b' + c' == a + (b' + c');
  }

  /** The body: the bytes stay conserved, and a message that comes out is framed. */
  lemma BodyIs(l: Link, r: Reply)
    requires |l.rx| >= HEADER && Length(l.rx) >= |l.rx| && Sane(r) && AllFramed(l.received)
    ensures KeepsBytes(l, BodyStep(l, r).0)
    ensures BodyStep(l, r).1 == Error(EOF) ==> r == Fails(EOF)
  {
    if Length(l.rx) > |l.rx| {
      var need := Length(l.rx) - |l.rx|;
      var c := ChunkOf(l.wire, l.s.closed, need, r);
      var (rx, e) := Read(l.rx, need, c);
      ReadIs(l.rx, l.wire, l.s.closed, need, r);
      LengthSame(l.rx, rx);
      Regroup(Flat(l.received), rx, Rest(l.wire, c), l.rx, l.wire);
      if e == 0 { Delivered(l.received, rx, Rest(l.wire, c)); }
    } else {
      Delivered(l.received, l.rx, l.wire);
    }
  }

  lemma Delivered(ms: seq<Bytes>, m: Bytes, wire: Bytes)
    ensures Flat(ms + [m]) + [] + wire == Flat(ms) + m + wire
  {
    FlatConcat(ms, [m]);
    FlatOne(m);
  }

  lemma RecvIs(l: Link, r1: Reply, r2: Reply)
    requires Partial(l.rx) && Sane(r1) && Sane(r2) && AllFramed(l.received)
    ensures KeepsBytes(l, RecvStep(l, r1, r2).0)
    ensures RecvStep(l, r1, r2).1 == Error(EOF) ==>
      (l.rx == [] && l.wire == [] && l.s.closed && RecvStep(l, r1, r2).0.rx == []) || r1 == Fails(EOF) || r2 == Fails(EOF)
  {
    if |l.rx| >= HEADER {
      BodyIs(l, r2);
    } else {
      HeaderIs(l, r1);
      var l1 := HeaderStep(l, r1).0;
      if HeaderStep(l, r1).1 == 0 && Length(l1.rx) >= HEADER { BodyIs(l1, r2); }
    }
  }

  lemma HeaderIs(l: Link, r: Reply)
    requires |l.rx| < HEADER && Sane(r)
    ensures var (u, e) := HeaderStep(l, r);
            && u == l.(rx := u.rx, wire := u.wire)
            && Flat(u.received) + u.rx + u.wire == Flat(l.received) + l.rx + l.wire
            && (if e == 0 then |u.rx| == HEADER else |u.rx| <= HEADER) && (e == EAGAIN ==> |u.rx| < HEADER)
            && (e == EOF && r != Fails(EOF) ==> u.rx == l.rx == [] && l.wire == [] && l.s.closed)
  {
    var need := HEADER - |l.rx|;
    var c := ChunkOf(l.wire, l.s.closed, need, r);
    ReadIs(l.rx, l.wire, l.s.closed, need, r);
    Regroup(Flat(l.received), Read(l.rx, need, c).0, Rest(l.wire, c), l.rx, l.wire);
  }

  /** The receiver in the link is do_recv_openflow on the chunks of the stream. */
  lemma RecvStepIs(l: Link, r1: Reply, r2: Reply)
    requires Partial(l.rx) && Sane(r1) && Sane(r2)
    ensures var c1 := ChunkOf(l.wire, l.s.closed, if |l.rx| < HEADER then HEADER - |l.rx| else 0, r1);
            var l1 := if |l.rx| < HEADER then HeaderStep(l, r1).0 else l;
            var c2 := ChunkOf(l1.wire, l.s.closed, if |l1.rx| >= HEADER && Length(l1.rx) >= |l1.rx| then Length(l1.rx) - |l1.rx| else 0, r2);
            (RecvStep(l, r1, r2).0.rx, RecvStep(l, r1, r2).1) == Recv(l.rx, c1, c2)
  {
    if |l.rx| < HEADER { HeaderIs(l, r1); }
  }

  lemma StepInv(l: Link, st: Step)
    requires Inv(l) && Enabled(l, st)
    ensures Inv(Next(l, st))
  {
    match st
    case DoSend(m, plan1, plan2) => SendInv(l, m, plan1, plan2);
    case TxRun(plan) => TxRunInv(l, plan);
    case CloseSender =>
    case DoRecv(r1, r2) => RecvIs(l, r1, r2);
  }

  // ----- Messages come out as they went in

  lemma SameFirst(x: Bytes, y: Bytes, s: Bytes)
    requires Framed(x) && Framed(y) && x <= s && y <= s
    ensures x == y
  {
    assert forall i | 0 <= i < HEADER :: x[i] == s[i] == y[i];
    assert |x| == |y|;
    assert x == s[..|x|] && y == s[..|y|];
  }

  /** Framed messages can be told apart in a stream of bytes in one way only. */
  lemma {:induction false} UniqueFraming(a: seq<Bytes>, rest: Bytes, b: seq<Bytes>)
    requires AllFramed(a) && AllFramed(b) && Flat(a) + rest == Flat(b)
    ensures a <= b && Flat(b[|a|..]) == rest
  {
    if a == [] {
      assert [] + rest == rest && b[0..] == b;
    } else {
      assert a[0] in a && b != [] by { assert |Flat(a)| >= |a[0]|; }
      assert b[0] in b;
      var s := Flat(b);
      assert s == a[0] + (Flat(a[1..]) + rest) && s == b[0] + Flat(b[1..]);
      SameFirst(a[0], b[0], s);
      assert Flat(a[1..]) + rest == s[|a[0]|..] == Flat(b[1..]);
      UniqueFraming(a[1..], rest, b[1..]);
      assert a == [a[0]] + a[1..] && b == [b[0]] + b[1..];
      assert b[1..][|a[1..]|..] == b[|a|..];
    }
  }

  /** The messages received are a beginning of those accepted, byte for byte. */
  lemma ReceivedIsPrefix(l: Link)
    requires Inv(l)
    ensures l.received <= l.accepted
    ensures Flat((l.accepted + l.dead)[|l.received|..]) == l.rx + l.wire + Pending(l.s)
  {
    var sent := l.accepted + l.dead;
    var rest := l.rx + l.wire + Pending(l.s);
    assert Flat(l.received) + rest == Flat(l.received) + l.rx + l.wire + Pending(l.s);
    UniqueFraming(l.received, rest, sent);
    assert |l.received| == |sent| ==> sent[|l.received|..] == [];
    assert l.dead != [] ==> |rest| > 0;
  }

  /** A clean end of file: everything written has been received, as whole
      messages; what is missing was never written. */
  lemma EofOnBoundary(l: Link, r1: Reply, r2: Reply)
    requires Inv(l) && Enabled(l, DoRecv(r1, r2)) && r1 != Fails(EOF) && r2 != Fails(EOF)
    requires RecvStep(l, r1, r2).1 == Error(EOF)
    ensures l.rx == [] && l.wire == [] && l.s.closed && l.received <= l.accepted
    ensures Flat((l.accepted + l.dead)[|l.received|..]) == Pending(l.s)
  {
    RecvIs(l, r1, r2);
    ReceivedIsPrefix(l);
    assert [] + [] + Pending(l.s) == Pending(l.s);
  }

  ghost predicate Run(ls: seq<Link>, sts: seq<Step>) {
    |ls| == |sts| + 1 && forall i | 0 <= i < |sts| :: Enabled(ls[i], sts[i]) && ls[i + 1] == Next(ls[i], sts[i])
  }

  /** Over every run, whatever the chunks and however the two ends interleave. */
  lemma {:induction false} RunDelivers(ls: seq<Link>, sts: seq<Step>, n: nat)
    requires Run(ls, sts) && n <= |sts| && ls[0] == Link(Sender(None, false), [], [], [], [], [], false)
    ensures Inv(ls[n]) && ls[n].received <= ls[n].accepted
  {
    if n > 0 {
      RunDelivers(ls, sts, n - 1);
      StepInv(ls[n - 1], sts[n - 1]);
    } else {
      assert ls[0].accepted + ls[0].dead == [];
    }
    ReceivedIsPrefix(ls[n]);
  }

  // ----- The connection object

  /** write_fully's loop. */
  method WriteAll(buffer: Bytes, plan: Plan) returns (written: nat, error: int)
    ensures (written, error) == WriteFully(|buffer|, plan)
  {
    var size := |buffer|;
    written, error := 0, 0;
    var i := 0;
    while size > 0
      invariant 0 <= i <= |plan| && size >= 0
      invariant var (w, e) := WriteFully(size, plan[i..]); (written + w, e) == WriteFully(|buffer|, plan)
      decreases |plan| - i + 1
    {
      if i == |plan| { return written, EAGAIN; }
      var n := plan[i];
      assert plan[i..][1..] == plan[i + 1..];
      i := i + 1;
      if n <= 0 { return written, -n; }
      if n > size { n := size; }
      size, written := size - n, written + n;
    }
  }

  /** Copies into an array from a position on. */
  method Store(a: array<uint8>, at: nat, bs: Bytes)
    requires at + |bs| <= a.Length
    modifies a
    ensures a[..at] == old(a[..at]) && a[at..at + |bs|] == bs
  {
    for i := 0 to |bs|
      invariant a[..at] == old(a[..at]) && a[at..at + i] == bs[..i]
    {
      a[at + i] := bs[i];
    }
  }

  class StreamConnection {
    var sender: Sender
    var rxHeader: array<uint8>
    var rxBuf: array<uint8>
    var rxBytes: nat

    ghost predicate Valid()
      reads this, rxHeader, rxBuf
    {
      && rxHeader.Length == HEADER && rxHeader != rxBuf
      && (rxBytes >= HEADER ==> rxBytes < rxBuf.Length == Length(rxHeader[..]) && rxBuf[..HEADER] == rxHeader[..])
    }

    /** The bytes of the message being received. */
    ghost function Rx(): Bytes
      requires Valid()
      reads this, rxHeader, rxBuf
    {
      if rxBytes < HEADER then rxHeader[..rxBytes] else rxBuf[..rxBytes]
    }

    constructor ()
      ensures Valid() && Rx() == [] && sender == Sender(None, false) && fresh(rxHeader) && fresh(rxBuf)
    {
      sender, rxBytes := Sender(None, false), 0;
      rxHeader := new uint8[HEADER];
      rxBuf := new uint8[0];
    }

    method SendTxBuf(plan: Plan) returns (written: Bytes, error: int)
      requires sender.tx.Some?
      modifies this`sender
      ensures (sender, written, error) == SendTx(old(sender), plan)
    {
      var tx := sender.tx.value;
      var n, e := WriteAll(tx, plan);
      WriteFullyIs(|tx|, plan);
      written := tx[..n];
      tx := tx[n..];
      sender := sender.(tx := Some(tx));
      if e != 0 {
        if e != EAGAIN { sender := sender.(closed := true); }
        return written, e;
      }
      if |tx| == 0 {
        sender := sender.(tx := None);
        return written, 0;
      }
      return written, EAGAIN;
    }

    method DoSendOpenflow(m: Bytes, plan1: Plan, plan2: Plan) returns (written: Bytes, error: int)
      modifies this`sender
      ensures (sender, written, error) == Send(old(sender), m, plan1, plan2)
    {
      written := [];
      if sender.tx.Some? {
        written, error := SendTxBuf(plan1);
        if error != 0 { return; }
      }
      sender := sender.(tx := Some(m));
      var more;
      more, error := SendTxBuf(plan2);
      written := written + more;
      if error == EAGAIN { error := 0; }
    }

    /** do_read into the header. */
    method ReadHeader(c: Chunk) returns (error: int)
      requires Valid() && rxBytes < HEADER && Fits(c, HEADER - rxBytes)
      modifies this`rxBytes, rxHeader
      ensures old(rxBytes) <= rxBytes <= HEADER && (rxHeader[..rxBytes], error) == Read(old(Rx()), HEADER - old(rxBytes), c)
    {
      match c
      case Data(bs) =>
        Store(rxHeader, rxBytes, bs);
        assert rxHeader[..rxBytes + |bs|] == rxHeader[..rxBytes] + rxHeader[rxBytes..rxBytes + |bs|];
        error := if |bs| < HEADER - rxBytes then EAGAIN else 0;
        rxBytes := rxBytes + |bs|;
      case Again => error := EAGAIN;
      case End => error := if rxBytes == 0 then EOF else EPROTO;
      case Fail(e) => error := e;
    }

    /** A complete header, and room for the whole message. */
    ghost predicate InBody()
      reads this, rxHeader, rxBuf
    {
      && rxHeader.Length == HEADER && rxHeader != rxBuf
      && HEADER <= rxBytes <= rxBuf.Length == Length(rxHeader[..]) && rxBuf[..HEADER] == rxHeader[..]
    }

    method ReadRest(c: Chunk) returns (got: Received)
      requires InBody() && (rxBytes < rxBuf.Length ==> Fits(c, rxBuf.Length - rxBytes))
      modifies this`rxBytes, rxBuf
      ensures got == ReadBody(old(rxBuf[..rxBytes]), c).1
      ensures got.Message? || got == Error(EAGAIN) ==> Valid() && Rx() == ReadBody(old(rxBuf[..rxBytes]), c).0
    {
      assert Length(rxBuf[..rxBytes]) == rxBuf.Length by { assert rxBuf[..rxBytes][..HEADER] == rxHeader[..]; }
      if rxBytes < rxBuf.Length {
        var need := rxBuf.Length - rxBytes;
        match c
        case Data(bs) =>
          Store(rxBuf, rxBytes, bs);
          assert rxBuf[..rxBytes + |bs|] == rxBuf[..rxBytes] + rxBuf[rxBytes..rxBytes + |bs|];
          assert rxBuf[..HEADER] == rxBuf[..rxBytes][..HEADER];
          rxBytes := rxBytes + |bs|;
          if |bs| < need { return Error(EAGAIN); }
        case Again => return Error(EAGAIN);
        case End => return Error(EPROTO);
        case Fail(e) => if e != 0 { return Error(e); }
      }
      got := Message(rxBuf[..rxBytes]);
      rxBytes := 0;
    }

    /** do_recv_openflow. */
    method DoRecvOpenflow(c1: Chunk, c2: Chunk) returns (got: Received)
      requires Valid() && (rxBytes < HEADER ==> Fits(c1, HEADER - rxBytes)) && FitsBody(Rx(), c1, c2)
      modifies this`rxBytes, this`rxBuf, rxHeader, rxBuf
      ensures got == Recv(old(Rx()), c1, c2).1
      ensures got.Message? || got == Error(EAGAIN) ==> Valid() && Rx() == Recv(old(Rx()), c1, c2).0
    {
      if rxBytes < HEADER {
        var error := ReadHeader(c1);
        if error != 0 { return Error(error); }
        if rxBytes < HEADER { return Error(EPROTO); }
        var length := rxHeader[2] as int * 256 + rxHeader[3] as int;
        assert length == Length(rxHeader[..]) && rxHeader[..HEADER] == rxHeader[..];
        if length < HEADER { return Error(EPROTO); }
        rxBuf := new uint8[length];
        Store(rxBuf, 0, rxHeader[..]);
        assert rxBuf[..HEADER] == rxBuf[0..0 + HEADER];
      }
      got := ReadRest(c2);
    }
  }

  predicate Fits(c: Chunk, need: nat) { c.Data? ==> 0 < |c.bytes| <= need }

  /** The second read asks for the rest of the message. */
  predicate FitsBody(rx: Bytes, c1: Chunk, c2: Chunk) {
    var rx1 := if |rx| < HEADER then Read(rx, HEADER - |rx|, c1).0 else rx;
    |rx1| >= HEADER && |rx1| < Length(rx1) ==> Fits(c2, Length(rx1) - |rx1|)
  }
}
