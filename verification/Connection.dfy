/** The OpenFlow connection (src/lib/openflow.cc): the handshake, version
    negotiation (section 4.2 of the OpenFlow Switch Specification 1.0.0), and the
    inactivity probe. */
module Connection {
  import opened Basics

  const EAGAIN := 11
  const EPROTO := 71
  const OFP_VERSION := 0x01
  const OFP_EXPERIMENTAL_VERSION := 0x80
  const MIN_VERSION := OFP_VERSION
  const OFPT_HELLO := 0

  /** Times in microseconds. */
  type Time = int
  const PROBE_INTERVAL: Time := 15_000_000

  datatype State = Connecting | SendHello | RecvHello | SendError | Connected | Idle | Disconnected

  datatype Conn = Conn(state: State, version: int, error: int, timeout: Time)

  /** What the network answers to the call made in a state: the return value and,
      for a message received, its type and version; and the time of day. */
  datatype Reply = Reply(retval: int, ty: uint8, version: uint8, now: Time)

  function Fails(c: Conn, e: int): Conn { c.(state := Disconnected, error := e) }

  // ----- The handshake

  function OnConnecting(c: Conn, r: Reply): Conn {
    if r.retval == 0 then c.(state := SendHello) else if r.retval != EAGAIN then Fails(c, r.retval) else c
  }

  function OnSendHello(c: Conn, r: Reply): Conn {
    if r.retval == 0 then c.(state := RecvHello) else if r.retval != EAGAIN then Fails(c, r.retval) else c
  }

  function Min(a: int, b: int): int { if a <= b then a else b }

  function OnRecvHello(c: Conn, r: Reply): Conn {
    if r.retval == EAGAIN then c
    else if r.retval != 0 then Fails(c, r.retval)
    else if r.ty != OFPT_HELLO then Fails(c, EPROTO)
    else
      var c1 := c.(version := Min(OFP_VERSION, r.version));
      if c1.version < MIN_VERSION then c1.(state := SendError)
      else c1.(state := if r.version > OFP_EXPERIMENTAL_VERSION then SendError else Connected, timeout := r.now + PROBE_INTERVAL)
  }

  function OnSendError(c: Conn, r: Reply): Conn {
    if r.retval != EAGAIN then Fails(c, if r.retval != 0 then r.retval else EPROTO) else c
  }

  /** One round of connect()'s loop. */
  function Advance(c: Conn, r: Reply): Conn {
    match c.state
    case Connecting => OnConnecting(c, r)
    case SendHello => OnSendHello(c, r)
    case RecvHello => OnRecvHello(c, r)
    case SendError => OnSendError(c, r)
    case _ => c
  }

  /** How far the handshake has come. */
  function Rank(s: State): nat {
    match s
    case Connecting => 0
    case SendHello => 1
    case RecvHello => 2
    case SendError => 3
    case Connected => 4
    case Idle => 4
    case Disconnected => 5
  }

  predicate Done(s: State) { s.Connected? || s.Idle? || s.Disconnected? }

  /** A round changes nothing, or goes up in rank. */
  lemma AdvanceRises(c: Conn, r: Reply)
    ensures Advance(c, r).state != c.state ==> Rank(c.state) < Rank(Advance(c, r).state)
    ensures Advance(c, r).state == c.state ==> Advance(c, r) == c
  {
  }

  /** connect(): `reply` tells what the network answers in each state; since no
      state comes twice in one call, that is general enough. */
  function Connect(c: Conn, reply: State -> Reply): (Conn, int)
    decreases 5 - Rank(c.state)
  {
    if c.state.Connected? || c.state.Idle? then (c, 0)
    else if c.state.Disconnected? then (c, c.error)
    else
      var d := Advance(c, reply(c.state));
      AdvanceRises(c, reply(c.state));
      if d.state == c.state then (d, EAGAIN) else Connect(d, reply)
  }

  // ----- Using the connection

  datatype Event =
    | DoConnect(reply: State -> Reply)
    | DoRecv(reply: State -> Reply, retval: int, now: Time)
    | Probe(now: Time, retval: int, later: Time)

  /** recv_openflow after connect(): a message puts the probe off. */
  function Received(c: Conn, now: Time): Conn {
    c.(state := if c.state.Idle? then Connected else c.state, timeout := now + PROBE_INTERVAL)
  }

  /** run(): the first silence draws a probe, the second ends the connection. */
  function Probed(c: Conn, now: Time, retval: int, later: Time): Conn {
    if !(c.state.Connected? || c.state.Idle?) || now < c.timeout then c
    else if c.state.Idle? then Fails(c, EPROTO)
    else if retval == 0 then c.(state := Idle, timeout := later + PROBE_INTERVAL)
    else if retval == EAGAIN then c
    else Fails(c, retval)
  }

  function Next(c: Conn, e: Event): Conn {
    match e
    case DoConnect(reply) => Connect(c, reply).0
    case DoRecv(reply, retval, now) =>
      var (d, err) := Connect(c, reply);
      if err == 0 && retval == 0 then Received(d, now) else d
    case Probe(now, retval, later) => Probed(c, now, retval, later)
  }

  // ----- What every connection keeps

  /** A connection that is up has a version both ends have; one that is down has
      an error. */
  predicate Inv(c: Conn) {
    && (c.state.Connected? || c.state.Idle? ==> MIN_VERSION <= c.version <= OFP_VERSION)
    && (c.state.Disconnected? ==> c.error != 0)
  }

  lemma AdvanceInv(c: Conn, r: Reply)
    requires Inv(c)
    ensures Inv(Advance(c, r))
  {
  }

  lemma {:induction false} ConnectIs(c: Conn, reply: State -> Reply)
    requires Inv(c)
    ensures var (d, e) := Connect(c, reply);
            && Inv(d) && Rank(c.state) <= Rank(d.state) && (d.state == c.state ==> d == c)
            && (e == 0 <==> d.state.Connected? || d.state.Idle?) && (d.state.Disconnected? ==> e == d.error)
            && (e == EAGAIN && !d.state.Disconnected? <==> !Done(d.state))
            && (d.state.Idle? ==> c == d) && (Done(c.state) ==> c == d)
    decreases 5 - Rank(c.state)
  {
    if !Done(c.state) {
      var d := Advance(c, reply(c.state));
      AdvanceRises(c, reply(c.state));
      AdvanceInv(c, reply(c.state));
      if d.state != c.state { ConnectIs(d, reply); }
    }
  }

  lemma NextInv(c: Conn, e: Event)
    requires Inv(c)
    ensures Inv(Next(c, e))
  {
    match e
    case DoConnect(reply) => ConnectIs(c, reply);
    case DoRecv(reply, _, _) => ConnectIs(c, reply);
    case Probe(_, _, _) =>
  }

  /** Nothing brings a connection back, or changes why it ended. */
  lemma DisconnectedStays(c: Conn, e: Event)
    requires Inv(c) && c.state.Disconnected?
    ensures Next(c, e) == c
  {
  }

  /** The versions of a hello that lead to a connection. */
  lemma Negotiates(c: Conn, r: Reply)
    requires c.state.RecvHello?
    ensures Advance(c, r).state.Connected? <==>
            r.retval == 0 && r.ty == OFPT_HELLO && MIN_VERSION <= r.version <= OFP_EXPERIMENTAL_VERSION
    ensures Advance(c, r).state.Connected? ==> Advance(c, r).version == OFP_VERSION
  {
  }

  /** The reply is a hello both ends can go on from. */
  predicate GoodHello(r: Reply) {
    r.retval == 0 && r.ty == OFPT_HELLO && MIN_VERSION <= r.version <= OFP_EXPERIMENTAL_VERSION
  }

  /** A call of connect() on a new connection succeeds if and only if the stream
      connects, the hello goes out and a good one comes back. */
  lemma ConnectsIff(c: Conn, reply: State -> Reply)
    requires c.state.Connecting?
    ensures Connect(c, reply).1 == 0 <==>
            reply(Connecting).retval == 0 && reply(SendHello).retval == 0 && GoodHello(reply(RecvHello))
    ensures Connect(c, reply).1 == 0 ==>
            Connect(c, reply).0.state.Connected? && Connect(c, reply).0.timeout == reply(RecvHello).now + PROBE_INTERVAL
  {
    var c1 := Advance(c, reply(Connecting));
    if c1.state.SendHello? {
      var c2 := Advance(c1, reply(SendHello));
      assert Connect(c, reply) == Connect(c1, reply);
      if c2.state.RecvHello? {
        assert Connect(c1, reply) == Connect(c2, reply);
        HelloDecides(c2, reply);
      }
    }
  }

  /** With an error reply outstanding nothing connects any more. */
  lemma HelloDecides(c: Conn, reply: State -> Reply)
    requires c.state.RecvHello?
    ensures Connect(c, reply).1 == 0 <==> GoodHello(reply(RecvHello))
    ensures Connect(c, reply).1 == 0 ==>
            Connect(c, reply).0.state.Connected? && Connect(c, reply).0.timeout == reply(RecvHello).now + PROBE_INTERVAL
  {
    var d := Advance(c, reply(RecvHello));
    if d.state.SendError? {
      assert Connect(c, reply) == Connect(d, reply);
      assert Advance(d, reply(SendError)).state in {SendError, Disconnected};
    }
  }

  ghost predicate Run(cs: seq<Conn>, es: seq<Event>) {
    |cs| == |es| + 1 && forall i | 0 <= i < |es| :: cs[i + 1] == Next(cs[i], es[i])
  }

  lemma {:induction false} RunInv(cs: seq<Conn>, es: seq<Event>, n: nat)
    requires Run(cs, es) && Inv(cs[0]) && n <= |es|
    ensures Inv(cs[n])
  {
    if n > 0 {
      RunInv(cs, es, n - 1);
      NextInv(cs[n - 1], es[n - 1]);
    }
  }

  /** Over every run: an end is final, and its error stands. */
  lemma {:induction false} EndIsFinal(cs: seq<Conn>, es: seq<Event>, a: nat, b: nat)
    requires Run(cs, es) && Inv(cs[0]) && a <= b <= |es| && cs[a].state.Disconnected?
    ensures cs[b] == cs[a] && cs[a].error != 0
    decreases b - a
  {
    RunInv(cs, es, a);
    if a < b {
      DisconnectedStays(cs[a], es[a]);
      EndIsFinal(cs, es, a + 1, b);
    }
  }

  /** Past sending the hello, and not at an end. */
  predicate Greeted(s: State) { s.RecvHello? || s.SendError? || s.Connected? || s.Idle? }

  /** A call in which the hello goes out. */
  ghost predicate SaysHello(c: Conn, e: Event) {
    && !e.Probe? && (c.state.Connecting? || c.state.SendHello?) && e.reply(SendHello).retval == 0
    && (c.state.Connecting? ==> e.reply(Connecting).retval == 0)
  }

  lemma ConnectSaysHello(c: Conn, reply: State -> Reply)
    requires c.state.Connecting? || c.state.SendHello?
    ensures Greeted(Connect(c, reply).0.state) ==>
              reply(SendHello).retval == 0 && (c.state.Connecting? ==> reply(Connecting).retval == 0)
    decreases 5 - Rank(c.state)
  {
    var d := Advance(c, reply(c.state));
    assert Connect(c, reply).0 == if d.state == c.state then d else Connect(d, reply).0;
    if d.state.SendHello? && c.state.Connecting? { ConnectSaysHello(d, reply); }
    if d.state.Disconnected? { assert Connect(d, reply).0 == d; }
  }

  /** No connection comes up, or gets an error reply, without the hello having been
      sent. */
  lemma {:induction false} HelloComesFirst(cs: seq<Conn>, es: seq<Event>, b: nat) returns (a: nat)
    requires Run(cs, es) && Inv(cs[0]) && cs[0].state.Connecting? && b <= |es| && Greeted(cs[b].state)
    ensures a < b && SaysHello(cs[a], es[a])
    decreases b
  {
    var c, e := cs[b - 1], es[b - 1];
    RunInv(cs, es, b - 1);
    if Greeted(c.state) {
      a := HelloComesFirst(cs, es, b - 1);
    } else {
      a := b - 1;
      if c.state.Disconnected? { DisconnectedStays(c, e); }
      if !e.Probe? {
        ConnectIs(c, e.reply);
        ConnectSaysHello(c, e.reply);
      }
    }
  }

  // ----- The probe

  /** A monotone clock: every time an event reads is at least `t`.  connect()
      reads it when a hello comes. */
  ghost predicate NotBefore(e: Event, t: Time) {
    match e
    case DoConnect(reply) => reply(RecvHello).now >= t
    case DoRecv(reply, _, now) => now >= t && reply(RecvHello).now >= t
    case Probe(now, _, later) => t <= now <= later
  }

  /** recv_openflow returns a message at time `t`. */
  ghost predicate Hears(c: Conn, e: Event, t: Time) {
    e.DoRecv? && e.now == t && e.retval == 0 && Connect(c, e.reply).1 == 0
  }

  /** The hello that makes the connection comes at time `t`, and no message after
      it. */
  ghost predicate Greets(c: Conn, e: Event, t: Time) {
    && (e.DoConnect? || (e.DoRecv? && e.retval != 0))
    && !Done(c.state) && Connect(c, e.reply).0.state.Connected? && e.reply(RecvHello).now == t
  }

  ghost predicate Heard(c: Conn, e: Event, t: Time) { Hears(c, e, t) || Greets(c, e, t) }

  /** Long enough from `t` on. */
  predicate Patient(c: Conn, t: Time) {
    && (c.state.Connected? ==> c.timeout >= t + PROBE_INTERVAL)
    && (c.state.Idle? ==> c.timeout >= t + 2 * PROBE_INTERVAL)
  }

  lemma {:induction false} ConnectPatient(c: Conn, reply: State -> Reply, t: Time)
    requires Patient(c, t) && (!Done(c.state) ==> reply(RecvHello).now >= t)
    ensures Patient(Connect(c, reply).0, t)
    decreases 5 - Rank(c.state)
  {
    if !Done(c.state) {
      AdvanceRises(c, reply(c.state));
      var d := Advance(c, reply(c.state));
      if d.state != c.state { ConnectPatient(d, reply, t); }
    }
  }

  lemma NextPatient(c: Conn, e: Event, t: Time)
    requires Patient(c, t) && NotBefore(e, t)
    ensures Patient(Next(c, e), t)
  {
    match e
    case DoConnect(reply) => ConnectPatient(c, reply, t);
    case DoRecv(reply, _, _) => ConnectPatient(c, reply, t);
    case Probe(_, _, _) =>
  }

  lemma {:induction false} StaysPatient(cs: seq<Conn>, es: seq<Event>, a: nat, b: nat, t: Time)
    requires Run(cs, es) && a <= b <= |es| && Patient(cs[a], t) && forall i | a <= i < b :: NotBefore(es[i], t)
    ensures Patient(cs[b], t)
    decreases b - a
  {
    if a < b {
      NextPatient(cs[a], es[a], t);
      StaysPatient(cs, es, a + 1, b, t);
    }
  }

  /** An unanswered probe ends the connection only after twice the interval has
      passed since the last message, the hello included. */
  lemma SilenceBeforeTheEnd(cs: seq<Conn>, es: seq<Event>, a: nat, b: nat, t: Time)
    requires Run(cs, es) && Inv(cs[0]) && a < b < |es| && Heard(cs[a], es[a], t)
    requires forall i | a < i <= b :: NotBefore(es[i], t)
    requires es[b].Probe? && cs[b].state.Idle? && cs[b + 1].state.Disconnected?
    ensures es[b].now >= t + 2 * PROBE_INTERVAL
  {
    RunInv(cs, es, a);
    ConnectIs(cs[a], es[a].reply);
    if Greets(cs[a], es[a], t) { ConnectPatient(cs[a], es[a].reply, t); }
    StaysPatient(cs, es, a + 1, b, t);
  }

  /** A connection that is up has heard something, be it only the hello. */
  lemma {:induction false} LastHeard(cs: seq<Conn>, es: seq<Event>, b: nat) returns (a: nat, t: Time)
    requires Run(cs, es) && Inv(cs[0]) && !Done(cs[0].state) && b <= |es| && (cs[b].state.Connected? || cs[b].state.Idle?)
    ensures a < b && Heard(cs[a], es[a], t) && forall i, u | a < i < b :: !Heard(cs[i], es[i], u)
    decreases b
  {
    var c, e := cs[b - 1], es[b - 1];
    RunInv(cs, es, b - 1);
    if !e.Probe? { ConnectIs(c, e.reply); }
    if u :| Heard(c, e, u) {
      a, t := b - 1, u;
    } else {
      if e.DoRecv? { assert !Heard(c, e, e.now); }
      if !e.Probe? { assert !Heard(c, e, e.reply(RecvHello).now); }
      a, t := LastHeard(cs, es, b - 1);
    }
  }

  /** And it does end it: a probe that goes unanswered for the interval. */
  lemma SilenceEndsIt(cs: seq<Conn>, es: seq<Event>, a: nat)
    requires Run(cs, es) && a + 2 <= |es| && cs[a].state.Connected? && es[a].Probe? && es[a + 1].Probe?
    requires es[a].now >= cs[a].timeout && es[a].retval == 0 && es[a + 1].now >= es[a].later + PROBE_INTERVAL
    ensures cs[a + 1].state.Idle? && cs[a + 2].state.Disconnected? && cs[a + 2].error == EPROTO
  {
    assert cs[a + 1] == Next(cs[a], es[a]) && cs[a + 1 + 1] == Next(cs[a + 1], es[a + 1]);
  }

  // ----- The connection object

  class OpenflowConnection {
    var state: State
    var version: int
    var error: int
    var timeout: Time

    ghost function Value(): Conn
      reads this
    {
      Conn(state, version, error, timeout)
    }

    constructor ()
      ensures state == Connecting && Inv(Value())
    {
      state := Connecting;
    }

    method SRecvHello(r: Reply)
      requires state.RecvHello?
      modifies this
      ensures state.RecvHello? <==> r.retval == EAGAIN
      ensures state.Connected? <==>
                r.retval == 0 && r.ty == OFPT_HELLO && MIN_VERSION <= r.version <= OFP_EXPERIMENTAL_VERSION
      ensures state.Connected? ==> version == OFP_VERSION && Patient(Value(), r.now)
      ensures state.Disconnected? ==> error == (if r.retval != 0 then r.retval else EPROTO) && error != 0
      ensures Value() == Advance(old(Value()), r)
    {
      var retval := r.retval;
      if retval == 0 {
        if r.ty == OFPT_HELLO {
          version := Min(OFP_VERSION, r.version);
          if version < MIN_VERSION {
            state := SendError;
          } else {
            state := if r.version > OFP_EXPERIMENTAL_VERSION then SendError else Connected;
            timeout := r.now + PROBE_INTERVAL;
          }
        } else {
          retval := EPROTO;
        }
      }
      if retval != 0 && retval != EAGAIN { state, error := Disconnected, retval; }
    }

    method Round(r: Reply)
      requires !Done(state)
      modifies this
      ensures Value() == Advance(old(Value()), r)
    {
      if state.Connecting? {
        if r.retval == 0 { state := SendHello; } else if r.retval != EAGAIN { state, error := Disconnected, r.retval; }
      } else if state.SendHello? {
        if r.retval == 0 { state := RecvHello; } else if r.retval != EAGAIN { state, error := Disconnected, r.retval; }
      } else if state.RecvHello? {
        SRecvHello(r);
      } else if r.retval != EAGAIN {
        state, error := Disconnected, if r.retval != 0 then r.retval else EPROTO;
      }
    }

    /** connect(), without blocking. */
    method TryConnect(reply: State -> Reply) returns (retval: int)
      modifies this
      ensures (Value(), retval) == Connect(old(Value()), reply)
    {
      while true
        invariant Connect(Value(), reply) == Connect(old(Value()), reply)
        decreases 5 - Rank(state)
      {
        if state.Connected? || state.Idle? { return 0; }
        if state.Disconnected? { return error; }
        var last := state;
        AdvanceRises(Value(), reply(state));
        Round(reply(state));
        if state == last { return EAGAIN; }
      }
    }

    /** recv_openflow(), without blocking: the error, 0 for a message. */
    method RecvOpenflow(reply: State -> Reply, retval: int, now: Time) returns (e: int)
      modifies this
      ensures Value() == Next(old(Value()), DoRecv(reply, retval, now))
      ensures e == 0 <==> Hears(old(Value()), DoRecv(reply, retval, now), now)
    {
      e := TryConnect(reply);
      if e != 0 { return; }
      e := retval;
      if e == 0 {
        if state.Idle? { state := Connected; }
        timeout := now + PROBE_INTERVAL;
      }
    }

    /** run(): `retval` is what sending the echo request returns. */
    method RunProbe(now: Time, retval: int, later: Time)
      modifies this
      ensures forall t | Patient(old(Value()), t) && t <= now <= later :: Patient(Value(), t)
      ensures Inv(old(Value())) ==> Inv(Value())
      ensures state != old(state) ==> (old(state).Connected? || old(state).Idle?) && now >= old(timeout)
      ensures old(state).Idle? && now >= old(timeout) ==> state.Disconnected? && error == EPROTO
      ensures Value() == Next(old(Value()), Probe(now, retval, later))
    {
      if (state.Connected? || state.Idle?) && now >= timeout {
        if state.Connected? {
          if retval == 0 {
            state, timeout := Idle, later + PROBE_INTERVAL;
          } else if retval != EAGAIN {
            state, error := Disconnected, retval;
          }
        } else {
          state, error := Disconnected, EPROTO;
        }
      }
    }
  }
}
