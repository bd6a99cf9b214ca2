/** Netlink attributes (src/lib/netlink.cc; section 2.3.2 of RFC 3549): composing a
    message and parsing it against a policy. */
module Netlink {
  import opened Basics

  type Bytes = seq<uint8>

  const NLA_HDRLEN := 4
  const UINT16_MAX := 0xFFFF

  // ----- Layout

  /** A 16-bit number in host byte order, here little endian. */
  function Put16(n: nat): Bytes { [n % 256, n / 256 % 256] }

  function Get16(b: Bytes, at: nat): nat
    requires at + 2 <= |b|
  {
    b[at] as int + 256 * b[at + 1] as int
  }

  function Align(n: nat): nat { (n + 3) / 4 * 4 }

  function Zeros(n: nat): Bytes { seq(n, i => 0) }

  /** An attribute as it lies in a buffer: header, payload, padding. */
  function Laid(ty: uint16, payload: Bytes, pad: Bytes): Bytes {
    Put16(|payload| + NLA_HDRLEN) + Put16(ty) + payload + pad
  }

  lemma AlignIs(n: nat)
    ensures n <= Align(n) < n + 4
  {
  }

  // ----- Policies

  /** What a policy says of an attribute type; a NUL-terminated string has room
      for its NUL. */
  datatype Elem = Elem(minLen: nat, maxLen: nat, nulString: bool, required: bool)

  type Policy = map<uint16, Elem>

  predicate Sensible(p: Policy) { forall t | t in p && p[t].nulString :: p[t].minLen >= 1 }

  /** Length and terminator. */
  predicate Allows(e: Elem, payload: Bytes) {
    e.minLen <= |payload| <= e.maxLen && (e.nulString ==> payload != [] && payload[|payload| - 1] == 0)
  }

  predicate AllowsType(p: Policy, ty: uint16, payload: Bytes) { ty in p ==> Allows(p[ty], payload) }

  ghost function RequiredTypes(p: Policy): set<uint16> { set t | t in p && p[t].required }

  // ----- The parser

  type Bound = map<uint16, Bytes>

  /** Reads attributes until the buffer is empty; None where the source returns
      false inside the loop. */
  function ParseFrom(p: Policy, b: Bytes, bound: Bound): Option<Bound>
    decreases |b|
  {
    if b == [] then Some(bound)
    else if |b| < NLA_HDRLEN || Get16(b, 0) < NLA_HDRLEN then None
    else
      var len := Get16(b, 0) - NLA_HDRLEN;
      if Align(len) > |b| - NLA_HDRLEN then None
      else
        AlignIs(len);
        var ty := Get16(b, 2);
        var payload := b[NLA_HDRLEN..NLA_HDRLEN + len];
        if !AllowsType(p, ty, payload) then None
        else ParseFrom(p, b[NLA_HDRLEN + Align(len)..], if ty in p then bound[ty := payload] else bound)
  }

  ghost function Parse(p: Policy, b: Bytes): Option<Bound> {
    var r := ParseFrom(p, b, map[]);
    if r.Some? && RequiredTypes(p) <= r.value.Keys then r else None
  }

  // ----- What should be accepted

  datatype Attr = Attr(ty: uint16, payload: Bytes, pad: Bytes)

  predicate WellFormed(a: Attr) {
    |a.payload| + NLA_HDRLEN <= UINT16_MAX && |a.payload| + |a.pad| == Align(|a.payload|)
  }

  function Layout(s: seq<Attr>): Bytes {
    if s == [] then [] else Laid(s[0].ty, s[0].payload, s[0].pad) + Layout(s[1..])
  }

  /** The last payload of each type the policy names, on top of `bound`. */
  function Bind(p: Policy, s: seq<Attr>, bound: Bound): Bound {
    if s == [] then bound else Bind(p, s[1..], if s[0].ty in p then bound[s[0].ty := s[0].payload] else bound)
  }

  /** A sequence of well-formed attributes, each within the policy. */
  ghost predicate Fine(p: Policy, s: seq<Attr>) {
    forall a | a in s :: WellFormed(a) && AllowsType(p, a.ty, a.payload)
  }

  lemma {:induction false} HeadOf(a: Attr, rest: Bytes)
    requires WellFormed(a)
    ensures var b := Laid(a.ty, a.payload, a.pad) + rest;
            var len := |a.payload|;
            && |b| == NLA_HDRLEN + Align(len) + |rest| && Get16(b, 0) == len + NLA_HDRLEN && Get16(b, 2) == a.ty
            && b[NLA_HDRLEN..NLA_HDRLEN + len] == a.payload && b[NLA_HDRLEN + len..NLA_HDRLEN + Align(len)] == a.pad
            && b[NLA_HDRLEN + Align(len)..] == rest
  {
  }

  /** A buffer laid out from fine attributes is read back. */
  lemma {:induction false} LaidOutParses(p: Policy, s: seq<Attr>, bound: Bound)
    requires Fine(p, s)
    ensures ParseFrom(p, Layout(s), bound) == Some(Bind(p, s, bound))
    decreases |s|
  {
    if s != [] {
      var a := s[0];
      assert a in s;
      HeadOf(a, Layout(s[1..]));
      LaidOutParses(p, s[1..], if a.ty in p then bound[a.ty := a.payload] else bound);
    }
  }

  predicate HasFirst(b: Bytes) {
    |b| >= NLA_HDRLEN && Get16(b, 0) >= NLA_HDRLEN && Align(Get16(b, 0) - NLA_HDRLEN) <= |b| - NLA_HDRLEN
  }

  /** The attribute at the front of a buffer, and what follows it. */
  function First(b: Bytes): (Attr, Bytes)
    requires HasFirst(b)
  {
    var len := Get16(b, 0) - NLA_HDRLEN;
    AlignIs(len);
    (Attr(Get16(b, 2), b[NLA_HDRLEN..NLA_HDRLEN + len], b[NLA_HDRLEN + len..NLA_HDRLEN + Align(len)]), b[NLA_HDRLEN + Align(len)..])
  }

  lemma ParseStep(p: Policy, b: Bytes, bound: Bound)
    requires b != []
    ensures ParseFrom(p, b, bound)
            == if HasFirst(b) && AllowsType(p, First(b).0.ty, First(b).0.payload) then
                 ParseFrom(p, First(b).1, if First(b).0.ty in p then bound[First(b).0.ty := First(b).0.payload] else bound)
               else None
  {
  }

  lemma FirstIs(b: Bytes)
    requires HasFirst(b)
    ensures var (a, rest) := First(b);
            WellFormed(a) && |rest| < |b| && b == Laid(a.ty, a.payload, a.pad) + rest
  {
  }

  /** One attribute outside the policy spoils the message. */
  lemma {:induction false} LaidOutRefused(p: Policy, s: seq<Attr>, bound: Bound, k: nat)
    requires (forall a | a in s :: WellFormed(a)) && k < |s| && !AllowsType(p, s[k].ty, s[k].payload)
    ensures ParseFrom(p, Layout(s), bound).None?
    decreases |s|
  {
    var a := s[0];
    assert a in s;
    HeadOf(a, Layout(s[1..]));
    if k > 0 { LaidOutRefused(p, s[1..], if a.ty in p then bound[a.ty := a.payload] else bound, k - 1); }
  }

  /** Past an attribute at the front, if it is allowed. */
  lemma HeadParsed(p: Policy, a: Attr, rest: Bytes, bound: Bound)
    requires WellFormed(a)
    ensures ParseFrom(p, Laid(a.ty, a.payload, a.pad) + rest, bound)
            == if AllowsType(p, a.ty, a.payload) then ParseFrom(p, rest, if a.ty in p then bound[a.ty := a.payload] else bound) else None
  {
    HeadOf(a, rest);
  }

  /** Only such buffers are read. */
  lemma {:induction false} ParsedWasLaidOut(p: Policy, b: Bytes, bound: Bound) returns (s: seq<Attr>)
    requires ParseFrom(p, b, bound).Some?
    ensures Layout(s) == b && Fine(p, s)
    decreases |b|
  {
    if b == [] {
      s := [];
    } else {
      var (a, rest) := First(b);
      FirstIs(b);
      var s' := ParsedWasLaidOut(p, rest, if a.ty in p then bound[a.ty := a.payload] else bound);
      s := [a] + s';
      assert s[1..] == s';
    }
  }

  ghost predicate Accepts(p: Policy, b: Bytes, s: seq<Attr>, bound: Bound) {
    Layout(s) == b && Fine(p, s) && bound == Bind(p, s, map[]) && RequiredTypes(p) <= bound.Keys
  }

  /** parse() succeeds exactly on the layouts of attribute sequences within the
      policy that hold every required type, and binds each type to its last
      payload. */
  lemma ParseExact(p: Policy, b: Bytes, bound: Bound)
    ensures Parse(p, b) == Some(bound) <==> exists s :: Accepts(p, b, s, bound)
  {
    if Parse(p, b) == Some(bound) {
      var s := ParsedWasLaidOut(p, b, map[]);
      LaidOutParses(p, s, map[]);
      assert Accepts(p, b, s, bound);
    }
    if s :| Accepts(p, b, s, bound) {
      LaidOutParses(p, s, map[]);
    }
  }

  // ----- The composer

  /** put_unspec: None where the source throws; the length field is 16 bits wide. */
  function Composed(ty: uint16, content: Bytes): Option<Bytes> {
    if |content| > UINT16_MAX then None
    else Some(Put16((|content| + NLA_HDRLEN) % 0x1_0000) + Put16(ty) + content + Zeros(Align(|content|) - |content|))
  }

  function ComposeAll(s: seq<(uint16, Bytes)>): Bytes
    requires forall i | 0 <= i < |s| :: |s[i].1| <= UINT16_MAX
  {
    if s == [] then [] else Composed(s[0].0, s[0].1).value + ComposeAll(s[1..])
  }

  function AsAttr(a: (uint16, Bytes)): Attr { Attr(a.0, a.1, Zeros(Align(|a.1|) - |a.1|)) }

  function AsAttrs(s: seq<(uint16, Bytes)>): seq<Attr> { if s == [] then [] else [AsAttr(s[0])] + AsAttrs(s[1..]) }

  predicate Fitting(s: seq<(uint16, Bytes)>) { forall i | 0 <= i < |s| :: |s[i].1| + NLA_HDRLEN <= UINT16_MAX }

  lemma ComposedIs(ty: uint16, content: Bytes)
    requires |content| + NLA_HDRLEN <= UINT16_MAX
    ensures Composed(ty, content) == Some(Laid(ty, content, Zeros(Align(|content|) - |content|)))
    ensures WellFormed(AsAttr((ty, content)))
  {
  }

  lemma {:induction false} ComposedIsLayout(s: seq<(uint16, Bytes)>)
    requires Fitting(s)
    ensures ComposeAll(s) == Layout(AsAttrs(s)) && |AsAttrs(s)| == |s|
    ensures forall i | 0 <= i < |s| :: AsAttrs(s)[i] == AsAttr(s[i])
  {
    if s != [] {
      ComposedIsLayout(s[1..]);
      ComposedIs(s[0].0, s[0].1);
      assert AsAttrs(s)[1..] == AsAttrs(s[1..]);
    }
  }

  ghost function TypesOf(s: seq<(uint16, Bytes)>): set<uint16> { set a | a in s :: a.0 }

  /** Bound are the types the policy names, of which there is an attribute. */
  lemma {:induction false} BoundTypes(p: Policy, s: seq<(uint16, Bytes)>, bound: Bound)
    ensures Bind(p, AsAttrs(s), bound).Keys == bound.Keys + p.Keys * TypesOf(s)
    decreases |s|
  {
    if s != [] {
      var t := AsAttrs(s);
      assert t[1..] == AsAttrs(s[1..]) && s == [s[0]] + s[1..];
      BoundTypes(p, s[1..], if s[0].0 in p then bound[s[0].0 := s[0].1] else bound);
      assert TypesOf(s) == {s[0].0} + TypesOf(s[1..]);
    }
  }

  /** Attributes that parse() takes: of at most 65531 bytes, within the policy, and
      with all required types among them. */
  ghost predicate Suits(p: Policy, s: seq<(uint16, Bytes)>) {
    Fitting(s) && (forall i | 0 <= i < |s| :: AllowsType(p, s[i].0, s[i].1)) && RequiredTypes(p) <= TypesOf(s)
  }

  lemma LoopReadsBack(p: Policy, s: seq<(uint16, Bytes)>)
    requires Fitting(s) && forall i | 0 <= i < |s| :: AllowsType(p, s[i].0, s[i].1)
    ensures ParseFrom(p, ComposeAll(s), map[]) == Some(Bind(p, AsAttrs(s), map[]))
  {
    ComposedIsLayout(s);
    var t := AsAttrs(s);
    forall a | a in t ensures WellFormed(a) && AllowsType(p, a.ty, a.payload) {
      var i :| 0 <= i < |t| && t[i] == a;
      AlignIs(|s[i].1|);
    }
    LaidOutParses(p, t, map[]);
  }

  /** Round trip: attributes that suit the policy parse back, with each type it
      names bound to its last payload. */
  lemma RoundTrip(p: Policy, s: seq<(uint16, Bytes)>)
    requires Suits(p, s)
    ensures Parse(p, ComposeAll(s)) == Some(Bind(p, AsAttrs(s), map[]))
  {
    LoopReadsBack(p, s);
    BoundTypes(p, s, map[]);
    assert RequiredTypes(p) <= p.Keys;
  }

  /** Exactly these come through. */
  lemma ComposedParsesIff(p: Policy, s: seq<(uint16, Bytes)>)
    requires forall i | 0 <= i < |s| :: |s[i].1| <= UINT16_MAX
    ensures Parse(p, ComposeAll(s)).Some? <==> Suits(p, s)
  {
    if !Fitting(s) {
      var k := FirstTooLong(s);
      TooLongIsRefused(p, s, k, map[]);
    } else if k :| 0 <= k < |s| && !AllowsType(p, s[k].0, s[k].1) {
      ComposedIsLayout(s);
      var t := AsAttrs(s);
      forall a | a in t ensures WellFormed(a) {
        var i :| 0 <= i < |t| && t[i] == a;
        AlignIs(|s[i].1|);
      }
      LaidOutRefused(p, t, map[], k);
    } else {
      LoopReadsBack(p, s);
      BoundTypes(p, s, map[]);
      assert RequiredTypes(p) <= p.Keys;
    }
  }

  lemma {:induction false} FirstTooLong(s: seq<(uint16, Bytes)>) returns (k: nat)
    requires !Fitting(s)
    ensures k < |s| && |s[k].1| + NLA_HDRLEN > UINT16_MAX && Fitting(s[..k])
    decreases |s|
  {
    if |s[0].1| + NLA_HDRLEN > UINT16_MAX {
      k := 0;
    } else {
      var j := FirstTooLong(s[1..]);
      k := j + 1;
      assert s[..k] == [s[0]] + s[1..][..j];
    }
  }

  /** A longer attribute, which put_unspec takes up to 65535 bytes, gets a length
      field below the header size, and no policy parses the message. */
  lemma {:induction false} TooLongIsRefused(p: Policy, s: seq<(uint16, Bytes)>, k: nat, bound: Bound)
    requires forall i | 0 <= i < |s| :: |s[i].1| <= UINT16_MAX
    requires k < |s| && |s[k].1| + NLA_HDRLEN > UINT16_MAX && Fitting(s[..k])
    ensures ParseFrom(p, ComposeAll(s), bound).None?
    decreases |s|
  {
    var rest := ComposeAll(s[1..]);
    if k == 0 {
      LengthWraps(s[0].0, s[0].1, rest);
    } else {
      var a := AsAttr(s[0]);
      assert s[..k][0] == s[0];
      ComposedIs(s[0].0, s[0].1);
      assert s[1..][..k - 1] == s[..k][1..];
      TooLongIsRefused(p, s[1..], k - 1, if a.ty in p then bound[a.ty := a.payload] else bound);
      HeadParsed(p, a, rest, bound);
    }
  }

  lemma LengthWraps(ty: uint16, content: Bytes, rest: Bytes)
    requires UINT16_MAX - NLA_HDRLEN < |content| <= UINT16_MAX
    ensures var b := Composed(ty, content).value + rest;
            |b| >= NLA_HDRLEN && Get16(b, 0) < NLA_HDRLEN
  {
  }

  /** The payload bound to a type is that of its last attribute. */
  lemma {:induction false} BindsLast(p: Policy, s: seq<Attr>, bound: Bound, k: nat)
    requires k < |s| && s[k].ty in p && forall j | k < j < |s| :: s[j].ty != s[k].ty
    ensures s[k].ty in Bind(p, s, bound) && Bind(p, s, bound)[s[k].ty] == s[k].payload
    decreases |s|
  {
    var b' := if s[0].ty in p then bound[s[0].ty := s[0].payload] else bound;
    if k == 0 {
      BindKeeps(p, s[1..], b', s[0].ty);
    } else {
      BindsLast(p, s[1..], b', k - 1);
    }
  }

  lemma {:induction false} BindKeeps(p: Policy, s: seq<Attr>, bound: Bound, ty: uint16)
    requires forall j | 0 <= j < |s| :: s[j].ty != ty
    ensures (ty in Bind(p, s, bound) <==> ty in bound) && (ty in bound ==> Bind(p, s, bound)[ty] == bound[ty])
    decreases |s|
  {
    if s != [] { BindKeeps(p, s[1..], if s[0].ty in p then bound[s[0].ty := s[0].payload] else bound, ty); }
  }

  // ----- The objects

  class NlMessage {
    var buffer: Bytes
    /** The nlmsg_len field of the message header. */
    var nlmsgLen: nat

    ghost predicate Valid()
      reads this
    {
      nlmsgLen == |buffer|
    }

    /** Adds `content` and less than four zero bytes, which keep what comes next
        aligned. */
    method Put(content: Bytes)
      modifies this
      ensures Valid() && |old(buffer)| + |content| <= |buffer| < |old(buffer)| + |content| + 4
      ensures |old(buffer)| % 4 == 0 ==> |buffer| % 4 == 0
      ensures old(buffer) + content <= buffer
      ensures forall i | |old(buffer)| + |content| <= i < |buffer| :: buffer[i] == 0
      ensures buffer == old(buffer) + content + Zeros(Align(|content|) - |content|)
    {
      AlignIs(|content|);
      buffer := buffer + content + Zeros(Align(|content|) - |content|);
      nlmsgLen := |buffer|;
    }

    method PutUnspec(ty: uint16, content: Bytes) returns (threw: bool)
      requires Valid()
      modifies this
      ensures Valid() && (threw <==> Composed(ty, content).None?)
      ensures buffer == old(buffer) + (if threw then [] else Composed(ty, content).value)
    {
      if |content| > UINT16_MAX { return true; }
      var header := Put16((|content| + NLA_HDRLEN) % 0x1_0000) + Put16(ty);
      Put(header);
      Put(content);
      return false;
    }
  }

  function PolicyOf(es: seq<(uint16, Elem)>): Policy {
    if es == [] then map[]
    else
      var (ty, e) := es[|es| - 1];
      PolicyOf(es[..|es| - 1])[ty := e]
  }

  lemma {:induction false} NotYet(es: seq<(uint16, Elem)>, ty: uint16)
    requires forall i | 0 <= i < |es| :: es[i].0 != ty
    ensures ty !in PolicyOf(es)
  {
    if es != [] { NotYet(es[..|es| - 1], ty); }
  }

  lemma OneMore(p: Policy, ty: uint16, e: Elem)
    requires ty !in p
    ensures |RequiredTypes(p[ty := e])| == |RequiredTypes(p)| + if e.required then 1 else 0
  {
    assert RequiredTypes(p[ty := e]) == RequiredTypes(p) + (if e.required then {ty} else {});
  }

  class NlPolicy {
    var elements: Policy
    var nRequired: nat

    ghost predicate Valid()
      reads this
    {
      nRequired == |RequiredTypes(elements)| && Sensible(elements)
    }

    /** Nl_policy::init: one element for each type, and a count of those required. */
    constructor (es: seq<(uint16, Elem)>)
      requires forall i, j | 0 <= i < j < |es| :: es[i].0 != es[j].0
      requires forall i | 0 <= i < |es| && es[i].1.nulString :: es[i].1.minLen >= 1
      ensures Valid() && elements == PolicyOf(es)
    {
      elements, nRequired := map[], 0;
      new;
      assert RequiredTypes(elements) == {};
      for k := 0 to |es|
        invariant Valid() && elements == PolicyOf(es[..k])
      {
        NotYet(es[..k], es[k].0);
        assert es[..k + 1] == es[..k] + [es[k]];
        AddElement(es[k].0, es[k].1);
      }
      assert es[..|es|] == es;
    }

    method AddElement(ty: uint16, e: Elem)
      requires Valid() && ty !in elements && (e.nulString ==> e.minLen >= 1)
      modifies this
      ensures Valid() && elements == old(elements)[ty := e]
    {
      OneMore(elements, ty, e);
      elements := elements[ty := e];
      if e.required { nRequired := nRequired + 1; }
    }

    /** One attribute: its place in the buffer, its length and its content. */
    method Check(b: Bytes) returns (ok: bool, a: Attr, rest: Bytes)
      requires Valid() && b != []
      ensures ok <==> HasFirst(b) && AllowsType(elements, First(b).0.ty, First(b).0.payload)
      ensures ok ==> (a, rest) == First(b)
    {
      a, rest := Attr(0, [], []), [];
      if |b| < NLA_HDRLEN { return false, a, rest; }
      var nlaLen := Get16(b, 0);
      if nlaLen < NLA_HDRLEN { return false, a, rest; }
      var len := nlaLen - NLA_HDRLEN;
      AlignIs(len);
      var alignedLen := Align(len);
      if alignedLen > |b| - NLA_HDRLEN { return false, a, rest; }
      a := Attr(Get16(b, 2), b[NLA_HDRLEN..NLA_HDRLEN + len], b[NLA_HDRLEN + len..NLA_HDRLEN + alignedLen]);
      rest := b[NLA_HDRLEN + alignedLen..];
      if a.ty in elements {
        var e := elements[a.ty];
        if len < e.minLen || len > e.maxLen { return false, a, rest; }
        if e.nulString && b[nlaLen - 1] != 0 { return false, a, rest; }
      }
      return true, a, rest;
    }

    method Take(attrs: Bound, stillRequired: nat, a: Attr) returns (attrs': Bound, left: nat)
      requires stillRequired == |RequiredTypes(elements) - attrs.Keys|
      ensures attrs' == if a.ty in elements then attrs[a.ty := a.payload] else attrs
      ensures left == |RequiredTypes(elements) - attrs'.Keys|
    {
      attrs', left := attrs, stillRequired;
      if a.ty in elements {
        CountDown(RequiredTypes(elements), attrs, a.ty, a.payload);
        if elements[a.ty].required && a.ty !in attrs { left := left - 1; }
        attrs' := attrs[a.ty := a.payload];
      }
    }

    /** The loop of parse(); it counts down the required types not yet seen. */
    method ParseBuffer(buffer: Bytes) returns (ok: bool, attrs: Bound)
      requires Valid()
      ensures ok <==> Parse(elements, buffer).Some?
      ensures ok ==> attrs == Parse(elements, buffer).value
    {
      attrs := map[];
      var stillRequired := nRequired;
      var b := buffer;
      assert RequiredTypes(elements) - {} == RequiredTypes(elements);
      while |b| > 0
        invariant ParseFrom(elements, b, attrs) == ParseFrom(elements, buffer, map[])
        invariant stillRequired == |RequiredTypes(elements) - attrs.Keys|
        decreases |b|
      {
        ParseStep(elements, b, attrs);
        var fine, a, rest := Check(b);
        if !fine { return false, attrs; }
        FirstIs(b);
        attrs, stillRequired := Take(attrs, stillRequired, a);
        b := rest;
      }
      ok := stillRequired == 0;
      assert ok <==> RequiredTypes(elements) - attrs.Keys == {};
    }
  }

  lemma CountDown(required: set<uint16>, attrs: Bound, ty: uint16, payload: Bytes)
    ensures |required - attrs[ty := payload].Keys| == |required - attrs.Keys| - if ty in required && ty !in attrs then 1 else 0
  {
    var open := required - attrs.Keys;
    assert required - attrs[ty := payload].Keys == open - {ty};
    assert ty !in open ==> open - {ty} == open;
  }
}
