/** Packet expressions, the rule language of the classifier
    (src/include/expr.hh, src/lib/expr.cc).

    The bit masks `wildcards` and `path` are modelled as the set of their one
    bits: MASKS[f] & m != 0 is `f in m`, ~m is BITS - m. */
module PacketExpr {

  import opened Basics

  type Bit = b: nat | b < 32
  type Mask = set<Bit>

  const BITS: Mask := set b: Bit | 0 <= b < 32

  const AP_SRC: Bit := 0
  const AP_DST: Bit := 1
  const DL_VLAN: Bit := 2
  const DL_VLAN_PCP: Bit := 3
  const DL_TYPE: Bit := 4
  const DL_SRC: Bit := 5
  const DL_DST: Bit := 6
  const NW_SRC: Bit := 7
  const NW_DST: Bit := 8
  const NW_PROTO: Bit := 9
  const TP_SRC: Bit := 10
  const TP_DST: Bit := 11
  const GROUP_SRC: Bit := 12
  const GROUP_DST: Bit := 13

  /** Number of fields the tree may split on; GROUP_DST is not among them. */
  const NUM_FIELDS: nat := 13
  const LEAF_THRESHOLD: nat := 1

  /** An Ethernet address, first octet first. */
  datatype Mac = Mac(o0: uint8, o1: uint8, o2: uint8, o3: uint8, o4: uint8, o5: uint8)

  /** The last four octets copied into a uint32 (little-endian host). */
  function LowWord(m: Mac): uint32 {
    m.o2 + 0x100 * m.o3 + 0x1_0000 * m.o4 + 0x100_0000 * m.o5
  }

  datatype Expr = Expr(
    apSrc: uint16, apDst: uint16, dlVlan: uint16, dlVlanPcp: uint16, dlProto: uint16,
    dlSrc: Mac, dlDst: Mac, nwSrc: uint32, nwDst: uint32, tpSrc: uint16, tpDst: uint16,
    groupSrc: uint32, groupDst: uint32, wildcards: Mask, nwProto: uint8)

  datatype Flow = Flow(
    inPort: uint16, dlVlan: uint16, dlVlanPcp: uint8, dlSrc: Mac, dlDst: Mac, dlType: uint16,
    nwSrc: uint32, nwDst: uint32, nwProto: uint8, tpSrc: uint16, tpDst: uint16)

  /** What a lookup is made for: a packet's flow, or another expression. */
  datatype Data = OfFlow(flow: Flow) | OfExpr(expr: Expr)

  /** The value the tree branches on, None where the rule is wildcarded (or the
      field number has no meaning). */
  function GetField(e: Expr, f: Bit): Option<uint32> {
    if f in e.wildcards then None
    else if f == AP_SRC then Some(e.apSrc)
    else if f == AP_DST then Some(e.apDst)
    else if f == DL_VLAN then Some(e.dlVlan)
    else if f == DL_VLAN_PCP then Some(e.dlVlanPcp)
    else if f == DL_TYPE then Some(e.dlProto)
    else if f == DL_SRC then Some(LowWord(e.dlSrc))
    else if f == DL_DST then Some(LowWord(e.dlDst))
    else if f == NW_SRC then Some(e.nwSrc)
    else if f == NW_DST then Some(e.nwDst)
    else if f == NW_PROTO then Some(e.nwProto)
    else if f == TP_SRC then Some(e.tpSrc)
    else if f == TP_DST then Some(e.tpDst)
    else if f == GROUP_SRC then Some(e.groupSrc)
    else if f == GROUP_DST then Some(e.groupDst)
    else None
  }

  /** get_field<Packet_expr, Flow> at index 0; asking a flow for AP_DST runs
      into assert(0), so the caller must not. */
  function FlowField(fl: Flow, f: Bit): Option<uint32>
    requires f != AP_DST
  {
    if f == AP_SRC then Some(fl.inPort)
    else if f == DL_VLAN then Some(fl.dlVlan)
    else if f == DL_VLAN_PCP then Some(fl.dlVlanPcp)
    else if f == DL_TYPE then Some(fl.dlType)
    else if f == DL_SRC then Some(LowWord(fl.dlSrc))
    else if f == DL_DST then Some(LowWord(fl.dlDst))
    else if f == NW_SRC then Some(fl.nwSrc)
    else if f == NW_DST then Some(fl.nwDst)
    else if f == NW_PROTO then Some(fl.nwProto)
    else if f == TP_SRC then Some(fl.tpSrc)
    else if f == TP_DST then Some(fl.tpDst)
    else None
  }

  /** The lookup may ask `d` for field `f` without failing an assertion. */
  predicate Askable(d: Data, f: Bit) {
    d.OfFlow? ==> f != AP_DST
  }

  /** The value of `d` the traversal hashes; indexes above 0 give none, for
      both kinds of data, so one optional value says it all. */
  function DataField(d: Data, f: Bit): Option<uint32>
    requires Askable(d, f)
  {
    match d
    case OfFlow(fl) => FlowField(fl, f)
    case OfExpr(e) => GetField(e, f)
  }

  /** Some field not yet split on is not wildcarded: ~path & ~wildcards != 0. */
  predicate Splittable(e: Expr, path: Mask) {
    BITS - path - e.wildcards != {}
  }

  /** The assertion at the head of the flow match. */
  predicate FlowOnly(e: Expr) {
    AP_DST in e.wildcards && GROUP_SRC in e.wildcards && GROUP_DST in e.wildcards
  }

  predicate MatchesFlow(e: Expr, fl: Flow)
    requires FlowOnly(e)
  {
    && (AP_SRC in e.wildcards || e.apSrc == fl.inPort)
    && (DL_VLAN in e.wildcards || e.dlVlan == fl.dlVlan)
    && (DL_VLAN_PCP in e.wildcards || e.dlVlanPcp == fl.dlVlanPcp)
    && (DL_TYPE in e.wildcards || e.dlProto == fl.dlType)
    && (DL_SRC in e.wildcards || e.dlSrc == fl.dlSrc)
    && (DL_DST in e.wildcards || e.dlDst == fl.dlDst)
    && (NW_SRC in e.wildcards || e.nwSrc == fl.nwSrc)
    && (NW_DST in e.wildcards || e.nwDst == fl.nwDst)
    && (NW_PROTO in e.wildcards || e.nwProto == fl.nwProto)
    && (TP_SRC in e.wildcards || e.tpSrc == fl.tpSrc)
    && (TP_DST in e.wildcards || e.tpDst == fl.tpDst)
  }

  predicate MatchesExpr(e: Expr, t: Expr) {
    && e.wildcards + t.wildcards == t.wildcards
    && (AP_SRC in t.wildcards || e.apSrc == t.apSrc)
    && (AP_DST in t.wildcards || e.apDst == t.apDst)
    && (DL_VLAN in t.wildcards || e.dlVlan == t.dlVlan)
    && (DL_VLAN_PCP in t.wildcards || e.dlVlanPcp == t.dlVlanPcp)
    && (DL_TYPE in t.wildcards || e.dlProto == t.dlProto)
    && (DL_SRC in t.wildcards || e.dlSrc == t.dlSrc)
    && (DL_DST in t.wildcards || e.dlDst == t.dlDst)
    && (NW_SRC in t.wildcards || e.nwSrc == t.nwSrc)
    && (NW_DST in t.wildcards || e.nwDst == t.nwDst)
    && (NW_PROTO in t.wildcards || e.nwProto == t.nwProto)
    && (TP_SRC in t.wildcards || e.tpSrc == t.tpSrc)
    && (TP_DST in t.wildcards || e.tpDst == t.tpDst)
    && (GROUP_SRC in t.wildcards || e.groupSrc == t.groupSrc)
    && (GROUP_DST in t.wildcards || e.groupDst == t.groupDst)
  }

  /** The match may be evaluated without failing its assertion. */
  predicate Matchable(e: Expr, d: Data) {
    d.OfFlow? ==> FlowOnly(e)
  }

  predicate Matches(e: Expr, d: Data)
    requires Matchable(e, d)
  {
    match d
    case OfFlow(fl) => MatchesFlow(e, fl)
    case OfExpr(t) => MatchesExpr(e, t)
  }

  /** All fields wildcarded but one. */
  predicate Fixes(e: Expr, f: Bit) { forall g: Bit :: g in e.wildcards <==> g != f }

  /** Field by field: an expression that fixes a single one matches exactly the
      flows with that value. */
  lemma FixedFieldMatches(e: Expr, fl: Flow)
    ensures Fixes(e, AP_SRC) ==> FlowOnly(e) && (MatchesFlow(e, fl) <==> fl.inPort == e.apSrc)
    ensures Fixes(e, DL_VLAN) ==> FlowOnly(e) && (MatchesFlow(e, fl) <==> fl.dlVlan == e.dlVlan)
    ensures Fixes(e, DL_VLAN_PCP) ==> FlowOnly(e) && (MatchesFlow(e, fl) <==> fl.dlVlanPcp == e.dlVlanPcp)
    ensures Fixes(e, DL_TYPE) ==> FlowOnly(e) && (MatchesFlow(e, fl) <==> fl.dlType == e.dlProto)
    ensures Fixes(e, DL_SRC) ==> FlowOnly(e) && (MatchesFlow(e, fl) <==> fl.dlSrc == e.dlSrc)
    ensures Fixes(e, DL_DST) ==> FlowOnly(e) && (MatchesFlow(e, fl) <==> fl.dlDst == e.dlDst)
    ensures Fixes(e, NW_SRC) ==> FlowOnly(e) && (MatchesFlow(e, fl) <==> fl.nwSrc == e.nwSrc)
    ensures Fixes(e, NW_DST) ==> FlowOnly(e) && (MatchesFlow(e, fl) <==> fl.nwDst == e.nwDst)
    ensures Fixes(e, NW_PROTO) ==> FlowOnly(e) && (MatchesFlow(e, fl) <==> fl.nwProto == e.nwProto)
    ensures Fixes(e, TP_SRC) ==> FlowOnly(e) && (MatchesFlow(e, fl) <==> fl.tpSrc == e.tpSrc)
    ensures Fixes(e, TP_DST) ==> FlowOnly(e) && (MatchesFlow(e, fl) <==> fl.tpDst == e.tpDst)
  {
  }

  /** A rule matches a flow exactly if it matches it in each field it fixes. */
  lemma MatchesByField(e: Expr, fl: Flow)
    requires FlowOnly(e)
    ensures MatchesFlow(e, fl) <==> forall f: Bit | f !in e.wildcards :: MatchesFlow(e.(wildcards := BITS - {f}), fl)
  {
    if forall f: Bit | f !in e.wildcards :: MatchesFlow(e.(wildcards := BITS - {f}), fl) {
      forall f: Bit | f in {AP_SRC, DL_VLAN, DL_VLAN_PCP, DL_TYPE, DL_SRC, DL_DST, NW_SRC, NW_DST, NW_PROTO, TP_SRC, TP_DST}
        ensures f in e.wildcards || MatchesFlow(e.(wildcards := BITS - {f}), fl) {}
    }
  }

  /** Why hashing on a field never loses a match: a rule that fixes `f` and
      matches the data agrees with whatever value the data has for `f`. */
  lemma MatchAgreesOnField(e: Expr, d: Data, f: Bit)
    requires Matchable(e, d) && Matches(e, d) && Askable(d, f)
    ensures GetField(e, f).Some? && DataField(d, f).Some? ==> GetField(e, f) == DataField(d, f)
  {
  }

  // ----- An expression match is containment of flow sets

  /** The 16-bit priority field of the rule fits the 8-bit one of a flow. */
  predicate InRange(e: Expr) {
    DL_VLAN_PCP in e.wildcards || e.dlVlanPcp < 256
  }

  ghost predicate Contained(e: Expr, t: Expr)
    requires FlowOnly(e) && FlowOnly(t)
  {
    forall fl: Flow :: MatchesFlow(e, fl) ==> MatchesFlow(t, fl)
  }

  const FLOW_FIELDS: Mask :=
    {AP_SRC, DL_VLAN, DL_VLAN_PCP, DL_TYPE, DL_SRC, DL_DST, NW_SRC, NW_DST, NW_PROTO, TP_SRC, TP_DST}

  /** A flow the rule matches; on fields it leaves open, one `t` does not. */
  function Separating(e: Expr, t: Expr): (fl: Flow)
    requires FlowOnly(e) && InRange(e)
    ensures MatchesFlow(e, fl)
  {
    var w := e.wildcards;
    Flow(
      Pick16(AP_SRC in w, t.apSrc, e.apSrc),
      Pick16(DL_VLAN in w, t.dlVlan, e.dlVlan),
      if DL_VLAN_PCP in w then Other(t.dlVlanPcp) else e.dlVlanPcp,
      PickMac(DL_SRC in w, t.dlSrc, e.dlSrc),
      PickMac(DL_DST in w, t.dlDst, e.dlDst),
      Pick16(DL_TYPE in w, t.dlProto, e.dlProto),
      Pick32(NW_SRC in w, t.nwSrc, e.nwSrc),
      Pick32(NW_DST in w, t.nwDst, e.nwDst),
      if NW_PROTO in w then Other(t.nwProto) else e.nwProto,
      Pick16(TP_SRC in w, t.tpSrc, e.tpSrc),
      Pick16(TP_DST in w, t.tpDst, e.tpDst))
  }

  function Other(v: nat): uint8 { if v == 0 then 1 else 0 }
  function Pick16(open: bool, t: uint16, v: uint16): uint16 { if open then Other(t) else v }
  function Pick32(open: bool, t: uint32, v: uint32): uint32 { if open then Other(t) else v }
  function PickMac(open: bool, t: Mac, v: Mac): Mac { if open then t.(o0 := Other(t.o0)) else v }

  /** For a rule that can match some flow, `matches` against a pattern is
      exactly containment of flow sets, up to wildcard bits that stand for no
      flow field (a pattern with such a bit cleared only matches rules that
      clear it too). */
  lemma MatchIsContainment(e: Expr, t: Expr)
    requires FlowOnly(e) && FlowOnly(t) && InRange(e)
    ensures MatchesExpr(e, t) <==> Contained(e, t) && e.wildcards - FLOW_FIELDS <= t.wildcards
  {
    if MatchesExpr(e, t) {
      forall b | b in e.wildcards ensures b in t.wildcards {
        assert b in e.wildcards + t.wildcards;
      }
    }
    if Contained(e, t) && e.wildcards - FLOW_FIELDS <= t.wildcards {
      var fl := Separating(e, t);
      assert MatchesFlow(t, fl);
      forall b | b in e.wildcards ensures b in t.wildcards {
        if b in FLOW_FIELDS {
          SeparatingDiffers(e, t, b);
        } else {
          assert b in e.wildcards - FLOW_FIELDS;
        }
      }
      assert e.wildcards + t.wildcards == t.wildcards;
    }
  }

  lemma SeparatingDiffers(e: Expr, t: Expr, b: Bit)
    requires FlowOnly(e) && FlowOnly(t) && InRange(e)
    requires b in FLOW_FIELDS && b in e.wildcards
    requires MatchesFlow(t, Separating(e, t))
    ensures b in t.wildcards
  {
  }

  /** The two readings of a pattern: by its fields, and by its flows. */
  ghost predicate Agree(e: Expr, t: Expr)
    requires FlowOnly(e) && FlowOnly(t)
  {
    MatchesExpr(e, t) <==> Contained(e, t)
  }

  /** The range condition is exact.  A rule outside it matches no flow, so it is
      contained in every pattern, yet it matches no pattern that fixes the
      field to another value. */
  lemma ContainmentIffInRange(e: Expr)
    requires FlowOnly(e)
    ensures InRange(e) <==> forall t: Expr | FlowOnly(t) && e.wildcards - FLOW_FIELDS <= t.wildcards :: Agree(e, t)
  {
    if InRange(e) {
      forall t: Expr | FlowOnly(t) && e.wildcards - FLOW_FIELDS <= t.wildcards ensures Agree(e, t) {
        MatchIsContainment(e, t);
      }
    } else {
      var t := e.(dlVlanPcp := 0);
      assert forall fl: Flow :: !MatchesFlow(e, fl);
      assert FlowOnly(t) && Contained(e, t) && !MatchesExpr(e, t);
      assert !Agree(e, t);
    }
  }
}
