/** Unicode escapes become UTF-8 (section 3 of RFC 3629), surrogate pairs (section
    2.1 of RFC 2781) included; and how much room the parser's buffers need. */
module JsonUnicode {
  import opened Basics
  import opened JsonTable
  import opened JsonTree
  import opened JsonParser
  import opened JsonSafe
  import opened JsonSteps
  import opened JsonValues

  // ----- References

  predicate IsScalar(u: int) { 0 <= u < 0xD800 || 0xE000 <= u < 0x11_0000 }

  /** The table of RFC 3629. */
  function Utf8(u: int): seq<int> {
    if u < 0x80 then [u]
    else if u < 0x800 then [0xC0 + u / 0x40, 0x80 + u % 0x40]
    else if u < 0x1_0000 then [0xE0 + u / 0x1000, 0x80 + u / 0x40 % 0x40, 0x80 + u % 0x40]
    else [0xF0 + u / 0x4_0000, 0x80 + u / 0x1000 % 0x40, 0x80 + u / 0x40 % 0x40, 0x80 + u % 0x40]
  }

  /** Reads one character back. */
  function FromUtf8(bs: seq<int>): int {
    if |bs| == 1 then bs[0]
    else if |bs| == 2 then (bs[0] - 0xC0) * 0x40 + (bs[1] - 0x80)
    else if |bs| == 3 then (bs[0] - 0xE0) * 0x1000 + (bs[1] - 0x80) * 0x40 + (bs[2] - 0x80)
    else if |bs| == 4 then (bs[0] - 0xF0) * 0x4_0000 + (bs[1] - 0x80) * 0x1000 + (bs[2] - 0x80) * 0x40 + (bs[3] - 0x80)
    else -1
  }

  lemma Utf8Inverse(u: int)
    requires IsScalar(u)
    ensures FromUtf8(Utf8(u)) == u && forall i | 0 <= i < |Utf8(u)| :: 0 <= Utf8(u)[i] < 256
  {
    Sextets(u);
  }

  /** Six bits at a time. */
  lemma Sextets(u: nat)
    ensures u == u / 0x40 * 0x40 + u % 0x40
    ensures u / 0x40 == u / 0x1000 * 0x40 + u / 0x40 % 0x40
    ensures u / 0x1000 == u / 0x4_0000 * 0x40 + u / 0x1000 % 0x40
  {
    var a := u / 0x40;
    assert u / 0x1000 == a / 0x40;
    var b := u / 0x1000;
    assert u / 0x4_0000 == b / 0x40;
  }

  function HighHalf(u: int): int { 0xD800 + (u - 0x1_0000) / 0x400 }
  function LowHalf(u: int): int { 0xDC00 + (u - 0x1_0000) % 0x400 }

  function DigitValue(c: int): int {
    if 48 <= c <= 57 then c - 48 else if 97 <= c <= 102 then c - 87 else if 65 <= c <= 70 then c - 55 else -1
  }

  function Unit(a: int, b: int, c: int, d: int): int {
    ((DigitValue(a) * 16 + DigitValue(b)) * 16 + DigitValue(c)) * 16 + DigitValue(d)
  }

  /** A backslash, a u and four hex digits of either case for a 16-bit unit. */
  predicate Spells(t: seq<int>, u: int) {
    && |t| == 6 && t[0] == 92 && t[1] == 117
    && (forall i | 2 <= i < 6 :: DigitValue(t[i]) >= 0)
    && u == Unit(t[2], t[3], t[4], t[5])
  }

  predicate SpellsScalar(t: seq<int>, u: int) {
    if u < 0x1_0000 then Spells(t, u)
    else |t| == 12 && Spells(t[..6], HighHalf(u)) && Spells(t[6..], LowHalf(u))
  }

  /** A text that spells a sequence of scalar values, one escape after the other. */
  predicate SpellsAll(ts: seq<seq<int>>, us: seq<int>) {
    |ts| == |us| && forall i | 0 <= i < |us| :: IsScalar(us[i]) && SpellsScalar(ts[i], us[i])
  }

  function Concat(ts: seq<seq<int>>): seq<int> { if ts == [] then [] else ts[0] + Concat(ts[1..]) }

  function Utf8All(us: seq<int>): seq<int> { if us == [] then [] else Utf8(us[0]) + Utf8All(us[1..]) }

  // ----- One unit

  lemma HexDigit(c: int)
    requires DigitValue(c) >= 0
    ensures 0 <= c < 128 && IsHex(ClassOf(c)) && HexValue(c) == DigitValue(c) < 16
  {
  }

  /** In a string, or waiting for the second half of a pair. */
  predicate InText(p: Parser) {
    && !p.escaped && !p.comment && p.ty == TString && |p.buf| + 1 <= p.cap
    && ((p.state == ST && p.high == 0) || (p.state == D1 && IsHigh(p.high)))
  }

  /** `q` is at the first hex digit. */
  ghost predicate AtHex(p: Parser, q: Parser) {
    |q.buf| + 1 <= q.cap && q == p.(cap := q.cap, state := U1, buf := p.buf + [92, 117])
  }

  /** The backslash and the u. */
  lemma PrefixFed(p: Parser) returns (q: Parser)
    requires InText(p)
    ensures Reads(p, [92] + [117], q) && AtHex(p, q)
  {
    var p1;
    if p.state == ST { p1, q := EscapeFed(p); } else { p1, q := SecondFed(p); }
    ReadsOne(p1, 117, q);
    ReadsFirst(p, 92, p1, [117], q);
  }

  lemma EscapeFed(p: Parser) returns (p1: Parser, q: Parser)
    requires InText(p) && p.state == ST
    ensures Steps(p, 92, p1) && Steps(p1, 117, q) && AtHex(p, q)
  {
    CharIs(p, 92);
    p1 := Char(p, 92).p;
    AddedEscaped(p1, 117, C_LOW_U);
    q := Char(p1, 117).p;
    assert p1.buf[..|p1.buf| - 1] == p.buf;
    assert p.buf + [92] + [117] == p.buf + [92, 117];
  }

  lemma SecondFed(p: Parser) returns (p1: Parser, q: Parser)
    requires InText(p) && p.state == D1
    ensures Steps(p, 92, p1) && Steps(p1, 117, q) && AtHex(p, q)
  {
    CharIs(p, 92);
    p1 := Char(p, 92).p;
    CharIs(p1, 117);
    q := Char(p1, 117).p;
    assert p.buf + [92] + [117] == p.buf + [92, 117];
  }

  lemma HexStep(p: Parser, c: int)
    requires !p.escaped && !p.comment && p.ty == TString && |p.buf| + 1 <= p.cap && U1 <= p.state <= U3 && DigitValue(c) >= 0
    ensures Steps(p, c, p.(cap := Cap(p), state := p.state + 1, buf := p.buf + [c % 256]))
  {
    HexDigit(c);
    CharIs(p, c);
  }

  lemma HexesFed(p: Parser, a: uint8, b: uint8, c: uint8) returns (q: Parser)
    requires !p.escaped && !p.comment && p.ty == TString && |p.buf| + 1 <= p.cap && p.state == U1
    requires DigitValue(a) >= 0 && DigitValue(b) >= 0 && DigitValue(c) >= 0
    ensures Reads(p, [a] + ([b] + [c]), q) && |q.buf| + 1 <= q.cap && q == p.(cap := q.cap, state := U4, buf := p.buf + [a, b, c])
  {
    HexStep(p, a);
    var p1 := p.(cap := Cap(p), state := U2, buf := p.buf + [a]);
    HexStep(p1, b);
    var p2 := p1.(cap := Cap(p1), state := U3, buf := p1.buf + [b]);
    HexStep(p2, c);
    q := p2.(cap := Cap(p2), state := U4, buf := p2.buf + [c]);
    ReadsOne(p2, c, q);
    ReadsFirst(p1, b, p2, [c], q);
    ReadsFirst(p, a, p1, [b] + [c], q);
    assert p.buf + [a] + [b] + [c] == p.buf + [a, b, c];
  }

  /** The character a unit completes. */
  function Completes(high: int, u: int): int {
    if high == 0 then u else 0x1_0000 + (high - 0xD800) * 0x400 + (u - 0xDC00)
  }

  /** A unit that may come next: no second half without a first, nor the other
      way round. */
  predicate InOrder(high: int, u: int) {
    0 <= u < 0x1_0000 && if high == 0 then !IsLow(u) else IsHigh(high) && IsLow(u)
  }

  ghost predicate Writes(p: Parser, v: int, o: Outcome) {
    && IsScalar(v) && (forall i | 0 <= i < |Utf8(v)| :: 0 <= Utf8(v)[i] < 256)
    && o == Accepted(p.(high := 0, buf := p.buf + Utf8(v)))
  }

  lemma PairIs(p: Parser, u: nat)
    requires IsHigh(p.high) && IsLow(u) && |p.buf| + 6 <= p.cap
    ensures Writes(p, Completes(p.high, u), Place(p, u))
  {
    assert p.high % 0x400 == p.high - 0xD800 && u % 0x400 == u - 0xDC00;
    EmitIs(p.(high := 0), Completes(p.high, u));
  }

  /** A unit is refused if and only if it is a half of a pair without the other. */
  lemma UnpairedRefusedIff(p: Parser, u: nat)
    requires u < 0x1_0000 && (p.high == 0 || IsHigh(p.high)) && |p.buf| + 6 <= p.cap
    ensures !Place(p, u).Accepted? <==> if p.high == 0 then IsLow(u) else !IsLow(u)
    ensures Place(p, u).Accepted? || Place(p, u) == Rejected
  {
    if p.high != 0 {
      if IsLow(u) { PairIs(p, u); }
    } else if !IsHigh(u) && !IsLow(u) {
      SingleIs(p, u);
    }
  }

  lemma SingleIs(p: Parser, u: nat)
    requires p.high == 0 && IsScalar(u) && u < 0x1_0000 && |p.buf| + 6 <= p.cap
    ensures Writes(p, u, Place(p, u))
  {
    EmitIs(p, u);
  }

  /** Decoding takes the escape away and, unless it is a first half, appends the
      UTF-8 bytes of the character; that always fits. */
  lemma DecodeIs(p: Parser, before: Text)
    requires |p.buf| == |before| + 6 && p.buf[..|before|] == before && HexTail(p.buf, 4) && |p.buf| + 1 <= p.cap
    ensures 0 <= UnitOf(p.buf) < 0x1_0000 && Decode(p) == Place(p.(buf := before), UnitOf(p.buf))
  {
  }

  function Trail(v: int): nat { if v < 0x80 then 0 else if v < 0x800 then 1 else if v < 0x1_0000 then 2 else 3 }

  lemma EmitIs(p: Parser, v: int)
    requires IsScalar(v) && |p.buf| + 6 <= p.cap
    ensures forall i | 0 <= i < |Utf8(v)| :: 0 <= Utf8(v)[i] < 256
    ensures Emit(p, v, Trail(v)) == Accepted(p.(buf := p.buf + Utf8(v)))
  {
    Utf8Inverse(v);
    assert Utf8Bytes(v, Trail(v)) == Utf8(v);
    AlreadyBytes(Utf8(v));
  }

  lemma AlreadyBytes(bs: seq<int>)
    requires forall i | 0 <= i < |bs| :: 0 <= bs[i] < 256
    ensures seq(|bs|, i requires 0 <= i < |bs| => bs[i] % 256) == bs
  {
  }

  /** What reading a unit leaves in place of its escape. */
  ghost predicate UnitRead(p: Parser, u: int, q: Parser) {
    && InText(q)
    && if p.high == 0 && IsHigh(u) then q == p.(cap := q.cap, state := D1, high := u)
       else
         var bs := Utf8(Completes(p.high, u));
         (forall i | 0 <= i < |bs| :: 0 <= bs[i] < 256) && q == p.(cap := q.cap, state := ST, high := 0, buf := p.buf + bs)
  }

  lemma HexBuffer(buf: Text, a: uint8, b: uint8, c: uint8, d: uint8)
    requires DigitValue(a) >= 0 && DigitValue(b) >= 0 && DigitValue(c) >= 0 && DigitValue(d) >= 0
    ensures var all := buf + [92, 117, a, b, c] + [d];
            HexTail(all, 4) && UnitOf(all) == Unit(a, b, c, d) && all[..|buf|] == buf && |all| == |buf| + 6
  {
    HexDigit(a);
    HexDigit(b);
    HexDigit(c);
    HexDigit(d);
  }

  /** The last hex digit completes the unit. */
  lemma LastHex(p: Parser, q: Parser, d: uint8, u: nat) returns (r: Parser)
    requires InText(p) && |q.buf| + 1 <= q.cap && q == p.(cap := q.cap, state := U4, buf := q.buf) && DigitValue(d) >= 0
    requires var all := q.buf + [d];
             |all| == |p.buf| + 6 && all[..|p.buf|] == p.buf && HexTail(all, 4) && UnitOf(all) == u
    requires InOrder(p.high, u)
    ensures Steps(q, d, r) && UnitRead(p, u, r)
  {
    var k := ClassOf(d);
    HexAdded(q, d, k);
    CharIs(q, d);
    UnitDone(p, Added(q, d, k), u, Table(q.state, k));
    r := Perform(Added(q, d, k), Table(q.state, k)).p;
  }

  lemma HexAdded(q: Parser, d: uint8, k: int)
    requires !q.escaped && !q.comment && q.ty == TString && |q.buf| + 1 <= q.cap && q.state == U4
    requires DigitValue(d) >= 0 && k == ClassOf(d)
    ensures Added(q, d, k) == q.(cap := Cap(q), buf := q.buf + [d]) && Table(q.state, k) == UC && k >= 0
  {
    HexDigit(d);
  }

  lemma UnitDone(p: Parser, r: Parser, u: nat, cell: int)
    requires InText(p) && InOrder(p.high, u) && |r.buf| + 1 <= r.cap && r == p.(cap := r.cap, state := U4, buf := r.buf)
    requires |r.buf| == |p.buf| + 6 && r.buf[..|p.buf|] == p.buf && HexTail(r.buf, 4) && UnitOf(r.buf) == u && cell == UC
    ensures Perform(r, cell).Accepted? && UnitRead(p, u, Perform(r, cell).p)
  {
    DecodeIs(r, p.buf);
    UnitPlaced(p, r, u);
  }

  lemma UnitPlaced(p: Parser, r: Parser, u: nat)
    requires InText(p) && InOrder(p.high, u) && |p.buf| + 6 <= r.cap
    requires r == p.(cap := r.cap, state := U4, buf := r.buf)
    ensures var o := Place(r.(buf := p.buf), u);
            o.Accepted? && UnitRead(p, u, o.p.(state := if o.p.high != 0 then D1 else ST))
  {
    var r1 := r.(buf := p.buf);
    if p.high != 0 { PairIs(r1, u); } else if !IsHigh(u) { SingleIs(r1, u); }
  }

  lemma UnitFed(p: Parser, t: seq<int>, u: int) returns (r: Parser)
    requires InText(p) && Spells(t, u) && InOrder(p.high, u)
    ensures Reads(p, t, r) && UnitRead(p, u, r)
  {
    forall i | 2 <= i < 6 ensures 0 <= t[i] < 256 { HexDigit(t[i]); }
    var q1 := PrefixFed(p);
    var q := HexesFed(q1, t[2], t[3], t[4]);
    assert p.buf + [92, 117] + [t[2], t[3], t[4]] == p.buf + [92, 117, t[2], t[3], t[4]];
    HexBuffer(p.buf, t[2], t[3], t[4], t[5]);
    r := LastHex(p, q, t[5], u);
    var hexes := [t[2]] + ([t[3]] + [t[4]]);
    ReadsThen(p, [92] + [117], q1, hexes, q);
    ReadsLast(p, [92] + [117] + hexes, q, t[5], r);
    assert [92] + [117] + hexes + [t[5]] == t;
  }

  /** `q` has the UTF-8 bytes `bs` more. */
  ghost predicate Wrote(p: Parser, bs: seq<int>, q: Parser) {
    && InText(q) && (forall i | 0 <= i < |bs| :: 0 <= bs[i] < 256)
    && q == p.(cap := q.cap, buf := p.buf + bs)
  }

  lemma ScalarFed(p: Parser, t: seq<int>, u: int) returns (r: Parser)
    requires InText(p) && p.state == ST && IsScalar(u) && SpellsScalar(t, u)
    ensures Reads(p, t, r) && Wrote(p, Utf8(u), r)
  {
    if u < 0x1_0000 {
      r := UnitFed(p, t, u);
    } else {
      var q := UnitFed(p, t[..6], HighHalf(u));
      r := UnitFed(q, t[6..], LowHalf(u));
      assert Completes(HighHalf(u), LowHalf(u)) == u;
      assert t == t[..6] + t[6..];
      ReadsThen(p, t[..6], q, t[6..], r);
    }
  }

  lemma {:induction false} EscapesRead(p: Parser, ts: seq<seq<int>>, us: seq<int>) returns (r: Parser)
    requires InText(p) && p.state == ST && SpellsAll(ts, us)
    ensures Reads(p, Concat(ts), r) && Wrote(p, Utf8All(us), r)
    decreases |us|
  {
    if us == [] {
      r := p;
      ReadsNothing(p);
      assert p.buf + [] == p.buf;
    } else {
      var q := ScalarFed(p, ts[0], us[0]);
      r := EscapesRead(q, ts[1..], us[1..]);
      ReadsThen(p, ts[0], q, Concat(ts[1..]), r);
      WroteOn(p, q, r, Utf8(us[0]), Utf8All(us[1..]));
    }
  }

  /** Any sequence of scalar values, spelled as escapes inside a string, comes
      out as its UTF-8 encoding. */
  lemma EscapesFed(p: Parser, ts: seq<seq<int>>, us: seq<int>)
    requires InText(p) && p.state == ST && SpellsAll(ts, us)
    ensures Feed(p, Concat(ts)).Accepted? && Wrote(p, Utf8All(us), Feed(p, Concat(ts)).p)
  {
    var r := EscapesRead(p, ts, us);
    ReadsIs(p, Concat(ts), r);
  }

  lemma WroteOn(p: Parser, q: Parser, r: Parser, a: seq<int>, b: seq<int>)
    requires Wrote(p, a, q) && Wrote(q, b, r)
    ensures Wrote(p, a + b, r)
  {
    assert p.buf + a + b == p.buf + (a + b);
  }

  // ----- Room

  /** The bytes of a character never outgrow the escape they replace. */
  lemma {:induction false} NeverLonger(ts: seq<seq<int>>, us: seq<int>)
    requires SpellsAll(ts, us)
    ensures |Utf8All(us)| <= |Concat(ts)|
    decreases |us|
  {
    if us != [] { NeverLonger(ts[1..], us[1..]); }
  }

  /** The room the source allocates for the mode stack. */
  function StackRoom(depth: nat): nat { if depth <= 128 then 128 else depth }

  function Brackets(n: nat): seq<int> { seq(n, i => 91) }

  lemma {:induction false} NestedArrays(p: Parser, n: nat) returns (q: Parser)
    requires AtContainer(p) && |p.stack| - 1 + n <= p.depth
    ensures Reads(p, Brackets(n), q) && |q.stack| == |p.stack| + n
    decreases n
  {
    if n == 0 {
      q := p;
      ReadsNothing(p);
      assert Brackets(0) == [];
    } else {
      var p1 := Open(p, 91);
      q := NestedArrays(p1, n - 1);
      ReadsFirst(p, 91, p1, Brackets(n - 1), q);
      assert Brackets(n) == [91] + Brackets(n - 1);
    }
  }

  /** The mode stack stays within its room on every text exactly for depths
      below 128: at 128 and above, a text of nested arrays needs one more. */
  lemma StackFits(depth: nat)
    requires depth > 0
    ensures (forall t :: Feed(NewParser(depth), t).Accepted? ==> |Feed(NewParser(depth), t).p.stack| <= StackRoom(depth))
            <==> depth < 128
  {
    var p := NewParser(depth);
    NewSafe(depth);
    forall t | Feed(p, t).Accepted? ensures |Feed(p, t).p.stack| <= depth + 1 {
      TextSafe(p, Scan(Plain, []), t);
      DepthKept(p, t);
    }
    var q := NestedArrays(p, depth);
    ReadsIs(p, Brackets(depth), q);
  }

  lemma AddDepth(p: Parser, c: int, k: int)
    requires AddChar(p, c, k).Accepted?
    ensures AddChar(p, c, k).p.depth == p.depth
  {
  }

  lemma DecodeDepth(p: Parser)
    requires Decode(p).Accepted?
    ensures Decode(p).p.depth == p.depth
  {
  }

  lemma SeparatorDepth(p: Parser)
    ensures AtSeparator(p).Accepted? ==> AtSeparator(p).p.depth == p.depth
    ensures AtEndString(p).Accepted? ==> AtEndString(p).p.depth == p.depth
  {
  }

  lemma BracketDepth(p: Parser, e: Event, m: Mode, s: int)
    ensures AtEnd(p, e, m).Accepted? ==> AtEnd(p, e, m).p.depth == p.depth
    ensures AtBegin(p, e, m, s).Accepted? ==> AtBegin(p, e, m, s).p.depth == p.depth
  {
  }

  lemma PerformDepth(p: Parser, cell: int)
    requires Perform(p, cell).Accepted?
    ensures Perform(p, cell).p.depth == p.depth
  {
    if cell == UC { DecodeDepth(p); }
    else if cell == COMMA || cell == END_STRING { SeparatorDepth(p); }
    else if cell == END_OBJECT { BracketDepth(p, ObjectEnd, MObject, OB); }
    else if cell == END_ARRAY { BracketDepth(p, ArrayEnd, MArray, AR); }
    else if cell == BEGIN_OBJECT { BracketDepth(p, ObjectBegin, MKey, OB); }
    else if cell == BEGIN_ARRAY { BracketDepth(p, ArrayBegin, MArray, AR); }
    else if cell <= CB { TokenDepth(p, cell); }
  }

  lemma TokenDepth(p: Parser, cell: int)
    requires cell <= CB && cell != UC && Perform(p, cell).Accepted?
    ensures Perform(p, cell).p.depth == p.depth
  {
  }

  lemma {:induction false} DepthKept(p: Parser, t: seq<int>)
    requires Feed(p, t).Accepted?
    ensures Feed(p, t).p.depth == p.depth
    decreases |t|
  {
    if t != [] {
      var k := ClassOf(t[0]);
      AddDepth(p, t[0], k);
      var q := AddChar(p, t[0], k).p;
      PerformDepth(q, Table(q.state, k));
      DepthKept(Perform(q, Table(q.state, k)).p, t[1..]);
    }
  }

  /** One closing bracket too many: a text of three characters. */
  lemma LateBracket(depth: nat)
    requires depth > 0
    ensures Feed(NewParser(depth), [91] + [93] + [93]) == PopsEmpty
  {
    var p := NewParser(depth);
    var p1 := Open(p, 91);
    var p2 := EmptyFed(p, 91, p1);
    ReadsOne(p, 91, p1);
    ReadsLast(p, [91], p1, 93, p2);
    ReadsIs(p, [91] + [93], p2);
    NewSafe(depth);
    TextSafe(p, Scan(Plain, []), [91] + [93]);
    CharSafe(p2, ScanText(Scan(Plain, []), [91] + [93]), 93);
    FeedConcat(p, [91] + [93], [93]);
    FeedLoneChar(p2, 93);
  }

  lemma FeedLoneChar(p: Parser, c: int)
    ensures Feed(p, [c]) == Char(p, c)
  {
    assert [c][1..] == [];
  }
}
