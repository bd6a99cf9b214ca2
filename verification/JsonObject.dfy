/** The parser as the object it is: JSON_parser_char changing the parser's fields
    (src/lib/JSON_parser.c), fed by the json_object constructor, and the printer's
    loops (src/lib/json_object.cc). */
module JsonObject {
  import opened Basics
  import opened JsonTable
  import opened JsonTree
  import P = JsonParser
  import opened JsonSafe
  import opened JsonValues
  import opened JsonRoundTrip

  // ----- Loops

  /** parse_buffer_reserve_for: doubles until the characters and a NUL fit. */
  method ReserveFor(capacity: nat, count: nat, chars: nat) returns (c: nat)
    requires capacity > 0
    ensures c == P.Grow(capacity, count + chars + 1) && count + chars + 1 <= c
  {
    c := capacity;
    while count + chars + 1 > c
      invariant c > 0 && P.Grow(c, count + chars + 1) == P.Grow(capacity, count + chars + 1)
      decreases count + chars + 1 - c
    {
      c := 2 * c;
    }
  }

  /** The four hex digits at the end of the buffer, most significant first. */
  method ReadUnit(buf: Text) returns (u: nat)
    requires |buf| >= 4 && HexTail(buf, 4)
    ensures u == P.UnitOf(buf)
  {
    var n := |buf|;
    u := 0;
    var i := 0;
    while i < 4
      invariant 0 <= i <= 4
      invariant i == 1 ==> u == P.HexValue(buf[n - 4])
      invariant i == 2 ==> u == P.HexValue(buf[n - 4]) * 16 + P.HexValue(buf[n - 3])
      invariant i == 3 ==> u == (P.HexValue(buf[n - 4]) * 16 + P.HexValue(buf[n - 3])) * 16 + P.HexValue(buf[n - 2])
      invariant i == 4 ==> u == P.UnitOf(buf)
      invariant i == 0 ==> u == 0
    {
      var x := P.HexValue(buf[n - 4 + i]);
      assert x < 16;
      u := u * 16 + x;
      i := i + 1;
    }
  }

  function Power64(n: nat): (r: nat)
    ensures r > 0
  {
    if n == 0 then 1 else 64 * Power64(n - 1)
  }

  /** The lead byte, then six bits at a time. */
  method WriteUtf8(u: nat, trail: nat) returns (bytes: seq<int>)
    requires trail <= 3
    ensures bytes == P.Utf8Bytes(u, trail)
  {
    var leads := [0x00, 0xC0, 0xE0, 0xF0];
    assert Power64(1) == 64 && Power64(2) == 4096 && Power64(3) == 0x40000;
    bytes := [u / Power64(trail) + leads[trail]];
    var i := trail;
    while i > 0
      invariant 0 <= i <= trail && |bytes| == trail - i + 1
      invariant bytes[0] == u / Power64(trail) + leads[trail]
      invariant forall j | 1 <= j < |bytes| :: bytes[j] == u / Power64(trail - j) % 64 + 0x80
    {
      i := i - 1;
      bytes := bytes + [u / Power64(i) % 64 + 0x80];
    }
    assert Power64(0) == 1;
  }

  /** The constructor's loop: characters one by one up to the first rejected. */
  method Parse(text: seq<int>, depth: nat) returns (o: P.Outcome)
    ensures o == P.Feed(P.NewParser(depth), text)
  {
    o := P.Accepted(P.NewParser(depth));
    var i := 0;
    while i < |text| && o.Accepted?
      invariant 0 <= i <= |text|
      invariant if o.Accepted? then P.Feed(o.p, text[i..]) == P.Feed(P.NewParser(depth), text)
                else o == P.Feed(P.NewParser(depth), text)
    {
      assert text[i..][1..] == text[i + 1..];
      o := P.Char(o.p, text[i]);
      i := i + 1;
    }
    if o.Accepted? { assert text[i..] == []; }
  }

  lemma {:induction false} ItemsSnoc(vs: seq<Json>, v: Json)
    ensures PrintItems(vs + [v]) == PrintItems(vs) + (Print(v) + [44])
  {
    if vs == [] {
      assert [v][1..] == [] && [] + [v] == [v];
    } else {
      assert (vs + [v])[1..] == vs[1..] + [v];
      ItemsSnoc(vs[1..], v);
    }
  }

  lemma {:induction false} MembersSnoc(ms: seq<Member>, m: Member)
    ensures PrintMembers(ms + [m]) == PrintMembers(ms) + (Quoted(m.key) + [58] + Print(m.value) + [44])
  {
    if ms == [] {
      assert [m][1..] == [] && [] + [m] == [m];
    } else {
      assert (ms + [m])[1..] == ms[1..] + [m];
      MembersSnoc(ms[1..], m);
    }
  }

  /** json_object::get_string. */
  method GetString(v: Json) returns (t: Text)
    ensures t == Print(v)
    decreases v
  {
    match v
    case Arr(vs) => t := GetArray(vs);
    case Dict(ms) => t := GetDict(ms);
    case Int(n) => t := PrintInt(n);
    case Float(f) => t := f;
    case Null => t := NULL_TEXT;
    case Bool(b) => t := if b then TRUE_TEXT else FALSE_TEXT;
    case Str(s) => t := Quoted(s);
  }

  method GetArray(vs: seq<Json>) returns (t: Text)
    ensures t == Print(Arr(vs))
    decreases vs
  {
    t := [91];
    for i := 0 to |vs|
      invariant t == [91] + PrintItems(vs[..i])
    {
      var item := GetString(vs[i]);
      ItemsSnoc(vs[..i], vs[i]);
      assert vs[..i + 1] == vs[..i] + [vs[i]];
      t := t + (item + [44]);
    }
    assert vs[..|vs|] == vs;
    if |t| > 1 { t := t[..|t| - 1]; }
    t := t + [93];
  }

  method GetDict(ms: seq<Member>) returns (t: Text)
    ensures t == Print(Dict(ms))
    decreases ms
  {
    t := [123];
    for i := 0 to |ms|
      invariant t == [123] + PrintMembers(ms[..i])
    {
      var value := GetString(ms[i].value);
      MembersSnoc(ms[..i], ms[i]);
      assert ms[..i + 1] == ms[..i] + [ms[i]];
      var member := Quoted(ms[i].key) + [58] + value + [44];
      assert [123] + PrintMembers(ms[..i]) + member == [123] + (PrintMembers(ms[..i]) + member);
      t := t + member;
    }
    assert ms[..|ms|] == ms;
    if |t| > 1 { t := t[..|t| - 1]; }
    t := t + [125];
  }

  // ----- The parser object

  class JsonParser {
    var state: int
    var before: int
    var ty: P.Type
    var escaped: bool
    var comment: bool
    var high: int
    var depth: nat
    var stack: seq<P.Mode>
    var buf: Text
    var cap: nat
    var builder: Builder
    /** The brackets of the text read so far. */
    ghost var scan: Scan

    ghost function State(): P.Parser
      reads this
    {
      P.Parser(state, before, ty, escaped, comment, high, depth, stack, buf, cap, builder)
    }

    ghost predicate Valid()
      reads this
    {
      Safe(State(), scan)
    }

    /** What a method that may reject promises, against the outcome `o` of the
        function it carries out. */
    ghost predicate Follows(o: P.Outcome, ok: bool)
      reads this
    {
      (ok <==> o.Accepted?) && (ok ==> State() == o.p)
    }

    constructor (d: nat)
      ensures Valid() && State() == P.NewParser(d) && scan == Scan(Plain, [])
    {
      state, before, ty, escaped, comment, high := GO, GO, P.TNone, false, false, 0;
      depth := if d == 0 then 1 else d;
      stack, buf, cap, builder := [P.MDone], [], P.BUFFER_SIZE, Builder([], [], None);
      scan := Scan(Plain, []);
      new;
      NewSafe(d);
    }

    function Top(): P.Mode
      reads this
    {
      if stack == [] then P.MDone else stack[|stack| - 1]
    }

    method Push(m: P.Mode) returns (ok: bool)
      modifies this`stack
      ensures Follows(P.Push(old(State()), m), ok)
    {
      ok := |stack| - 1 != depth;
      if ok { stack := stack + [m]; }
    }

    method Pop(m: P.Mode) returns (ok: bool)
      modifies this`stack
      ensures Follows(P.Pop(old(State()), m), ok)
    {
      ok := stack != [] && Top() == m;
      if ok { stack := stack[..|stack| - 1]; }
    }

    method PopBack()
      requires buf != []
      modifies this`buf
      ensures P.PopBack(old(State())) == P.Accepted(State())
    {
      buf := buf[..|buf| - 1];
    }

    method PushBack(c: int)
      requires |buf| + 2 <= cap
      modifies this`buf
      ensures P.PushBack(old(State()), c) == P.Accepted(State())
    {
      buf := buf + [c % 256];
    }

    method AddChar(c: int, k: int) returns (ok: bool)
      requires |buf| + 1 <= cap && (escaped ==> buf != [])
      modifies this`buf, this`cap, this`escaped
      ensures Follows(P.AddChar(old(State()), c, k), ok)
    {
      cap := ReserveFor(cap, |buf|, 1);
      ok := true;
      if escaped {
        escaped := false;
        PopBack();
        if c == 117 {
          PushBack(92);
          PushBack(117);
        } else if c in {98, 102, 110, 114, 116, 34, 92, 47} {
          PushBack(P.Unescape(c));
        } else {
          ok := false;
        }
      } else if !comment && (ty != P.TNone || !(k == C_SPACE || k == C_WHITE)) {
        PushBack(c);
      }
    }

    /** Calls back; the stack popped is not empty. */
    method Send(e: Event)
      requires Cb(builder, e).Some?
      modifies this`builder
      ensures P.Send(old(State()), e) == P.Accepted(State())
    {
      builder := Cb(builder, e).value;
    }

    method Flush()
      modifies this`builder, this`buf
      ensures P.Flush(old(State())) == P.Accepted(State()) && |builder.mystack| == |old(builder.mystack)|
    {
      if ty != P.TNone { Send(Value(P.Denotes(ty, buf))); }
      buf := [];
    }

    method Emit(v: nat, trail: nat)
      requires trail <= 3 && |buf| + trail + 2 <= cap
      modifies this`buf
      ensures P.Emit(old(State()), v, trail) == P.Accepted(State())
    {
      var bytes := WriteUtf8(v, trail);
      buf := buf + seq(|bytes|, i requires 0 <= i < |bytes| => bytes[i] % 256);
    }

    /** A unit whose escape has left the buffer. */
    method Place(u: nat) returns (ok: bool)
      requires |buf| + 5 <= cap && (high == 0 || P.IsHigh(high))
      modifies this`buf, this`high
      ensures Follows(P.Place(old(State()), u), ok)
    {
      ok := true;
      if high != 0 {
        if !P.IsLow(u) { return false; }
        var v := high % 0x400 * 0x400 + u % 0x400 + 0x10000;
        high := 0;
        Emit(v, 3);
      } else if u < 0x80 {
        Emit(u, 0);
      } else if u < 0x800 {
        Emit(u, 1);
      } else if P.IsHigh(u) {
        high := u;
      } else if P.IsLow(u) {
        return false;
      } else {
        Emit(u, 2);
      }
    }

    method DecodeUnicode() returns (ok: bool)
      requires |buf| >= 6 && HexTail(buf, 4) && |buf| + 1 <= cap && (high == 0 || P.IsHigh(high))
      modifies this`buf, this`high
      ensures Follows(P.Decode(old(State())), ok)
    {
      var u := ReadUnit(buf);
      buf := buf[..|buf| - 6];
      ok := Place(u);
    }

    method BeginComment()
      requires buf != [] && ty != P.TString
      modifies this
      ensures P.AtCB(old(State())) == P.Accepted(State()) && scan == old(scan)
    {
      PopBack();
      ghost var q0 := State();
      Flush();
      CommentBegun(old(State()), q0, State());
      EnterComment();
    }

    /** Remembers where to go on after the comment. */
    method EnterComment()
      modifies this`before, this`ty, this`state, this`comment
      ensures State() == CommentFrom(old(State()))
    {
      before := if Top() in {P.MArray, P.MObject} && state != VA && state != AR then OK else state;
      ty, state, comment := P.TNone, C1, true;
    }

    method EndContainer(e: Event, m: P.Mode) returns (ok: bool)
      requires buf != [] && builder.mystack != [] && (e == ArrayEnd || e == ObjectEnd)
      modifies this
      ensures Follows(P.AtEnd(old(State()), e, m), ok) && scan == old(scan)
    {
      PopBack();
      ghost var q0 := State();
      Flush();
      ghost var q1 := State();
      Send(e);
      ContainerEnded(old(State()), q0, q1, State(), e, m);
      ok := Pop(m);
      ty, state := P.TNone, OK;
    }

    method BeginContainer(e: Event, m: P.Mode, s: int) returns (ok: bool)
      requires !P.AtBegin(State(), e, m, s).AssertFails? && (e == ArrayBegin || e == ObjectBegin)
      modifies this
      ensures Follows(P.AtBegin(old(State()), e, m, s), ok) && scan == old(scan)
    {
      PopBack();
      Send(e);
      ok := Push(m);
      state := s;
    }

    method EndString() returns (ok: bool)
      requires !P.AtEndString(State()).AssertFails?
      modifies this
      ensures Follows(P.AtEndString(old(State())), ok) && scan == old(scan)
    {
      PopBack();
      ok := true;
      if Top() == P.MKey {
        ty, state := P.TNone, CO;
        Send(Key(buf));
        buf := [];
      } else if Top() == P.MDone {
        ok := false;
      } else {
        Flush();
        ty, state := P.TNone, OK;
      }
    }

    method Separator() returns (ok: bool)
      requires !P.AtSeparator(State()).AssertFails?
      modifies this
      ensures Follows(P.AtSeparator(old(State())), ok) && scan == old(scan)
    {
      PopBack();
      Flush();
      ok := true;
      if Top() == P.MObject {
        ok := Pop(P.MObject);
        if ok { ok := Push(P.MKey); }
        ty, state := P.TNone, KE;
      } else if Top() == P.MArray {
        ty, state := P.TNone, VA;
      } else {
        ok := false;
      }
    }

    method Colon() returns (ok: bool)
      requires !P.Perform(State(), COLON).AssertFails?
      modifies this
      ensures Follows(P.Perform(old(State()), COLON), ok) && scan == old(scan)
    {
      PopBack();
      ok := Pop(P.MKey);
      if ok { ok := Push(P.MObject); }
      state := VA;
    }

    method EmptyObject() returns (ok: bool)
      requires builder.mystack != []
      modifies this
      ensures Follows(P.Perform(old(State()), EMPTY_OBJECT), ok) && scan == old(scan)
    {
      buf := [];
      Send(ObjectEnd);
      ok := Pop(P.MKey);
      state := OK;
    }

    /** The actions that begin or extend a token, or end a comment. */
    method Token(cell: int)
      requires cell in {EX, MX, ZX, IX, DE, DF, SB, NU, FA, TR, CE} && !P.Perform(State(), cell).AssertFails?
      modifies this
      ensures P.Perform(old(State()), cell) == P.Accepted(State()) && scan == old(scan)
    {
      if cell == EX { escaped, state := true, ES; }
      else if cell == MX { ty, state := P.TInteger, MI; }
      else if cell == ZX { ty, state := P.TInteger, ZE; }
      else if cell == IX { ty, state := P.TInteger, IT; }
      else if cell == DE { ty, state := P.TFloat, E1; }
      else if cell == DF { ty, state := P.TFloat, FX; }
      else if cell == SB { buf, ty, state := [], P.TString, ST; }
      else if cell == NU { ty, state := P.TNull, N1; }
      else if cell == FA { ty, state := P.TFalse, F1; }
      else if cell == TR { ty, state := P.TTrue, T1; }
      else { comment, state := false, before; }
    }

    /** Carries out a table entry. */
    method Perform(cell: int) returns (ok: bool)
      requires !P.Perform(State(), cell).AssertFails? && !P.Perform(State(), cell).PopsEmpty?
      requires cell == UC ==> |buf| >= 6 && HexTail(buf, 4) && |buf| + 1 <= cap && (high == 0 || P.IsHigh(high))
      modifies this
      ensures Follows(P.Perform(old(State()), cell), ok) && scan == old(scan)
    {
      ok := true;
      if cell >= 0 { state := cell; }
      else if cell in {EX, MX, ZX, IX, DE, DF, SB, NU, FA, TR, CE} { Token(cell); }
      else if cell == UC {
        ok := DecodeUnicode();
        state := if high != 0 then D1 else ST;
      }
      else { ok := Structure(cell); }
    }

    method Structure(cell: int) returns (ok: bool)
      requires !P.Perform(State(), cell).AssertFails? && !P.Perform(State(), cell).PopsEmpty?
      requires cell < 0 && cell !in {EX, MX, ZX, IX, DE, DF, SB, NU, FA, TR, CE, UC}
      modifies this
      ensures Follows(P.Perform(old(State()), cell), ok) && scan == old(scan)
    {
      ok := true;
      if cell == CB { BeginComment(); }
      else if cell == EMPTY_OBJECT { ok := EmptyObject(); }
      else if cell == END_OBJECT { ok := EndContainer(ObjectEnd, P.MObject); }
      else if cell == END_ARRAY { ok := EndContainer(ArrayEnd, P.MArray); }
      else if cell == BEGIN_OBJECT { ok := BeginContainer(ObjectBegin, P.MKey, OB); }
      else if cell == BEGIN_ARRAY { ok := BeginContainer(ArrayBegin, P.MArray, AR); }
      else if cell == END_STRING { ok := EndString(); }
      else if cell == COMMA { ok := Separator(); }
      else if cell == COLON { ok := Colon(); }
      else { ok := false; }
    }

    /** Any character but a closing bracket after a complete text. */
    method Take(c: int) returns (ok: bool)
      requires Valid() && !ClosesTooMuch(State(), c)
      modifies this
      ensures Follows(P.Char(old(State()), c), ok)
      ensures ok ==> Valid() && scan == ScanChar(old(scan), c)
    {
      if c < 0 { return false; }
      var k := ClassOf(c);
      if k <= BAD { return false; }
      CharSafe(State(), scan, c);
      UnicodeReady(State(), scan, c, k);
      ok := AddChar(c, k);
      if ok {
        ok := Perform(Table(state, k));
        scan := ScanChar(scan, c);
      }
    }

    /** JSON_parser_char.  For one kind of character, a closing bracket after a
        complete text, the callback pops its empty list. */
    method Char(c: int) returns (ok: bool, popsEmpty: bool)
      requires Valid()
      modifies this
      ensures popsEmpty <==> ClosesTooMuch(old(State()), c)
      ensures if popsEmpty then !ok && State() == old(State()) else Follows(P.Char(old(State()), c), ok)
      ensures ok ==> Valid() && scan == ScanChar(old(scan), c)
    {
      LateIff(State(), scan, c);
      ok, popsEmpty := false, state == OK && |stack| == 1 && (c == 93 || c == 125);
      if !popsEmpty { ok := Take(c); }
    }
  }

  /** AtEnd, put together from its steps. */
  lemma ContainerEnded(p: P.Parser, q0: P.Parser, q1: P.Parser, q2: P.Parser, e: Event, m: P.Mode)
    requires P.PopBack(p) == P.Accepted(q0) && P.Flush(q0) == P.Accepted(q1) && P.Send(q1, e) == P.Accepted(q2)
    ensures P.AtEnd(p, e, m).Accepted? <==> P.Pop(q2, m).Accepted?
    ensures P.Pop(q2, m).Accepted? ==> P.AtEnd(p, e, m) == P.Accepted(P.Pop(q2, m).p.(ty := P.TNone, state := OK))
  {
  }

  /** AtCB, put together from its steps. */
  lemma CommentBegun(p: P.Parser, q0: P.Parser, q: P.Parser)
    requires P.PopBack(p) == P.Accepted(q0) && P.Flush(q0) == P.Accepted(q) && q.ty != P.TString
    ensures P.AtCB(p) == P.Accepted(CommentFrom(q))
  {
  }

  ghost function CommentFrom(q: P.Parser): P.Parser {
    var before := if P.Top(q) in {P.MArray, P.MObject} && q.state != VA && q.state != AR then OK else q.state;
    q.(before := before, ty := P.TNone, state := C1, comment := true)
  }

  /** The text is complete when only the bottom of the mode stack is left. */
  lemma LateIff(p: P.Parser, s: Scan, c: int)
    requires Safe(p, s)
    ensures ClosesTooMuch(p, c) <==> p.state == OK && |p.stack| == 1 && (c == 93 || c == 125)
  {
    var i := |p.stack| - 2;
    assert i >= 0 ==> Matches(p.stack[i + 1], s.open[i], p.b.mystack[i]);
  }

  /** When a Unicode escape is complete, its digits are in the buffer. */
  lemma UnicodeReady(p: P.Parser, s: Scan, c: int, k: int)
    requires Safe(p, s) && 0 <= c && ClassOf(c) == k && k >= 0
    ensures p.escaped ==> p.buf != [] && Table(p.state, k) != UC
    ensures |p.buf| + 1 <= p.cap
    ensures Table(p.state, k) == UC ==>
              && P.AddChar(p, c, k).Accepted?
              && var q := P.AddChar(p, c, k).p;
                 |q.buf| >= 6 && HexTail(q.buf, 4) && |q.buf| + 1 <= q.cap && (q.high == 0 || P.IsHigh(q.high)) && q.state == p.state
  {
    TableActs(p.state, k);
    if Table(p.state, k) == UC {
      HexChar(c, k);
      HexPushed(p.buf, 3, c % 256);
      AddedPlain(p, c, k);
    }
  }
}
