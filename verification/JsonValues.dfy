/** Reading values and containers, piece by piece (src/lib/JSON_parser.c). */
module JsonValues {
  import opened Basics
  import opened JsonTable
  import opened JsonTree
  import opened JsonParser
  import opened JsonSafe
  import opened JsonSteps

  // ----- Values

  /** The same tree so far; the last key does not matter. */
  predicate Same(b: Builder, c: Builder) { b.mystack == c.mystack && b.root == c.root }

  ghost predicate Expecting(p: Parser) {
    && Idle(p) && ExpectsValue(p.state)
    && p.stack != [] && (Top(p) == MArray || (Top(p) == MObject && p.state == VA))
  }

  /** `q` has read the value `v` that `p` was expecting; the value may still
      wait to be delivered. */
  ghost predicate ValueRead(p: Parser, v: Json, q: Parser) {
    && Flush(q).Accepted? && Pending(q, Flush(q).p)
    && q.stack == p.stack && q.depth == p.depth
    && Same(Flush(q).p.b, Put(p.b, p.b.lastkey, v))
  }

  /** A scalar still in the buffer counts as read. */
  lemma ScalarRead(p: Parser, q: Parser, v: Json)
    requires Expecting(p) && Calm(q) && q == p.(cap := q.cap, ty := q.ty, state := q.state, buf := q.buf)
    requires q.ty !in {TNone, TString} && EndsValue(q.state) && Denotes(q.ty, q.buf) == v
    ensures ValueRead(p, v, q)
  {
  }

  // ----- Numbers

  predicate AllDigits(s: Text) { forall i | 0 <= i < |s| :: 48 <= s[i] <= 57 }

  datatype Exponent = Exponent(mark: uint8, sign: Text, digits: Text)

  /** A number as it is written: a sign, the whole part, and perhaps a fraction and
      an exponent. */
  datatype Number = Number(neg: bool, whole: Text, frac: Option<Text>, exp: Option<Exponent>)

  /** A whole part of zero takes no more digits, and no exponent without a point;
      after the point there may be no digits. */
  predicate ProperNumber(n: Number) {
    && n.whole != [] && AllDigits(n.whole) && (n.whole[0] == 48 ==> |n.whole| == 1)
    && (n.frac.Some? ==> AllDigits(n.frac.value))
    && (n.exp.Some? ==>
          && (n.frac.Some? || n.whole[0] != 48)
          && (n.exp.value.mark == 101 || n.exp.value.mark == 69) && n.exp.value.sign in {[], [43], [45]}
          && n.exp.value.digits != [] && AllDigits(n.exp.value.digits))
  }

  function WholeText(n: Number): Text { (if n.neg then [45] else []) + n.whole }

  function FracText(n: Number): Text { if n.frac.Some? then [46] + n.frac.value else [] }

  function ExpText(n: Number): Text {
    if n.exp.Some? then [n.exp.value.mark] + (n.exp.value.sign + n.exp.value.digits) else []
  }

  function NumberText(n: Number): Text { WholeText(n) + FracText(n) + ExpText(n) }

  predicate IsFloat(n: Number) { n.frac.Some? || n.exp.Some? }

  function WholeEnd(n: Number): int
    requires n.whole != []
  {
    if n.whole[0] == 48 then ZE else IT
  }

  function FracEnd(n: Number): int
    requires n.whole != []
  {
    if n.frac.None? then WholeEnd(n) else if n.frac.value == [] then FX else FR
  }

  /** `q` has read the text `t` of a number; `s` is the state it is in. */
  ghost predicate NumberRead(p: Parser, t: Text, ty: Type, s: int, q: Parser) {
    Calm(q) && q == p.(cap := q.cap, ty := ty, state := s, buf := p.buf + t)
  }

  lemma {:induction false} DigitsFed(p: Parser, t: Text) returns (q: Parser)
    requires Calm(p) && p.state in {IT, FR, E3} && p.ty != TNone && AllDigits(t)
    ensures Reads(p, t, q) && NumberRead(p, t, p.ty, p.state, q)
    decreases |t|
  {
    if t == [] {
      q := p;
      ReadsNothing(p);
      assert p.buf + t == p.buf;
    } else {
      DigitStep(p, t[0]);
      var p1 := p.(cap := Cap(p), buf := p.buf + [t[0]]);
      q := DigitsFed(p1, t[1..]);
      ReadsFirst(p, t[0], p1, t[1..], q);
      assert [t[0]] + t[1..] == t && p.buf + [t[0]] + t[1..] == p.buf + t;
    }
  }

  /** The digits of the whole part. */
  lemma PlainWholeFed(p: Parser, t: Text) returns (q: Parser)
    requires Calm(p) && ((ExpectsValue(p.state) && p.ty == TNone) || (p.state == MI && p.ty == TInteger))
    requires t != [] && AllDigits(t) && (t[0] == 48 ==> |t| == 1)
    ensures Reads(p, t, q) && NumberRead(p, t, TInteger, if t[0] == 48 then ZE else IT, q)
  {
    FirstDigitStep(p, t[0]);
    var p1 := p.(cap := Cap(p), ty := TInteger, state := if t[0] == 48 then ZE else IT, buf := p.buf + [t[0]]);
    if t[0] == 48 {
      q := p1;
      ReadsOne(p, t[0], q);
      assert [t[0]] == t;
    } else {
      q := DigitsFed(p1, t[1..]);
      ReadsFirst(p, t[0], p1, t[1..], q);
      assert [t[0]] + t[1..] == t && p.buf + [t[0]] + t[1..] == p.buf + t;
    }
  }

  lemma WholeFed(p: Parser, n: Number) returns (q: Parser)
    requires Idle(p) && ExpectsValue(p.state) && ProperNumber(n)
    ensures Reads(p, WholeText(n), q) && NumberRead(p, WholeText(n), TInteger, WholeEnd(n), q)
  {
    if n.neg {
      MinusStep(p);
      var p1 := p.(cap := Cap(p), ty := TInteger, state := MI, buf := [45]);
      q := PlainWholeFed(p1, n.whole);
      ReadsFirst(p, 45, p1, n.whole, q);
      assert [] + ([45] + n.whole) == [45] + n.whole;
    } else {
      q := PlainWholeFed(p, n.whole);
      assert [] + n.whole == n.whole;
    }
  }

  /** The point and the digits after it. */
  lemma FracFed(p: Parser, t: Text) returns (q: Parser)
    requires Calm(p) && (p.state == ZE || p.state == IT) && p.ty == TInteger && AllDigits(t)
    ensures Reads(p, [46] + t, q) && NumberRead(p, [46] + t, TFloat, if t == [] then FX else FR, q)
  {
    PointStep(p);
    var p1 := p.(cap := Cap(p), ty := TFloat, state := FX, buf := p.buf + [46]);
    if t == [] {
      q := p1;
      ReadsOne(p, 46, q);
      assert [46] + t == [46];
    } else {
      FracDigitStep(p1, t[0]);
      var p2 := p1.(cap := Cap(p1), state := FR, buf := p1.buf + [t[0]]);
      q := DigitsFed(p2, t[1..]);
      ReadsFirst(p1, t[0], p2, t[1..], q);
      assert [t[0]] + t[1..] == t;
      ReadsFirst(p, 46, p1, t, q);
      assert p.buf + [46] + [t[0]] + t[1..] == p.buf + ([46] + t);
    }
  }

  /** The sign and digits of an exponent. */
  lemma ExpDigitsFed(p: Parser, sign: Text, t: Text) returns (q: Parser)
    requires Calm(p) && p.state == E1 && p.ty == TFloat && sign in {[], [43], [45]} && t != [] && AllDigits(t)
    ensures Reads(p, sign + t, q) && NumberRead(p, sign + t, TFloat, E3, q)
  {
    var p1 := p;
    if sign == [] {
      ReadsNothing(p);
      assert p.buf + [] == p.buf;
    } else {
      SignStep(p, sign[0]);
      p1 := p.(cap := Cap(p), state := E2, buf := p.buf + sign);
      assert sign == [sign[0]];
      ReadsOne(p, sign[0], p1);
    }
    ExpDigitStep(p1, t[0]);
    var p2 := p1.(cap := Cap(p1), state := E3, buf := p1.buf + [t[0]]);
    q := DigitsFed(p2, t[1..]);
    ReadsFirst(p1, t[0], p2, t[1..], q);
    assert [t[0]] + t[1..] == t;
    ReadsThen(p, sign, p1, t, q);
    assert p.buf + sign + [t[0]] + t[1..] == p.buf + (sign + t);
  }

  lemma ExpFed(p: Parser, e: Exponent) returns (q: Parser)
    requires Calm(p) && ((p.state == IT && p.ty == TInteger) || (p.state in {FX, FR} && p.ty == TFloat))
    requires (e.mark == 101 || e.mark == 69) && e.sign in {[], [43], [45]} && e.digits != [] && AllDigits(e.digits)
    ensures var t := [e.mark] + (e.sign + e.digits); Reads(p, t, q) && NumberRead(p, t, TFloat, E3, q)
  {
    MarkStep(p, e.mark);
    var p1 := p.(cap := Cap(p), ty := TFloat, state := E1, buf := p.buf + [e.mark]);
    q := ExpDigitsFed(p1, e.sign, e.digits);
    ReadsFirst(p, e.mark, p1, e.sign + e.digits, q);
    assert p.buf + [e.mark] + (e.sign + e.digits) == p.buf + ([e.mark] + (e.sign + e.digits));
  }

  function NumberEnd(n: Number): int
    requires n.whole != []
  {
    if n.exp.Some? then E3 else FracEnd(n)
  }

  /** Any number is read whole. */
  lemma NumberFed(p: Parser, n: Number) returns (q: Parser)
    requires Idle(p) && ExpectsValue(p.state) && ProperNumber(n)
    ensures Reads(p, NumberText(n), q)
    ensures NumberRead(p, NumberText(n), if IsFloat(n) then TFloat else TInteger, NumberEnd(n), q)
  {
    var w, f, e := WholeText(n), FracText(n), ExpText(n);
    var q1 := WholeFed(p, n);
    var q2 := q1;
    if n.frac.Some? {
      q2 := FracFed(q1, n.frac.value);
      ReadsThen(p, w, q1, f, q2);
      assert p.buf + w + f == p.buf + (w + f);
    } else {
      assert w + f == w;
    }
    q := q2;
    if n.exp.Some? {
      q := ExpFed(q2, n.exp.value);
      ReadsThen(p, w + f, q2, e, q);
      assert p.buf + (w + f) + e == p.buf + (w + f + e);
    } else {
      assert w + f + e == w + f;
    }
  }

  /** A zero takes no exponent, though the grammar of RFC 8259, section 6, allows it. */
  lemma ZeroTakesNoExponent(p: Parser, c: int)
    requires Calm(p) && p.state == ZE && (c == 101 || c == 69)
    ensures Char(p, c) == Rejected
  {
    CharIs(p, c);
    assert Table(ZE, ClassOf(c)) == BAD;
    assert StructureAction(Added(p, c, ClassOf(c)), BAD) == Rejected;
  }

  // ----- Keywords

  const NULL_TEXT: Text := [110, 117, 108, 108]
  const TRUE_TEXT: Text := [116, 114, 117, 101]
  const FALSE_TEXT: Text := [102, 97, 108, 115, 101]

  lemma LettersFed(p: Parser, a: int, b: int, c: int) returns (q: Parser)
    requires Calm(p) && OfKeyword(p.state) && p.ty != TNone && 97 <= a <= 122 && 97 <= b <= 122 && 97 <= c <= 122
    requires var s1 := Table(p.state, ClassOf(a));
             OfKeyword(s1) && OfKeyword(Table(s1, ClassOf(b))) && Table(Table(s1, ClassOf(b)), ClassOf(c)) == OK
    ensures Reads(p, [a] + ([b] + [c]), q) && Calm(q) && q == p.(cap := q.cap, buf := q.buf, state := OK)
  {
    LetterStep(p, a);
    var p1 := p.(cap := Cap(p), buf := p.buf + [a], state := Table(p.state, ClassOf(a)));
    LetterStep(p1, b);
    var p2 := p1.(cap := Cap(p1), buf := p1.buf + [b], state := Table(p1.state, ClassOf(b)));
    LetterStep(p2, c);
    q := p2.(cap := Cap(p2), buf := p2.buf + [c], state := OK);
    ReadsOne(p2, c, q);
    ReadsFirst(p1, b, p2, [c], q);
    ReadsFirst(p, a, p1, [b] + [c], q);
  }

  lemma NullFed(p: Parser) returns (q: Parser)
    requires Expecting(p)
    ensures Reads(p, NULL_TEXT, q) && ValueRead(p, Null, q) && q.state == OK
  {
    WordStep(p, 110, TNull, N1);
    var p1 := p.(cap := Cap(p), buf := [110], ty := TNull, state := N1);
    q := LettersFed(p1, 117, 108, 108);
    ReadsFirst(p, 110, p1, [117] + ([108] + [108]), q);
    assert [110] + ([117] + ([108] + [108])) == NULL_TEXT;
    ScalarRead(p, q, Null);
  }

  lemma TrueFed(p: Parser) returns (q: Parser)
    requires Expecting(p)
    ensures Reads(p, TRUE_TEXT, q) && ValueRead(p, Bool(true), q) && q.state == OK
  {
    WordStep(p, 116, TTrue, T1);
    var p1 := p.(cap := Cap(p), buf := [116], ty := TTrue, state := T1);
    q := LettersFed(p1, 114, 117, 101);
    ReadsFirst(p, 116, p1, [114] + ([117] + [101]), q);
    assert [116] + ([114] + ([117] + [101])) == TRUE_TEXT;
    ScalarRead(p, q, Bool(true));
  }

  lemma FalseFed(p: Parser) returns (q: Parser)
    requires Expecting(p)
    ensures Reads(p, FALSE_TEXT, q) && ValueRead(p, Bool(false), q) && q.state == OK
  {
    WordStep(p, 102, TFalse, F1);
    var p1 := p.(cap := Cap(p), buf := [102], ty := TFalse, state := F1);
    LetterStep(p1, 97);
    var p2 := p1.(cap := Cap(p1), buf := p1.buf + [97], state := F2);
    q := LettersFed(p2, 108, 115, 101);
    var rest := [108] + ([115] + [101]);
    ReadsFirst(p1, 97, p2, rest, q);
    ReadsFirst(p, 102, p1, [97] + rest, q);
    assert [102] + ([97] + rest) == FALSE_TEXT;
    ScalarRead(p, q, Bool(false));
  }

  // ----- Containers

  /** The innermost open container replaced. */
  function WithTop(b: Builder, node: Json): Builder
    requires b.mystack != []
  {
    var top := |b.mystack| - 1;
    b.(mystack := b.mystack[top := b.mystack[top].(node := node)])
  }

  function TopNode(b: Builder): Json
    requires b.mystack != []
  {
    b.mystack[|b.mystack| - 1].node
  }

  /** The container is closed and `q` is back where it was opened. */
  ghost predicate ClosedAs(p: Parser, node: Json, q: Parser) {
    && p.b.mystack != [] && p.stack != []
    && Idle(q) && q.state == OK && q.depth == p.depth && q.stack == p.stack[..|p.stack| - 1]
    && Same(q.b, Close(WithTop(p.b, node)).value)
  }

  lemma CloseSame(b: Builder, c: Builder)
    requires Same(b, c) && b.mystack != []
    ensures Same(Close(b).value, Close(c).value)
  {
  }

  lemma WithTopAgain(p: Parser, p1: Parser, x: Json, node: Json, q: Parser)
    requires p.b.mystack != [] && p1.stack == p.stack && p1.depth == p.depth
    requires Same(p1.b, WithTop(p.b, x)) && ClosedAs(p1, node, q)
    ensures ClosedAs(p, node, q)
  {
  }

  // ----- Arrays

  /** Inside an array, about to read an item. */
  ghost predicate AtItem(p: Parser, xs: seq<Json>) {
    Expecting(p) && Top(p) == MArray && p.b.mystack != [] && TopNode(p.b) == Arr(xs)
  }

  /** After an item, a comma leads to the next. */
  lemma NextItem(p: Parser, xs: seq<Json>, v: Json, q: Parser) returns (p1: Parser)
    requires AtItem(p, xs) && ValueRead(p, v, q)
    ensures Steps(q, 44, p1) && AtItem(p1, xs + [v]) && p1.stack == p.stack && p1.depth == p.depth
    ensures Same(p1.b, WithTop(p.b, Arr(xs + [v])))
  {
    ItemStep(q, Flush(q).p);
    p1 := Flush(q).p.(cap := Cap(q), ty := TNone, state := VA);
  }

  /** Or a bracket closes the array. */
  lemma LastItem(p: Parser, xs: seq<Json>, v: Json, q: Parser) returns (r: Parser)
    requires AtItem(p, xs) && ValueRead(p, v, q)
    ensures Steps(q, 93, r) && ClosedAs(p, Arr(xs + [v]), r)
  {
    var f := Flush(q).p;
    CloseStep(q, f, 93);
    r := f.(cap := Cap(q), ty := TNone, state := OK, stack := q.stack[..|q.stack| - 1], b := Close(f.b).value);
    CloseSame(f.b, WithTop(p.b, Arr(xs + [v])));
  }

  lemma ItemsMore(p: Parser, xs: seq<Json>, v: Json, vs: seq<Json>, p1: Parser, r: Parser)
    requires p.b.mystack != [] && p1.stack == p.stack && p1.depth == p.depth
    requires Same(p1.b, WithTop(p.b, Arr(xs + [v]))) && ClosedAs(p1, Arr(xs + [v] + vs), r)
    ensures ClosedAs(p, Arr(xs + ([v] + vs)), r)
  {
    assert xs + [v] + vs == xs + ([v] + vs);
    WithTopAgain(p, p1, Arr(xs + [v]), Arr(xs + ([v] + vs)), r);
  }

  // ----- Dicts

  /** Inside an object, about to read a key. */
  ghost predicate AtMember(p: Parser, ms: seq<Member>) {
    && Idle(p) && (p.state == OB || p.state == KE) && p.stack != [] && Top(p) == MKey && |p.stack| - 1 <= p.depth
    && p.b.mystack != [] && TopNode(p.b) == Dict(ms)
  }

  /** `q` has read the key and colon: the object now waits for the value. */
  ghost predicate KeyRead(p: Parser, key: Text, q: Parser) {
    && Expecting(q) && q.depth == p.depth && p.stack != []
    && q.stack == p.stack[..|p.stack| - 1] + [MObject]
    && q.b == p.b.(lastkey := key)
  }

  /** A member is added unless its key is there. */
  lemma PutMember(b: Builder, c: Builder, ms: seq<Member>, m: Member)
    requires b.mystack != [] && TopNode(b) == Dict(ms) && c == b.(lastkey := m.key)
    ensures Put(c, m.key, m.value).mystack == WithTop(b, Dict(Insert(ms, m.key, m.value))).mystack
    ensures Put(c, m.key, m.value).root == b.root
  {
  }

  lemma NextMember(p: Parser, ms: seq<Member>, m: Member, p2: Parser, q: Parser) returns (p1: Parser)
    requires AtMember(p, ms) && KeyRead(p, m.key, p2) && ValueRead(p2, m.value, q)
    ensures Steps(q, 44, p1) && AtMember(p1, Insert(ms, m.key, m.value)) && p1.stack == p.stack && p1.depth == p.depth
    ensures Same(p1.b, WithTop(p.b, Dict(Insert(ms, m.key, m.value))))
  {
    PutMember(p.b, p2.b, ms, m);
    MemberStep(q, Flush(q).p);
    assert q.stack[..|q.stack| - 1] + [MKey] == p.stack;
    p1 := Flush(q).p.(cap := Cap(q), ty := TNone, state := KE, stack := p.stack);
  }

  lemma LastMember(p: Parser, ms: seq<Member>, m: Member, p2: Parser, q: Parser) returns (r: Parser)
    requires AtMember(p, ms) && KeyRead(p, m.key, p2) && ValueRead(p2, m.value, q)
    ensures Steps(q, 125, r) && ClosedAs(p, Dict(Insert(ms, m.key, m.value)), r)
  {
    PutMember(p.b, p2.b, ms, m);
    var f := Flush(q).p;
    CloseStep(q, f, 125);
    r := f.(cap := Cap(q), ty := TNone, state := OK, stack := q.stack[..|q.stack| - 1], b := Close(f.b).value);
    CloseSame(f.b, WithTop(p.b, Dict(Insert(ms, m.key, m.value))));
    assert q.stack[..|q.stack| - 1] == p.stack[..|p.stack| - 1];
  }

  // ----- Opening and closing

  /** A container read where a value was expected, or at the start. */
  ghost predicate ContainerDone(p: Parser, v: Json, q: Parser) {
    Idle(q) && q.state == OK && q.stack == p.stack && q.depth == p.depth && Same(q.b, Put(p.b, p.b.lastkey, v))
  }

  lemma ContainerRead(p: Parser, v: Json, q: Parser)
    requires ContainerDone(p, v, q)
    ensures ValueRead(p, v, q)
  {
  }

  predicate AtContainer(p: Parser) { Idle(p) && (p.state == GO || ExpectsValue(p.state)) }

  /** `p1` is `p` with a container opened. */
  ghost predicate Opened(p: Parser, c: int, p1: Parser) {
    && (c == 91 || c == 123)
    && p1 == p.(cap := p1.cap, before := p1.before, stack := p.stack + [if c == 91 then MArray else MKey], state := if c == 91 then AR else OB,
                b := p.b.(mystack := p.b.mystack + [Frame(p.b.lastkey, if c == 91 then Arr([]) else Dict([]))]))
  }

  lemma Open(p: Parser, c: int) returns (p1: Parser)
    requires AtContainer(p) && |p.stack| - 1 != p.depth && (c == 91 || c == 123)
    ensures Steps(p, c, p1) && Opened(p, c, p1) && Idle(p1)
  {
    OpenStep(p, c);
    p1 := p.(cap := Cap(p), stack := p.stack + [if c == 91 then MArray else MKey], state := if c == 91 then AR else OB,
             b := p.b.(mystack := p.b.mystack + [Frame(p.b.lastkey, if c == 91 then Arr([]) else Dict([]))]));
  }

  lemma Reclose(p: Parser, c: int, p1: Parser, v: Json, q: Parser)
    requires Opened(p, c, p1) && ClosedAs(p1, v, q)
    ensures ContainerDone(p, v, q)
  {
  }

  /** An empty container closes at once. */
  lemma EmptyFed(p: Parser, c: int, p1: Parser) returns (q: Parser)
    requires Opened(p, c, p1) && Idle(p1)
    ensures Steps(p1, if c == 91 then 93 else 125, q) && ClosedAs(p1, if c == 91 then Arr([]) else Dict([]), q)
  {
    EmptyStep(p1, if c == 91 then 93 else 125);
    q := p1.(cap := Cap(p1), state := OK, stack := p1.stack[..|p1.stack| - 1], b := Close(p1.b).value);
    assert WithTop(p1.b, if c == 91 then Arr([]) else Dict([])) == p1.b;
  }
}
