/** What single characters do to the JSON parser, where it accepts them. */
module JsonSteps {
  import opened Basics
  import opened JsonTable
  import opened JsonTree
  import opened JsonParser
  import opened JsonSafe

  predicate Calm(p: Parser) { !p.escaped && !p.comment && p.high == 0 && |p.buf| + 1 <= p.cap }

  /** Between tokens. */
  predicate Idle(p: Parser) { Calm(p) && p.ty == TNone && p.buf == [] }

  function Cap(p: Parser): (c: nat)
    requires p.cap > 0
    ensures |p.buf| + 2 <= c
  {
    Grow(p.cap, |p.buf| + 2)
  }

  /** The character takes the parser from `p` to `q`.  (Said of every character
      equal to `c`, so that proofs use it as a whole; likewise Reads.) */
  ghost predicate Steps(p: Parser, c: int, q: Parser) {
    forall d | d == c :: Char(p, d) == Accepted(q)
  }

  lemma CharIs(p: Parser, c: int)
    requires !p.escaped && |p.buf| + 1 <= p.cap && 0 <= c && ClassOf(c) >= 0
    ensures Char(p, c) == Perform(Added(p, c, ClassOf(c)), Table(p.state, ClassOf(c)))
  {
    AddedPlain(p, c, ClassOf(c));
  }

  lemma OpenStep(p: Parser, c: int)
    requires Idle(p) && (p.state == GO || ExpectsValue(p.state)) && |p.stack| - 1 != p.depth && (c == 91 || c == 123)
    ensures Steps(p, c, p.(cap := Cap(p), stack := p.stack + [if c == 91 then MArray else MKey],
      state := if c == 91 then AR else OB,
      b := p.b.(mystack := p.b.mystack + [Frame(p.b.lastkey, if c == 91 then Arr([]) else Dict([]))])))
  {
    if c == 91 { OpenArrayStep(p); } else { OpenObjectStep(p); }
  }

  lemma OpenArrayStep(p: Parser)
    requires Idle(p) && (p.state == GO || ExpectsValue(p.state)) && |p.stack| - 1 != p.depth
    ensures Steps(p, 91, p.(cap := Cap(p), stack := p.stack + [MArray], state := AR, b := Cb(p.b, ArrayBegin).value))
  {
    CharIs(p, 91);
    AtBeginIs(p, 91, ArrayBegin, MArray, AR);
  }

  lemma OpenObjectStep(p: Parser)
    requires Idle(p) && (p.state == GO || ExpectsValue(p.state)) && |p.stack| - 1 != p.depth
    ensures Steps(p, 123, p.(cap := Cap(p), stack := p.stack + [MKey], state := OB, b := Cb(p.b, ObjectBegin).value))
  {
    CharIs(p, 123);
    AtBeginIs(p, 123, ObjectBegin, MKey, OB);
  }

  lemma AtBeginIs(p: Parser, c: int, e: Event, m: Mode, s: int)
    requires Idle(p) && |p.stack| - 1 != p.depth && (c == 91 || c == 123) && (e == ArrayBegin || e == ObjectBegin)
    ensures AtBegin(Added(p, c, ClassOf(c)), e, m, s)
            == Accepted(p.(cap := Cap(p), stack := p.stack + [m], state := s, b := Cb(p.b, e).value))
  {
  }

  /** A value has been read; `f` is the parser once it is delivered. */
  ghost predicate Pending(q: Parser, f: Parser) {
    Calm(q) && EndsValue(q.state) && q.ty != TString && Flush(q) == Accepted(f)
  }

  /** The separator goes into the buffer and off it again, and the value is
      delivered. */
  lemma Delivers(q: Parser, f: Parser, c: int)
    requires Pending(q, f) && c in {44, 93, 125}
    ensures var p1 := q.(cap := Cap(q));
            && PopBack(Added(q, c, ClassOf(c))) == Accepted(p1) && Flush(p1) == Accepted(f.(cap := Cap(q)))
            && f == q.(buf := [], b := f.b)
  {
  }

  lemma ItemStep(q: Parser, f: Parser)
    requires Pending(q, f) && Top(q) == MArray
    ensures Steps(q, 44, f.(cap := Cap(q), ty := TNone, state := VA))
  {
    CharIs(q, 44);
    Delivers(q, f, 44);
  }

  lemma MemberStep(q: Parser, f: Parser)
    requires Pending(q, f) && Top(q) == MObject && |q.stack| - 2 != q.depth
    ensures Steps(q, 44, f.(cap := Cap(q), ty := TNone, state := KE, stack := q.stack[..|q.stack| - 1] + [MKey]))
  {
    CharIs(q, 44);
    Delivers(q, f, 44);
  }

  lemma CloseStep(q: Parser, f: Parser, c: int)
    requires Pending(q, f) && q.stack != [] && ((c == 93 && Top(q) == MArray) || (c == 125 && Top(q) == MObject))
    requires f.b.mystack != []
    ensures Steps(q, c, f.(cap := Cap(q), ty := TNone, state := OK, stack := q.stack[..|q.stack| - 1], b := Close(f.b).value))
  {
    CharIs(q, c);
    if c == 93 { AtEndIs(q, f, c, ArrayEnd, MArray); } else { AtEndIs(q, f, c, ObjectEnd, MObject); }
  }

  lemma AtEndIs(q: Parser, f: Parser, c: int, e: Event, m: Mode)
    requires Pending(q, f) && q.stack != [] && Top(q) == m && (c == 93 || c == 125) && (e == ArrayEnd || e == ObjectEnd)
    requires f.b.mystack != []
    ensures AtEnd(Added(q, c, ClassOf(c)), e, m)
            == Accepted(f.(cap := Cap(q), ty := TNone, state := OK, stack := q.stack[..|q.stack| - 1], b := Close(f.b).value))
  {
    Delivers(q, f, c);
  }

  lemma EmptyStep(p: Parser, c: int)
    requires Idle(p) && p.stack != [] && p.b.mystack != []
    requires (c == 93 && p.state == AR && Top(p) == MArray) || (c == 125 && p.state == OB && Top(p) == MKey)
    ensures Steps(p, c, p.(cap := Cap(p), state := OK, stack := p.stack[..|p.stack| - 1], b := Close(p.b).value))
  {
    CharIs(p, c);
    if c == 93 { EmptyArrayIs(p); } else { EmptyObjectIs(p); }
  }

  lemma EmptyArrayIs(p: Parser)
    requires Idle(p) && p.stack != [] && p.b.mystack != [] && Top(p) == MArray
    ensures AtEnd(Added(p, 93, ClassOf(93)), ArrayEnd, MArray)
            == Accepted(p.(cap := Cap(p), state := OK, stack := p.stack[..|p.stack| - 1], b := Close(p.b).value))
  {
    var p1 := p.(cap := Cap(p));
    assert PopBack(Added(p, 93, ClassOf(93))) == Accepted(p1) && Flush(p1) == Accepted(p1);
    var p2 := p1.(b := Close(p.b).value);
    assert Send(p1, ArrayEnd) == Accepted(p2) && Pop(p2, MArray) == Accepted(p2.(stack := p.stack[..|p.stack| - 1]));
  }

  lemma EmptyObjectIs(p: Parser)
    requires Idle(p) && p.stack != [] && p.b.mystack != [] && Top(p) == MKey
    ensures AtEmptyObject(Added(p, 125, ClassOf(125)))
            == Accepted(p.(cap := Cap(p), state := OK, stack := p.stack[..|p.stack| - 1], b := Close(p.b).value))
  {
  }

  lemma QuoteStep(p: Parser)
    requires Idle(p) && (p.state == OB || p.state == KE || ExpectsValue(p.state))
    ensures Steps(p, 34, p.(cap := Cap(p), ty := TString, state := ST))
  {
    CharIs(p, 34);
  }

  predicate PlainChar(c: int) { 32 <= c < 256 && c != 34 && c != 92 }

  lemma TextStep(p: Parser, c: int)
    requires Calm(p) && p.state == ST && p.ty == TString && PlainChar(c)
    ensures Steps(p, c, p.(cap := Cap(p), buf := p.buf + [c]))
  {
    CharIs(p, c);
  }

  lemma KeyStep(p: Parser)
    requires Calm(p) && p.state == ST && p.ty == TString && Top(p) == MKey
    ensures Steps(p, 34, p.(cap := Cap(p), ty := TNone, state := CO, buf := [], b := p.b.(lastkey := CString(p.buf))))
  {
    CharIs(p, 34);
    QuoteOff(p);
  }

  /** The closing quote goes into the buffer and off it again. */
  lemma QuoteOff(p: Parser)
    requires Calm(p) && p.ty == TString
    ensures PopBack(Added(p, 34, C_QUOTE)) == Accepted(p.(cap := Cap(p)))
  {
  }

  lemma StringStep(p: Parser)
    requires Calm(p) && p.state == ST && p.ty == TString && (Top(p) == MArray || Top(p) == MObject)
    ensures Steps(p, 34, p.(cap := Cap(p), ty := TNone, state := OK, buf := [], b := Put(p.b, p.b.lastkey, Str(CString(p.buf)))))
  {
    CharIs(p, 34);
    QuoteOff(p);
  }

  lemma ColonStep(p: Parser)
    requires Idle(p) && p.state == CO && p.stack != [] && Top(p) == MKey && |p.stack| - 2 != p.depth
    ensures Steps(p, 58, p.(cap := Cap(p), state := VA, stack := p.stack[..|p.stack| - 1] + [MObject]))
  {
    CharIs(p, 58);
    AtColonIs(p);
  }

  lemma AtColonIs(p: Parser)
    requires Idle(p) && p.stack != [] && Top(p) == MKey && |p.stack| - 2 != p.depth
    ensures AtColon(Added(p, 58, ClassOf(58)))
            == Accepted(p.(cap := Cap(p), state := VA, stack := p.stack[..|p.stack| - 1] + [MObject]))
  {
  }

  lemma MinusStep(p: Parser)
    requires Idle(p) && ExpectsValue(p.state)
    ensures Steps(p, 45, p.(cap := Cap(p), ty := TInteger, state := MI, buf := [45]))
  {
    CharIs(p, 45);
  }

  /** The first digit of a number. */
  lemma FirstDigitStep(p: Parser, c: int)
    requires Calm(p) && 48 <= c <= 57
    requires (ExpectsValue(p.state) && p.ty == TNone) || (p.state == MI && p.ty == TInteger)
    ensures Steps(p, c, p.(cap := Cap(p), ty := TInteger, state := if c == 48 then ZE else IT, buf := p.buf + [c]))
  {
    CharIs(p, c);
  }

  lemma DigitStep(p: Parser, c: int)
    requires Calm(p) && p.state in {IT, FR, E3} && p.ty != TNone && 48 <= c <= 57
    ensures Steps(p, c, p.(cap := Cap(p), buf := p.buf + [c]))
  {
    CharIs(p, c);
  }

  /** The decimal point makes the number a float. */
  lemma PointStep(p: Parser)
    requires Calm(p) && (p.state == ZE || p.state == IT) && p.ty == TInteger
    ensures Steps(p, 46, p.(cap := Cap(p), ty := TFloat, state := FX, buf := p.buf + [46]))
  {
    CharIs(p, 46);
  }

  lemma FracDigitStep(p: Parser, c: int)
    requires Calm(p) && p.state == FX && p.ty == TFloat && 48 <= c <= 57
    ensures Steps(p, c, p.(cap := Cap(p), state := FR, buf := p.buf + [c]))
  {
    CharIs(p, c);
  }

  /** So does the mark of an exponent. */
  lemma MarkStep(p: Parser, c: int)
    requires Calm(p) && ((p.state == IT && p.ty == TInteger) || (p.state in {FX, FR} && p.ty == TFloat)) && (c == 101 || c == 69)
    ensures Steps(p, c, p.(cap := Cap(p), ty := TFloat, state := E1, buf := p.buf + [c]))
  {
    CharIs(p, c);
  }

  lemma SignStep(p: Parser, c: int)
    requires Calm(p) && p.state == E1 && p.ty == TFloat && (c == 43 || c == 45)
    ensures Steps(p, c, p.(cap := Cap(p), state := E2, buf := p.buf + [c]))
  {
    CharIs(p, c);
  }

  lemma ExpDigitStep(p: Parser, c: int)
    requires Calm(p) && (p.state == E1 || p.state == E2) && p.ty == TFloat && 48 <= c <= 57
    ensures Steps(p, c, p.(cap := Cap(p), state := E3, buf := p.buf + [c]))
  {
    CharIs(p, c);
  }

  predicate IsWhite(c: int) { c == 32 || c == 9 || c == 10 || c == 13 }

  /** White space between tokens changes nothing. */
  lemma WhiteStep(p: Parser, c: int)
    requires Idle(p) && OfStructure(p.state) && IsWhite(c)
    ensures Steps(p, c, p.(cap := Cap(p)))
  {
    CharIs(p, c);
  }

  /** White space after a value that is not delivered yet goes into the buffer. */
  lemma WhiteAfterStep(q: Parser, c: int)
    requires Calm(q) && EndsValue(q.state) && IsWhite(c)
    ensures Steps(q, c, q.(cap := Cap(q), state := OK, buf := if q.ty == TNone then q.buf else q.buf + [c]))
  {
    CharIs(q, c);
  }

  /** The first letter of a keyword. */
  lemma WordStep(p: Parser, c: int, ty: Type, t: int)
    requires Idle(p) && ExpectsValue(p.state)
    requires (c == 110 && ty == TNull && t == N1) || (c == 102 && ty == TFalse && t == F1) || (c == 116 && ty == TTrue && t == T1)
    ensures Steps(p, c, p.(cap := Cap(p), buf := [c], ty := ty, state := t))
  {
    CharIs(p, c);
    BeginTokenIs(p, c, ty, t);
  }

  lemma BeginTokenIs(p: Parser, c: int, ty: Type, t: int)
    requires Idle(p) && 97 <= c <= 122
    ensures BeginToken(Added(p, c, ClassOf(c)), ty, t) == Accepted(p.(cap := Cap(p), buf := [c], ty := ty, state := t))
  {
  }

  lemma LetterStep(p: Parser, c: int)
    requires Calm(p) && OfKeyword(p.state) && p.ty != TNone && 97 <= c <= 122 && Table(p.state, ClassOf(c)) >= 0
    ensures Steps(p, c, p.(cap := Cap(p), buf := p.buf + [c], state := Table(p.state, ClassOf(c))))
  {
    CharIs(p, c);
  }

  // ----- Texts

  lemma {:induction false} FeedConcat(p: Parser, a: seq<int>, b: seq<int>)
    ensures Feed(p, a + b) == if Feed(p, a).Accepted? then Feed(Feed(p, a).p, b) else Feed(p, a)
    decreases |a|
  {
    if a == [] {
      assert a + b == b;
    } else {
      assert (a + b)[0] == a[0] && (a + b)[1..] == a[1..] + b;
      if Char(p, a[0]).Accepted? { FeedConcat(Char(p, a[0]).p, a[1..], b); }
    }
  }

  /** The text takes the parser from `p` to `q`. */
  ghost predicate Reads(p: Parser, t: seq<int>, q: Parser) {
    forall u | u == t :: Feed(p, u) == Accepted(q)
  }

  lemma ReadsIs(p: Parser, t: seq<int>, q: Parser)
    ensures Reads(p, t, q) <==> Feed(p, t) == Accepted(q)
  {
    if Reads(p, t, q) { assert t == t && Feed(p, t) == Accepted(q); }
  }

  lemma ReadsNothing(p: Parser)
    ensures Reads(p, [], p)
  {
  }

  lemma ReadsOne(p: Parser, c: int, q: Parser)
    requires Steps(p, c, q)
    ensures Reads(p, [c], q)
  {
    assert Char(p, c) == Accepted(q);
    assert [c][1..] == [];
    ReadsIs(p, [c], q);
  }

  lemma ReadsThen(p: Parser, a: seq<int>, q: Parser, b: seq<int>, r: Parser)
    requires Reads(p, a, q) && Reads(q, b, r)
    ensures Reads(p, a + b, r)
  {
    ReadsIs(p, a, q);
    ReadsIs(q, b, r);
    FeedConcat(p, a, b);
    ReadsIs(p, a + b, r);
  }

  lemma ReadsLast(p: Parser, a: seq<int>, q: Parser, c: int, r: Parser)
    requires Reads(p, a, q) && Steps(q, c, r)
    ensures Reads(p, a + [c], r)
  {
    ReadsOne(q, c, r);
    ReadsThen(p, a, q, [c], r);
  }

  lemma ReadsFirst(p: Parser, c: int, q: Parser, b: seq<int>, r: Parser)
    requires Steps(p, c, q) && Reads(q, b, r)
    ensures Reads(p, [c] + b, r)
  {
    ReadsOne(p, c, q);
    ReadsThen(p, [c], q, b, r);
  }
}
