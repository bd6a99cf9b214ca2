/** On every text, up to the first rejected character, no assertion of the JSON
    parser fails, and its mode stack and the tree builder's stack both mirror
    the open brackets. */
module JsonSafe {
  import opened Basics
  import opened JsonTable
  import opened JsonTree
  import opened JsonParser

  // ----- A reference for brackets: a lexer that knows only strings and comments

  datatype Lex = Plain | InString | InEscape | AfterSlash | InComment | AfterStar

  /** The lexer's state and the brackets open so far, innermost last. */
  datatype Scan = Scan(lex: Lex, open: seq<int>)

  function ScanChar(s: Scan, c: int): Scan {
    match s.lex
    case Plain =>
      if c == 34 then s.(lex := InString)
      else if c == 47 then s.(lex := AfterSlash)
      else if c == 91 || c == 123 then s.(open := s.open + [c])
      else if (c == 93 || c == 125) && s.open != [] then s.(open := s.open[..|s.open| - 1])
      else s
    case InString => s.(lex := if c == 34 then Plain else if c == 92 then InEscape else InString)
    case InEscape => s.(lex := InString)
    case AfterSlash => s.(lex := if c == 42 then InComment else Plain)
    case InComment => s.(lex := if c == 42 then AfterStar else InComment)
    case AfterStar => s.(lex := if c == 47 then Plain else if c == 42 then AfterStar else InComment)
  }

  function ScanText(s: Scan, t: seq<int>): Scan
    decreases |t|
  {
    if t == [] then s else ScanText(ScanChar(s, t[0]), t[1..])
  }

  // ----- The invariant

  function LexOf(s: int): Lex {
    if s == ST || s == U1 || s == U2 || s == U3 || s == U4 || s == D1 then InString
    else if s == ES || s == D2 then InEscape
    else if s == C1 then AfterSlash else if s == C2 then InComment else if s == C3 then AfterStar
    else Plain
  }

  /** The type pending in a state; OK, which takes several, is apart. */
  function TypeOf(s: int): Type {
    if OfNumber(s) then (if s == MI || s == ZE || s == IT then TInteger else TFloat)
    else if OfKeyword(s) then
      (if s == T1 || s == T2 || s == T3 then TTrue else if s == N1 || s == N2 || s == N3 then TNull else TFalse)
    else if OfString(s) then TString
    else TNone
  }

  /** The modes a state may have on top of the stack. */
  predicate ModeFits(s: int, m: Mode) {
    if s == GO then m == MDone
    else if s == OK then m != MKey
    else if s == OB || s == KE || s == CO then m == MKey
    else if s == AR then m == MArray
    else if OfString(s) then m != MDone
    else m == MArray || m == MObject
  }

  /** Where the second half of a surrogate pair may be awaited. */
  predicate Surrogate(s: int) { U1 <= s <= U4 || s == D1 || s == D2 }

  predicate HexTail(buf: Text, n: nat) {
    n <= |buf| && forall i | |buf| - n <= i < |buf| :: 0 <= HexValue(buf[i]) < 16
  }

  /** The piece of an escape sequence already in the buffer. */
  predicate BufferFits(p: Parser) {
    if p.state == ES then |p.buf| >= 1
    else if p.state == D2 then |p.buf| >= 1
    else if p.state == U1 then |p.buf| >= 2
    else if p.state == U2 then |p.buf| >= 3 && HexTail(p.buf, 1)
    else if p.state == U3 then |p.buf| >= 4 && HexTail(p.buf, 2)
    else if p.state == U4 then |p.buf| >= 5 && HexTail(p.buf, 3)
    else p.ty == TNone ==> p.buf == []
  }

  predicate TypeFits(p: Parser) {
    if p.state == OK then p.ty != TString && (Top(p) == MDone ==> p.ty == TNone) else TypeOf(p.state) == p.ty
  }

  predicate Control(p: Parser) {
    && GO <= p.state <= D2
    && p.comment == OfComment(p.state)
    && p.escaped == (p.state == ES)
    && TypeFits(p)
    && BufferFits(p)
    && |p.buf| + 1 <= p.cap
    && (p.state == D1 || p.state == D2 ==> IsHigh(p.high))
    && (p.high != 0 ==> IsHigh(p.high) && Surrogate(p.state))
    && (if OfComment(p.state) then OfStructure(p.before) && ModeFits(p.before, Top(p)) else ModeFits(p.state, Top(p)))
  }

  predicate Matches(m: Mode, open: int, f: Frame) {
    if open == 91 then m == MArray && f.node.Arr?
    else open == 123 && (m == MKey || m == MObject) && f.node.Dict?
  }

  /** Mode stack, open brackets and builder stack agree level by level. */
  ghost predicate Mirrors(stack: seq<Mode>, open: seq<int>, fs: seq<Frame>) {
    && |stack| == |open| + 1 == |fs| + 1
    && stack[0] == MDone
    && forall i | 0 <= i < |open| :: Matches(stack[i + 1], open[i], fs[i])
  }

  /** Only the innermost object can be at a key. */
  ghost predicate KeysOnTop(stack: seq<Mode>) {
    forall i | 0 <= i < |stack| - 1 :: stack[i] != MKey
  }

  ghost predicate Safe(p: Parser, s: Scan) {
    && Control(p) && s.lex == LexOf(p.state)
    && Mirrors(p.stack, s.open, p.b.mystack) && KeysOnTop(p.stack) && |p.stack| <= p.depth + 1
  }

  /** The one way the callback goes wrong: a closing bracket after the text is
      complete. */
  predicate ClosesTooMuch(p: Parser, c: int) { p.state == OK && Top(p) == MDone && (c == 93 || c == 125) }

  // ----- Adding the character to the buffer

  /** The buffer keeps what it needs when a character is appended. */
  lemma HexPushed(buf: Text, n: nat, c: uint8)
    requires HexTail(buf, n) && 0 <= HexValue(c) < 16
    ensures HexTail(buf + [c], n + 1)
  {
  }

  lemma HexChar(c: int, k: int)
    requires 0 <= c && ClassOf(c) == k && k >= 0 && IsHex(k)
    ensures 0 <= HexValue(c % 256) < 16
  {
  }

  /** The buffer after the character went in. */
  function Added(p: Parser, c: int, k: int): Parser
    requires p.cap > 0
  {
    p.(cap := Grow(p.cap, |p.buf| + 2),
       buf := if !p.comment && (p.ty != TNone || !(k == C_SPACE || k == C_WHITE)) then p.buf + [c % 256] else p.buf)
  }

  /** What AddChar leaves, for a state outside an escape. */
  lemma AddedPlain(p: Parser, c: int, k: int)
    requires |p.buf| + 1 <= p.cap && !p.escaped && 0 <= c
    ensures AddChar(p, c, k) == Accepted(Added(p, c, k))
  {
  }

  lemma AddedEscaped(p: Parser, c: int, k: int)
    requires p.buf != [] && |p.buf| + 1 <= p.cap && p.escaped && 0 <= c
    ensures var o := AddChar(p, c, k);
            var buf := p.buf[..|p.buf| - 1];
            o == if c == 117 then Accepted(p.(escaped := false, cap := Grow(p.cap, |p.buf| + 2), buf := buf + [92] + [117]))
                 else if c in {98, 102, 110, 114, 116, 34, 92, 47} then
                   Accepted(p.(escaped := false, cap := Grow(p.cap, |p.buf| + 2), buf := buf + [Unescape(c)]))
                 else Rejected
  {
  }

  // ----- Plain transitions

  /** Which character a class stands for, where the lexer cares. */
  lemma ClassChars(c: int, k: int)
    requires 0 <= c && ClassOf(c) == k && k >= 0
    ensures (k == C_QUOTE <==> c == 34) && (k == C_SLASH <==> c == 47) && (k == C_BACKS <==> c == 92) && (k == C_STAR <==> c == 42)
    ensures (k == C_LSQRB <==> c == 91) && (k == C_LCURB <==> c == 123) && (k == C_RSQRB <==> c == 93) && (k == C_RCURB <==> c == 125)
    ensures (k == C_LOW_U <==> c == 117) && (k == C_POINT <==> c == 46)
  {
  }

  function LexStep(l: Lex, k: int): Lex {
    match l
    case Plain => if k == C_QUOTE then InString else if k == C_SLASH then AfterSlash else Plain
    case InString => if k == C_QUOTE then Plain else if k == C_BACKS then InEscape else InString
    case InEscape => InString
    case AfterSlash => if k == C_STAR then InComment else Plain
    case InComment => if k == C_STAR then AfterStar else InComment
    case AfterStar => if k == C_SLASH then Plain else if k == C_STAR then AfterStar else InComment
  }

  predicate Bracket(k: int) { k == C_LSQRB || k == C_LCURB || k == C_RSQRB || k == C_RCURB }

  predicate ModesKept(s: int, t: int) {
    && (ModeFits(s, MDone) ==> ModeFits(t, MDone)) && (ModeFits(s, MKey) ==> ModeFits(t, MKey))
    && (ModeFits(s, MArray) ==> ModeFits(t, MArray)) && (ModeFits(s, MObject) ==> ModeFits(t, MObject))
  }

  /** What a table entry that only changes the state guarantees. */
  ghost predicate Moves(s: int, t: int, k: int) {
    && LexOf(t) == LexStep(LexOf(s), k)
    && (LexOf(s).Plain? ==> !Bracket(k) && (s == OK || TypeOf(s) == TNone ==> k == C_SPACE || k == C_WHITE))
    && (if t == OK then s == OK || (TypeOf(s) != TNone && TypeOf(s) != TString) else TypeOf(t) == TypeOf(s) && s != OK)
    && OfComment(t) == OfComment(s) && t != ES
    && (OfComment(s) || ModesKept(s, t))
    && (t == D1 ==> false) && (t == D2 ==> s == D1) && (Surrogate(s) ==> Surrogate(t))
    && (t == U1 ==> s == D2) && (t == U2 ==> s == U1) && (t == U3 ==> s == U2) && (t == U4 ==> s == U3)
    && (t == U2 || t == U3 || t == U4 ==> IsHex(k))
  }

  lemma TableMoves(s: int, k: int)
    requires GO <= s <= D2 && s != ES && Table(s, k) >= 0
    ensures Moves(s, Table(s, k), k)
  {
    if OfString(s) || OfStructure(s) { FirstMoves(s, k); } else { OtherMoves(s, k); }
  }

  lemma FirstMoves(s: int, k: int)
    requires (OfString(s) || OfStructure(s)) && s != ES && Table(s, k) >= 0
    ensures Moves(s, Table(s, k), k)
  {
  }

  lemma OtherMoves(s: int, k: int)
    requires (OfNumber(s) || OfKeyword(s) || OfComment(s)) && Table(s, k) >= 0
    ensures Moves(s, Table(s, k), k)
  {
  }

  lemma ScanSame(s: Scan, c: int, k: int)
    requires 0 <= c && ClassOf(c) == k && k >= 0 && (s.lex.Plain? ==> !Bracket(k))
    ensures ScanChar(s, c) == s.(lex := LexStep(s.lex, k))
  {
    ClassChars(c, k);
  }

  lemma GoControl(p: Parser, c: int, k: int, t: int)
    requires Control(p) && !p.escaped && Moves(p.state, t, k) && GO <= t <= D2 && 0 <= c && ClassOf(c) == k
    ensures Control(Added(p, c, k).(state := t))
  {
    if IsHex(k) { HexChar(c, k); }
    if t == U2 { HexPushed(p.buf, 0, c % 256); }
    if t == U3 { HexPushed(p.buf, 1, c % 256); }
    if t == U4 { HexPushed(p.buf, 2, c % 256); }
  }

  lemma Go(p: Parser, s: Scan, c: int, k: int)
    requires Safe(p, s) && !p.escaped && 0 <= c && ClassOf(c) == k && k >= 0 && GO <= Table(p.state, k) <= D2
    ensures Safe(Added(p, c, k).(state := Table(p.state, k)), ScanChar(s, c))
  {
    TableMoves(p.state, k);
    GoControl(p, c, k, Table(p.state, k));
    ScanSame(s, c, k);
  }

  // ----- Actions

  predicate ExpectsValue(s: int) { s == VA || s == AR }

  predicate EndsValue(s: int) { s == OK || s == ZE || s == IT || s == FR || s == E3 || s == FX }

  /** In which states, on which characters, the table asks for an action. */
  ghost predicate ActsAt(s: int, k: int, a: int) {
    && a <= D2
    && (a == UC ==> s == U4 && IsHex(k)) && (a == EX ==> s == ST && k == C_BACKS)
    && (a == MX ==> ExpectsValue(s) && k == C_MINUS) && (a == ZX ==> ExpectsValue(s) && k == C_ZERO)
    && (a == IX ==> ExpectsValue(s) && k == C_DIGIT)
    && (a == NU || a == FA || a == TR ==> ExpectsValue(s) && C_LOW_A <= k <= C_LOW_U)
    && (a == DE ==> s == IT && (k == C_LOW_E || k == C_E)) && (a == DF ==> (s == ZE || s == IT) && k == C_POINT)
    && (a == SB ==> (s == OB || s == KE || ExpectsValue(s)) && k == C_QUOTE)
    && (a == CE ==> s == C3 && k == C_SLASH)
    && (a == CB ==> k == C_SLASH && (OfStructure(s) || s == ZE || s == IT || s == FR || s == T3 || s == F4 || s == N3))
    && (a == EMPTY_OBJECT ==> s == OB && k == C_RCURB)
    && (a == END_OBJECT ==> EndsValue(s) && k == C_RCURB) && (a == END_ARRAY ==> (EndsValue(s) || s == AR) && k == C_RSQRB)
    && (a == BEGIN_OBJECT ==> (s == GO || ExpectsValue(s)) && k == C_LCURB)
    && (a == BEGIN_ARRAY ==> (s == GO || ExpectsValue(s)) && k == C_LSQRB)
    && (a == END_STRING ==> s == ST && k == C_QUOTE)
    && (a == COMMA ==> EndsValue(s) && k == C_COMMA) && (a == COLON ==> s == CO && k == C_COLON)
  }

  lemma TableActs(s: int, k: int)
    requires GO <= s <= D2
    ensures ActsAt(s, k, Table(s, k))
  {
    if OfString(s) || OfStructure(s) { FirstActs(s, k); } else { OtherActs(s, k); }
  }

  lemma FirstActs(s: int, k: int)
    requires OfString(s) || OfStructure(s)
    ensures ActsAt(s, k, Table(s, k))
  {
  }

  lemma OtherActs(s: int, k: int)
    requires OfNumber(s) || OfKeyword(s) || OfComment(s)
    ensures ActsAt(s, k, Table(s, k))
  {
  }

  /** Actions that only start or extend a token. */
  lemma TokenSafe(p: Parser, s: Scan, c: int, k: int)
    requires Safe(p, s) && !p.escaped && 0 <= c && ClassOf(c) == k && k >= 0
    requires Table(p.state, k) in {MX, ZX, IX, NU, FA, TR}
    ensures var o := Perform(Added(p, c, k), Table(p.state, k)); o.Accepted? && Safe(o.p, ScanChar(s, c))
  {
    TableActs(p.state, k);
    ScanSame(s, c, k);
  }

  lemma ExtendSafe(p: Parser, s: Scan, c: int, k: int)
    requires Safe(p, s) && !p.escaped && 0 <= c && ClassOf(c) == k && k >= 0
    requires Table(p.state, k) in {EX, DE, DF, SB}
    ensures var o := Perform(Added(p, c, k), Table(p.state, k)); o.Accepted? && Safe(o.p, ScanChar(s, c))
  {
    TableActs(p.state, k);
    ClassChars(c, k);
    ScanSame(s, c, k);
  }

  lemma UncommentSafe(p: Parser, s: Scan, c: int, k: int)
    requires Safe(p, s) && !p.escaped && 0 <= c && ClassOf(c) == k && k >= 0 && Table(p.state, k) == CE
    ensures var o := Perform(Added(p, c, k), CE); o.Accepted? && Safe(o.p, ScanChar(s, c))
  {
    TableActs(p.state, k);
    ClassChars(c, k);
  }

  // ----- Actions that call back

  lemma PutMirrors(stack: seq<Mode>, open: seq<int>, b: Builder, key: Text, v: Json)
    requires Mirrors(stack, open, b.mystack)
    ensures Mirrors(stack, open, Put(b, key, v).mystack)
  {
  }

  lemma CloseMirrors(stack: seq<Mode>, open: seq<int>, b: Builder)
    requires Mirrors(stack, open, b.mystack) && open != []
    ensures Close(b).Some? && Mirrors(stack[..|open|], open[..|open| - 1], Close(b).value.mystack)
  {
    var n := |open| - 1;
    PutMirrors(stack[..|open|], open[..n], b.(mystack := b.mystack[..n]), b.mystack[n].key, b.mystack[n].node);
  }

  lemma TopMirrors(p: Parser, open: seq<int>)
    requires Mirrors(p.stack, open, p.b.mystack)
    ensures p.stack != [] && (Top(p) == MDone <==> open == [])
  {
    if open != [] { assert Matches(p.stack[|open| - 1 + 1], open[|open| - 1], p.b.mystack[|open| - 1]); }
  }

  /** The pending value goes into the tree; the stacks still agree. */
  lemma FlushSafe(p: Parser, open: seq<int>)
    requires Mirrors(p.stack, open, p.b.mystack)
    ensures var o := Flush(p);
            o.Accepted? && o.p == p.(buf := [], b := o.p.b) && Mirrors(p.stack, open, o.p.b.mystack)
  {
    if p.ty != TNone { PutMirrors(p.stack, open, p.b, p.b.lastkey, Denotes(p.ty, p.buf)); }
  }

  /** What is known of an action that first takes its character off the buffer. */
  ghost predicate Ready(p: Parser, s: Scan, c: int, k: int) {
    && Safe(p, s) && 0 <= c && ClassOf(c) == k && k >= 0 && LexOf(p.state).Plain? && !(k == C_SPACE || k == C_WHITE)
  }

  lemma TakenOff(p: Parser, s: Scan, c: int, k: int)
    requires Ready(p, s, c, k)
    ensures !p.escaped && !p.comment
    ensures PopBack(Added(p, c, k)) == Accepted(p.(cap := Grow(p.cap, |p.buf| + 2)))
  {
  }

  lemma CommentSafe(p: Parser, s: Scan, c: int, k: int)
    requires Ready(p, s, c, k) && Table(p.state, k) == CB
    ensures var o := AtCB(Added(p, c, k)); o.Accepted? && Safe(o.p, ScanChar(s, c))
  {
    TableActs(p.state, k);
    TakenOff(p, s, c, k);
    FlushSafe(p.(cap := Grow(p.cap, |p.buf| + 2)), s.open);
    ScanSame(s, c, k);
  }

  /** A closing bracket: accepted only if it closes what is open. */
  lemma EndSafe(p: Parser, s: Scan, c: int, k: int, e: Event, m: Mode)
    requires Ready(p, s, c, k) && (EndsValue(p.state) || p.state == AR)
    requires (k == C_RSQRB && e == ArrayEnd && m == MArray) || (k == C_RCURB && e == ObjectEnd && m == MObject)
    ensures var o := AtEnd(Added(p, c, k), e, m);
            if ClosesTooMuch(p, c) then o == PopsEmpty
            else o == Rejected || (o.Accepted? && Safe(o.p, ScanChar(s, c)))
  {
    ClassChars(c, k);
    TakenOff(p, s, c, k);
    var q := p.(cap := Grow(p.cap, |p.buf| + 2));
    FlushSafe(q, s.open);
    TopMirrors(p, s.open);
    AtEndIsClose(Added(p, c, k), q, Flush(q).p, e, m);
    if s.open != [] {
      CloseMirrors(p.stack, s.open, Flush(q).p.b);
      ClosedSafe(p, s, c, Close(Flush(q).p.b).value, q.cap);
    }
  }

  /** Closing, once the bracket is off the buffer and the value delivered. */
  lemma AtEndIsClose(p: Parser, q: Parser, f: Parser, e: Event, m: Mode)
    requires PopBack(p) == Accepted(q) && Flush(q) == Accepted(f) && (e == ArrayEnd || e == ObjectEnd)
    ensures AtEnd(p, e, m)
            == if f.b.mystack == [] then PopsEmpty
               else if f.stack == [] || Top(f) != m then Rejected
               else Accepted(f.(b := Close(f.b).value, stack := f.stack[..|f.stack| - 1], ty := TNone, state := OK))
  {
  }

  lemma ClosedSafe(p: Parser, s: Scan, c: int, b: Builder, cap: nat)
    requires Safe(p, s) && s.open != [] && s.lex.Plain? && (c == 93 || c == 125) && cap >= 1
    requires Mirrors(p.stack[..|s.open|], s.open[..|s.open| - 1], b.mystack)
    ensures Safe(p.(state := OK, ty := TNone, stack := p.stack[..|p.stack| - 1], buf := [], cap := cap, b := b), ScanChar(s, c))
  {
    var q := p.(state := OK, ty := TNone, stack := p.stack[..|p.stack| - 1], buf := [], cap := cap, b := b);
    assert Top(q) == p.stack[|p.stack| - 2];
  }

  lemma EmptyObjectSafe(p: Parser, s: Scan, c: int, k: int)
    requires Ready(p, s, c, k) && Table(p.state, k) == EMPTY_OBJECT
    ensures var o := Perform(Added(p, c, k), EMPTY_OBJECT); o.Accepted? && Safe(o.p, ScanChar(s, c))
  {
    TableActs(p.state, k);
    ClassChars(c, k);
    TopMirrors(p, s.open);
    CloseMirrors(p.stack, s.open, p.b);
    ClosedSafe(p, s, c, Close(p.b).value, Grow(p.cap, |p.buf| + 2));
  }

  /** An opening bracket, up to the depth allowed. */
  lemma BeginSafe(p: Parser, s: Scan, c: int, k: int, e: Event, m: Mode, t: int)
    requires Ready(p, s, c, k) && (p.state == GO || ExpectsValue(p.state))
    requires (k == C_LSQRB && e == ArrayBegin && m == MArray && t == AR) || (k == C_LCURB && e == ObjectBegin && m == MKey && t == OB)
    ensures var o := AtBegin(Added(p, c, k), e, m, t); o == Rejected || (o.Accepted? && Safe(o.p, ScanChar(s, c)))
  {
    ClassChars(c, k);
    TakenOff(p, s, c, k);
    if |p.stack| - 1 != p.depth {
      OpenMirrors(p.stack, s.open, p.b.mystack, m, c, Frame(p.b.lastkey, if m == MArray then Arr([]) else Dict([])));
      var q := p.(stack := p.stack + [m]);
      assert Top(q) == m;
      assert KeysOnTop(q.stack) by {
        forall i | 0 <= i < |q.stack| - 1 ensures q.stack[i] != MKey {
          if i == |p.stack| - 1 { assert q.stack[i] == Top(p); } else { assert q.stack[i] == p.stack[i]; }
        }
      }
    }
  }

  lemma OpenMirrors(stack: seq<Mode>, open: seq<int>, fs: seq<Frame>, m: Mode, c: int, f: Frame)
    requires Mirrors(stack, open, fs) && Matches(m, c, f)
    ensures Mirrors(stack + [m], open + [c], fs + [f])
  {
    forall i | 0 <= i < |open + [c]| ensures Matches((stack + [m])[i + 1], (open + [c])[i], (fs + [f])[i]) {
      if i < |open| { assert Matches(stack[i + 1], open[i], fs[i]); }
    }
  }

  /** A comma or colon flips an object between key and value. */
  lemma FlipMirrors(stack: seq<Mode>, open: seq<int>, fs: seq<Frame>, m: Mode)
    requires Mirrors(stack, open, fs) && KeysOnTop(stack)
    requires stack[|stack| - 1] in {MKey, MObject} && m in {MKey, MObject}
    ensures Mirrors(stack[..|stack| - 1] + [m], open, fs) && KeysOnTop(stack[..|stack| - 1] + [m])
  {
    var n := |open|;
    var st := stack[..n] + [m];
    assert open != [];
    forall i | 0 <= i < n ensures Matches(st[i + 1], open[i], fs[i]) {
      assert Matches(stack[i + 1], open[i], fs[i]);
    }
  }

  lemma ColonSafe(p: Parser, s: Scan, c: int, k: int)
    requires Ready(p, s, c, k) && Table(p.state, k) == COLON
    ensures var o := Perform(Added(p, c, k), COLON); o.Accepted? && Safe(o.p, ScanChar(s, c))
  {
    TableActs(p.state, k);
    TakenOff(p, s, c, k);
    TopMirrors(p, s.open);
    FlipMirrors(p.stack, s.open, p.b.mystack, MObject);
    ScanSame(s, c, k);
  }

  lemma CommaSafe(p: Parser, s: Scan, c: int, k: int)
    requires Ready(p, s, c, k) && Table(p.state, k) == COMMA
    ensures var o := AtSeparator(Added(p, c, k)); o == Rejected || (o.Accepted? && Safe(o.p, ScanChar(s, c)))
  {
    TableActs(p.state, k);
    TakenOff(p, s, c, k);
    var q := p.(cap := Grow(p.cap, |p.buf| + 2));
    FlushSafe(q, s.open);
    if Top(p) == MObject { FlipMirrors(p.stack, s.open, Flush(q).p.b.mystack, MKey); }
    ScanSame(s, c, k);
  }

  lemma EndStringSafe(p: Parser, s: Scan, c: int, k: int)
    requires Safe(p, s) && 0 <= c && ClassOf(c) == k && k >= 0 && Table(p.state, k) == END_STRING
    ensures !p.escaped
    ensures var o := AtEndString(Added(p, c, k)); o.Accepted? && Safe(o.p, ScanChar(s, c))
  {
    TableActs(p.state, k);
    assert PopBack(Added(p, c, k)) == Accepted(p.(cap := Grow(p.cap, |p.buf| + 2)));
    FlushSafe(p.(cap := Grow(p.cap, |p.buf| + 2)), s.open);
    ScanSame(s, c, k);
  }

  // ----- Escapes

  lemma DecodeSafe(p: Parser)
    requires |p.buf| >= 6 && HexTail(p.buf, 4) && |p.buf| + 1 <= p.cap && (p.high == 0 || IsHigh(p.high))
    ensures var o := Decode(p);
            o == Rejected || (o.Accepted? && o.p == p.(buf := o.p.buf, high := o.p.high) && |o.p.buf| + 1 <= p.cap
                              && (o.p.high == 0 || IsHigh(o.p.high)))
  {
  }

  lemma UnicodeSafe(p: Parser, s: Scan, c: int, k: int)
    requires Safe(p, s) && 0 <= c && ClassOf(c) == k && k >= 0 && Table(p.state, k) == UC
    ensures !p.escaped
    ensures var o := Perform(Added(p, c, k), UC); o == Rejected || (o.Accepted? && Safe(o.p, ScanChar(s, c)))
  {
    TableActs(p.state, k);
    HexChar(c, k);
    HexPushed(p.buf, 3, c % 256);
    var q := Added(p, c, k);
    DecodeSafe(q);
    ScanSame(s, c, k);
    if Decode(q).Accepted? {
      DecodedControl(p, AtUnicode(q).p);
    }
  }

  lemma DecodedControl(p: Parser, r: Parser)
    requires Control(p) && p.state == U4 && (r.high == 0 || IsHigh(r.high)) && |r.buf| + 1 <= r.cap
    requires r == p.(cap := r.cap, buf := r.buf, high := r.high, state := if r.high != 0 then D1 else ST)
    ensures Control(r)
  {
  }

  /** After a backslash. */
  lemma EscapeSafe(p: Parser, s: Scan, c: int, k: int)
    requires Safe(p, s) && p.escaped && 0 <= c && ClassOf(c) == k && k >= 0
    ensures var o := Char(p, c); o == Rejected || (o.Accepted? && Safe(o.p, ScanChar(s, c)))
  {
    AddedEscaped(p, c, k);
    TableActs(p.state, k);
    ScanSame(s, c, k);
  }

  // ----- Every character

  lemma ActSafe(p: Parser, s: Scan, c: int, k: int)
    requires Safe(p, s) && !p.escaped && 0 <= c && ClassOf(c) == k && k >= 0
    ensures var o := Perform(Added(p, c, k), Table(p.state, k));
            if ClosesTooMuch(p, c) then o == PopsEmpty else o == Rejected || (o.Accepted? && Safe(o.p, ScanChar(s, c)))
  {
    var a := Table(p.state, k);
    TableActs(p.state, k);
    ClassChars(c, k);
    if a in {CB, COLON, COMMA, EMPTY_OBJECT, END_OBJECT, END_ARRAY, BEGIN_OBJECT, BEGIN_ARRAY} {
      PlainSafe(p, s, c, k);
    } else {
      QuietSafe(p, s, c, k);
    }
  }

  lemma QuietSafe(p: Parser, s: Scan, c: int, k: int)
    requires Safe(p, s) && !p.escaped && 0 <= c && ClassOf(c) == k && k >= 0
    requires Table(p.state, k) !in {CB, COLON, COMMA, EMPTY_OBJECT, END_OBJECT, END_ARRAY, BEGIN_OBJECT, BEGIN_ARRAY}
    ensures var o := Perform(Added(p, c, k), Table(p.state, k)); o == Rejected || (o.Accepted? && Safe(o.p, ScanChar(s, c)))
  {
    var a := Table(p.state, k);
    TableActs(p.state, k);
    if a >= 0 { Go(p, s, c, k); }
    else if a in {MX, ZX, IX, NU, FA, TR} { TokenSafe(p, s, c, k); }
    else if a in {EX, DE, DF, SB} { ExtendSafe(p, s, c, k); }
    else if a == UC { UnicodeSafe(p, s, c, k); }
    else if a == CE { UncommentSafe(p, s, c, k); }
    else if a == END_STRING { EndStringSafe(p, s, c, k); }
  }

  lemma PlainSafe(p: Parser, s: Scan, c: int, k: int)
    requires Ready(p, s, c, k)
    requires Table(p.state, k) in {CB, COLON, COMMA, EMPTY_OBJECT, END_OBJECT, END_ARRAY, BEGIN_OBJECT, BEGIN_ARRAY}
    ensures var o := Perform(Added(p, c, k), Table(p.state, k));
            if ClosesTooMuch(p, c) then o == PopsEmpty else o == Rejected || (o.Accepted? && Safe(o.p, ScanChar(s, c)))
  {
    var a := Table(p.state, k);
    TableActs(p.state, k);
    ClassChars(c, k);
    if a == CB { CommentSafe(p, s, c, k); }
    else if a == COLON { ColonSafe(p, s, c, k); }
    else if a == COMMA { CommaSafe(p, s, c, k); }
    else if a == EMPTY_OBJECT { EmptyObjectSafe(p, s, c, k); }
    else if a == END_OBJECT { EndSafe(p, s, c, k, ObjectEnd, MObject); }
    else if a == END_ARRAY { EndSafe(p, s, c, k, ArrayEnd, MArray); }
    else if a == BEGIN_OBJECT { BeginSafe(p, s, c, k, ObjectBegin, MKey, OB); }
    else { BeginSafe(p, s, c, k, ArrayBegin, MArray, AR); }
  }

  /** No assertion ever fails; the callback pops its empty stack exactly when a
      closing bracket follows a complete text; and an accepted character keeps
      the three stacks alike. */
  lemma CharSafe(p: Parser, s: Scan, c: int)
    requires Safe(p, s)
    ensures !Char(p, c).AssertFails?
    ensures Char(p, c) == PopsEmpty <==> ClosesTooMuch(p, c)
    ensures Char(p, c).Accepted? ==> Safe(Char(p, c).p, ScanChar(s, c))
  {
    if c >= 0 && ClassOf(c) >= 0 {
      if p.escaped {
        EscapeSafe(p, s, c, ClassOf(c));
      } else {
        AddedPlain(p, c, ClassOf(c));
        ActSafe(p, s, c, ClassOf(c));
      }
    }
  }

  lemma NewSafe(depth: nat)
    ensures Safe(NewParser(depth), Scan(Plain, []))
  {
  }

  /** Any text: as far as it is accepted, the stacks mirror its open brackets. */
  lemma {:induction false} TextSafe(p: Parser, s: Scan, t: seq<int>)
    requires Safe(p, s)
    ensures !Feed(p, t).AssertFails?
    ensures Feed(p, t).Accepted? ==> Safe(Feed(p, t).p, ScanText(s, t))
    decreases |t|
  {
    if t != [] {
      CharSafe(p, s, t[0]);
      if Char(p, t[0]).Accepted? { TextSafe(Char(p, t[0]).p, ScanChar(s, t[0]), t[1..]); }
    }
  }

  /** JSON_parser_done: a text is taken as a whole exactly if it ends between
      tokens with every bracket closed; the builder then has none open either. */
  lemma DoneIsBalanced(p: Parser, s: Scan)
    requires Safe(p, s)
    ensures Done(p) <==> (p.state == OK || p.state == GO) && s.open == []
    ensures Done(p) ==> p.b.mystack == [] && p.ty == TNone
  {
    TopMirrors(p, s.open);
  }
}
