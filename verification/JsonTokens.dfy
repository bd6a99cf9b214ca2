/** Nothing but well-formed numbers and words is delivered: on every text, as far
    as it is accepted, the buffer holds the beginning of one
    (src/lib/JSON_parser.c). */
module JsonTokens {
  import opened Basics
  import opened JsonTable
  import opened JsonTree
  import opened JsonParser
  import opened JsonSafe
  import opened JsonSteps
  import opened JsonValues
  import opened JsonDoc

  // ----- Numbers

  /** How much of a number has been read in a state. */
  predicate AtNumber(n: Number, s: int) {
    if s == MI then n.neg && n.whole == [] && n.frac.None? && n.exp.None?
    else if s == ZE || s == IT then ProperNumber(n) && !IsFloat(n) && WholeEnd(n) == s
    else if s == FX || s == FR then ProperNumber(n) && n.frac.Some? && n.exp.None? && FracEnd(n) == s
    else
      && n.exp.Some? && ProperNumber(n.(exp := None)) && (n.frac.Some? || n.whole[0] != 48)
      && (n.exp.value.mark == 101 || n.exp.value.mark == 69)
      && (if s == E1 then n.exp.value.sign == [] && n.exp.value.digits == []
          else if s == E2 then n.exp.value.sign in {[43], [45]} && n.exp.value.digits == []
          else n.exp.value.sign in {[], [43], [45]} && n.exp.value.digits != [] && AllDigits(n.exp.value.digits))
  }

  /** The number with one more character. */
  function Extended(n: Number, s: int, c: uint8): Number {
    if s == MI || s == ZE || s == IT then
      if c == 46 then n.(frac := Some([]))
      else if c == 101 || c == 69 then n.(exp := Some(Exponent(c, [], [])))
      else n.(whole := n.whole + [c])
    else if s == FX || s == FR then
      if c == 101 || c == 69 then n.(exp := Some(Exponent(c, [], [])))
      else if n.frac.Some? then n.(frac := Some(n.frac.value + [c])) else n
    else if n.exp.None? then n
    else if s == E1 && (c == 43 || c == 45) then n.(exp := Some(n.exp.value.(sign := [c])))
    else n.(exp := Some(n.exp.value.(digits := n.exp.value.digits + [c])))
  }

  /** Where the table leads within a number. */
  function NumberMove(s: int, k: int): int {
    var t := NumberRow(s, k);
    if t == DF then FX else if t == DE then E1 else t
  }

  /** What the table accepts within a number keeps it one. */
  lemma NumberGrows(n: Number, s: int, c: uint8)
    requires OfNumber(s) && AtNumber(n, s) && ClassOf(c) >= 0 && OfNumber(NumberMove(s, ClassOf(c)))
    ensures AtNumber(Extended(n, s, c), NumberMove(s, ClassOf(c))) && NumberText(Extended(n, s, c)) == NumberText(n) + [c]
  {
    NumberChars(s, c);
    if s == MI || s == ZE || s == IT {
      WholeGrows(n, s, c);
    } else if s == FX || s == FR {
      FracGrows(n, s, c);
    } else {
      ExpGrows(n, s, c);
    }
  }

  lemma NumberChars(s: int, c: uint8)
    requires OfNumber(s) && ClassOf(c) >= 0 && OfNumber(NumberMove(s, ClassOf(c)))
    ensures var t := NumberMove(s, ClassOf(c));
            && (t == ZE <==> s == MI && c == 48) && (t == IT ==> 48 <= c <= 57 && (s == MI ==> c != 48))
            && (t == FX ==> c == 46) && (t == E1 ==> c == 101 || c == 69) && (t == E2 ==> c == 43 || c == 45)
            && (t == FR || t == E3 ==> 48 <= c <= 57) && t != MI
            && (t == IT ==> s == MI || s == IT) && (t == FX ==> s == ZE || s == IT) && (t == FR ==> s == FX || s == FR)
            && (t == E1 ==> s == IT || s == FX || s == FR) && (t == E2 ==> s == E1) && (t == E3 ==> s == E1 || s == E2 || s == E3)
  {
  }

  lemma WholeGrows(n: Number, s: int, c: uint8)
    requires (s == MI || s == ZE || s == IT) && AtNumber(n, s) && ClassOf(c) >= 0 && OfNumber(NumberMove(s, ClassOf(c)))
    ensures AtNumber(Extended(n, s, c), NumberMove(s, ClassOf(c))) && NumberText(Extended(n, s, c)) == NumberText(n) + [c]
  {
    NumberChars(s, c);
  }

  lemma FracGrows(n: Number, s: int, c: uint8)
    requires (s == FX || s == FR) && AtNumber(n, s) && ClassOf(c) >= 0 && OfNumber(NumberMove(s, ClassOf(c)))
    ensures AtNumber(Extended(n, s, c), NumberMove(s, ClassOf(c))) && NumberText(Extended(n, s, c)) == NumberText(n) + [c]
  {
    NumberChars(s, c);
  }

  lemma ExpGrows(n: Number, s: int, c: uint8)
    requires (s == E1 || s == E2 || s == E3) && AtNumber(n, s) && ClassOf(c) >= 0 && OfNumber(NumberMove(s, ClassOf(c)))
    ensures AtNumber(Extended(n, s, c), NumberMove(s, ClassOf(c))) && NumberText(Extended(n, s, c)) == NumberText(n) + [c]
  {
    NumberChars(s, c);
    var e := n.exp.value;
    var m := Extended(n, s, c);
    var e' := m.exp.value;
    assert m == n.(exp := Some(e'));
    ExpTextGrows(e, e', c);
    assert WholeText(n) + FracText(n) + (ExpText(n) + [c]) == NumberText(n) + [c];
  }

  lemma ExpTextGrows(e: Exponent, e': Exponent, c: uint8)
    requires (e' == e.(sign := [c]) && e.sign == [] && e.digits == []) || e' == e.(digits := e.digits + [c])
    ensures [e'.mark] + (e'.sign + e'.digits) == [e.mark] + (e.sign + e.digits) + [c]
  {
  }

  // ----- Words

  /** The letters read in a state within a word. */
  function WordPart(s: int): Text {
    if s == T1 then [116] else if s == T2 then [116, 114] else if s == T3 then [116, 114, 117]
    else if s == F1 then [102] else if s == F2 then [102, 97] else if s == F3 then [102, 97, 108]
    else if s == F4 then [102, 97, 108, 115]
    else if s == N1 then [110] else if s == N2 then [110, 117] else [110, 117, 108]
  }

  function Word(ty: Type): Text { if ty == TTrue then TRUE_TEXT else if ty == TFalse then FALSE_TEXT else NULL_TEXT }

  lemma WordGrows(s: int, c: uint8)
    requires OfKeyword(s) && ClassOf(c) >= 0 && KeywordRow(s, ClassOf(c)) >= 0
    ensures WordPart(s) + [c] == if KeywordRow(s, ClassOf(c)) == OK then Word(TypeOf(s)) else WordPart(KeywordRow(s, ClassOf(c)))
    ensures KeywordRow(s, ClassOf(c)) == OK || OfKeyword(KeywordRow(s, ClassOf(c)))
  {
  }

  // ----- The invariant

  predicate AllWhite(w: Text) { forall i | 0 <= i < |w| :: IsWhite(w[i]) }

  /** A whole token, and white space after it. */
  ghost predicate Ended(t: Text, buf: Text) { exists w: Text :: AllWhite(w) && buf == t + w }

  ghost predicate EndedNumber(ty: Type, buf: Text) {
    exists n: Number :: ProperNumber(n) && (IsFloat(n) <==> ty == TFloat) && Ended(NumberText(n), buf)
  }

  ghost predicate InNumber(s: int, buf: Text) { exists n: Number :: AtNumber(n, s) && buf == NumberText(n) }

  /** What the buffer holds of a number or word. */
  ghost predicate TokenOK(p: Parser) {
    && (OfNumber(p.state) ==> InNumber(p.state, p.buf))
    && (OfKeyword(p.state) ==> p.buf == WordPart(p.state))
    && (p.state == OK && (p.ty == TInteger || p.ty == TFloat) ==> EndedNumber(p.ty, p.buf))
    && (p.state == OK && p.ty in {TTrue, TFalse, TNull} ==> Ended(Word(p.ty), p.buf))
  }

  lemma EndsNow(t: Text)
    ensures Ended(t, t)
  {
    assert t == t + [];
  }

  lemma EndsLater(t: Text, buf: Text, c: uint8)
    requires Ended(t, buf) && IsWhite(c)
    ensures Ended(t, buf + [c])
  {
    var w: Text :| AllWhite(w) && buf == t + w;
    assert AllWhite(w + [c]) && buf + [c] == t + (w + [c]);
  }

  /** Where a number may end it is complete. */
  lemma NumberEnds(s: int, ty: Type, buf: Text)
    requires OfNumber(s) && EndsValue(s) && ty == TypeOf(s) && InNumber(s, buf)
    ensures EndedNumber(ty, buf)
  {
    var n: Number :| AtNumber(n, s) && buf == NumberText(n);
    EndsNow(NumberText(n));
  }

  lemma NumberEndsLater(ty: Type, buf: Text, c: uint8)
    requires EndedNumber(ty, buf) && IsWhite(c)
    ensures EndedNumber(ty, buf + [c])
  {
    var n: Number :| ProperNumber(n) && (IsFloat(n) <==> ty == TFloat) && Ended(NumberText(n), buf);
    EndsLater(NumberText(n), buf, c);
  }

  /** What is delivered for a number is the value of a well-formed one. */
  lemma DeliversNumber(p: Parser) returns (n: Number)
    requires TokenOK(p) && EndsValue(p.state) && (p.ty == TInteger || p.ty == TFloat)
    requires OfNumber(p.state) ==> p.ty == TypeOf(p.state)
    ensures ProperNumber(n) && Denotes(p.ty, p.buf) == NumValue(n)
  {
    if p.state != OK { NumberEnds(p.state, p.ty, p.buf); }
    n :| ProperNumber(n) && (IsFloat(n) <==> p.ty == TFloat) && Ended(NumberText(n), p.buf);
    var w: Text :| AllWhite(w) && p.buf == NumberText(n) + w;
    NumberNotWhite(n);
    DenotesAnyway(p.ty, NumberText(n), w);
  }

  lemma {:induction false} DenotesAnyway(ty: Type, t: Text, w: Text)
    requires AllWhite(w) && ty != TString
    ensures Denotes(ty, t + w) == Denotes(ty, t)
    decreases |w|
  {
    if w == [] {
      assert t + w == t;
    } else {
      var last := |w| - 1;
      DenotesAnyway(ty, t, w[..last]);
      DenotesSame(ty, t + w[..last], w[last]);
      assert t + w[..last] + [w[last]] == t + w;
    }
  }

  // ----- Every accepted character keeps it

  lemma AtStart(c: uint8)
    requires c == 45 || 48 <= c <= 57
    ensures InNumber(if c == 45 then MI else if c == 48 then ZE else IT, [c])
  {
    var n := if c == 45 then Number(true, [], None, None) else Number(false, [c], None, None);
    assert AtNumber(n, if c == 45 then MI else if c == 48 then ZE else IT) && NumberText(n) == [c];
  }

  /** Not within a number or word, and nothing of one pending. */
  predicate NoToken(p: Parser) { !OfNumber(p.state) && !OfKeyword(p.state) && (p.state == OK ==> p.ty == TNone) }

  lemma NoTokenOK(p: Parser)
    requires NoToken(p)
    ensures TokenOK(p)
  {
  }

  /** The class tells the characters apart where a token begins or ends. */
  lemma TokenChars(c: uint8, k: int)
    requires ClassOf(c) == k && k >= 0
    ensures (k == C_MINUS ==> c == 45) && (k == C_ZERO ==> c == 48) && (k == C_DIGIT ==> 49 <= c <= 57)
    ensures (k == C_SPACE || k == C_WHITE ==> IsWhite(c))
    ensures (k == C_LOW_F ==> c == 102) && (k == C_LOW_N ==> c == 110) && (k == C_LOW_T ==> c == 116)
  {
  }

  lemma NumberRowIs(s: int, k: int)
    requires OfNumber(s)
    ensures var t := NumberRow(s, k);
            && (t >= 0 ==> OfNumber(t) || (t == OK && EndsValue(s) && (k == C_SPACE || k == C_WHITE)))
            && (t < 0 ==> t in {BAD, DE, DF, END_OBJECT, END_ARRAY, COMMA, CB})
  {
  }

  /** A character within a number that leaves the parser in it. */
  lemma MoveInNumber(s: int, buf: Text, c: uint8)
    requires OfNumber(s) && InNumber(s, buf) && ClassOf(c) >= 0 && OfNumber(NumberMove(s, ClassOf(c)))
    ensures InNumber(NumberMove(s, ClassOf(c)), buf + [c])
  {
    var n: Number :| AtNumber(n, s) && buf == NumberText(n);
    NumberGrows(n, s, c);
  }

  /** White space after a number. */
  lemma WhiteEndsNumber(s: int, buf: Text, c: uint8)
    requires OfNumber(s) && EndsValue(s) && InNumber(s, buf) && IsWhite(c)
    ensures EndedNumber(TypeOf(s), buf + [c])
  {
    NumberEnds(s, TypeOf(s), buf);
    NumberEndsLater(TypeOf(s), buf, c);
  }

  lemma NumberMoveKeeps(p: Parser, c: uint8, k: int)
    requires TokenOK(p) && OfNumber(p.state) && ClassOf(c) == k && k >= 0 && NumberRow(p.state, k) >= 0
    requires p.ty == TypeOf(p.state)
    ensures TokenOK(p.(state := NumberRow(p.state, k), buf := p.buf + [c]))
  {
    NumberRowIs(p.state, k);
    if OfNumber(NumberRow(p.state, k)) {
      MoveInNumber(p.state, p.buf, c);
    } else {
      TokenChars(c, k);
      WhiteEndsNumber(p.state, p.buf, c);
    }
  }

  lemma WordMoveKeeps(p: Parser, c: uint8, k: int)
    requires TokenOK(p) && OfKeyword(p.state) && ClassOf(c) == k && k >= 0 && KeywordRow(p.state, k) >= 0
    requires p.ty == TypeOf(p.state)
    ensures TokenOK(p.(state := KeywordRow(p.state, k), buf := p.buf + [c]))
  {
    WordGrows(p.state, c);
    EndsNow(Word(p.ty));
  }

  lemma EndMoveKeeps(p: Parser, c: uint8)
    requires TokenOK(p) && p.state == OK && p.ty !in {TNone, TString} && IsWhite(c)
    ensures TokenOK(p.(buf := p.buf + [c]))
  {
    if p.ty == TInteger || p.ty == TFloat {
      NumberEndsLater(p.ty, p.buf, c);
    } else {
      EndsLater(Word(p.ty), p.buf, c);
    }
  }

  /** Capacity does not matter. */
  lemma CapAside(p: Parser, cap: nat)
    requires TokenOK(p)
    ensures TokenOK(p.(cap := cap))
  {
  }

  /** The other states move among themselves. */
  lemma OtherRows(s: int, k: int)
    requires GO <= s <= D2 && !OfNumber(s) && !OfKeyword(s) && Table(s, k) >= 0
    ensures !OfNumber(Table(s, k)) && !OfKeyword(Table(s, k)) && (Table(s, k) == OK <==> s == OK)
    ensures s == OK ==> k == C_SPACE || k == C_WHITE
  {
  }

  /** Within a token every character goes into the buffer. */
  lemma AddedIs(p: Parser, c: uint8, k: int)
    requires Control(p) && p.ty != TNone
    ensures Added(p, c, k) == p.(cap := Cap(p), buf := p.buf + [c])
  {
  }

  lemma TokenMoveKeeps(p: Parser, c: uint8, k: int)
    requires Control(p) && TokenOK(p) && p.ty != TNone && ClassOf(c) == k && k >= 0 && Table(p.state, k) >= 0
    requires OfNumber(p.state) || OfKeyword(p.state) || p.state == OK
    ensures TokenOK(p.(buf := p.buf + [c], state := Table(p.state, k)))
  {
    if OfNumber(p.state) {
      NumberMoveKeeps(p, c, k);
    } else if OfKeyword(p.state) {
      WordMoveKeeps(p, c, k);
    } else {
      OtherRows(OK, k);
      TokenChars(c, k);
      EndMoveKeeps(p, c);
    }
  }

  lemma MoveKeeps(p: Parser, c: uint8, k: int)
    requires Control(p) && TokenOK(p) && ClassOf(c) == k && k >= 0 && Table(p.state, k) >= 0
    ensures TokenOK(Added(p, c, k).(state := Table(p.state, k)))
  {
    if p.ty != TNone && (OfNumber(p.state) || OfKeyword(p.state) || p.state == OK) {
      AddedIs(p, c, k);
      TokenMoveKeeps(p, c, k);
      CapAside(p.(buf := p.buf + [c], state := Table(p.state, k)), Cap(p));
    } else {
      OtherRows(p.state, k);
      NoTokenOK(Added(p, c, k).(state := Table(p.state, k)));
    }
  }

  // ----- Actions

  lemma StructureEnds(q: Parser, cell: int)
    requires q.state == OB ==> q.ty == TNone
    requires cell == EMPTY_OBJECT ==> q.state == OB
    ensures StructureAction(q, cell).Accepted? ==> NoToken(StructureAction(q, cell).p)
  {
    if cell == EMPTY_OBJECT { EmptyEnds(q); }
    else if cell == END_OBJECT { CloseEnds(q, ObjectEnd, MObject); }
    else if cell == END_ARRAY { CloseEnds(q, ArrayEnd, MArray); }
    else if cell == BEGIN_OBJECT { OpenEnds(q, ObjectBegin, MKey, OB); }
    else if cell == BEGIN_ARRAY { OpenEnds(q, ArrayBegin, MArray, AR); }
    else if cell == END_STRING { StringEnds(q); }
    else if cell == COMMA { CommaEnds(q); }
    else if cell == COLON { ColonEnds(q); }
  }

  lemma EmptyEnds(q: Parser)
    ensures AtEmptyObject(q).Accepted? ==> AtEmptyObject(q).p.state == OK && AtEmptyObject(q).p.ty == q.ty
  {
  }

  lemma CloseEnds(q: Parser, e: Event, m: Mode)
    ensures AtEnd(q, e, m).Accepted? ==> AtEnd(q, e, m).p.state == OK && AtEnd(q, e, m).p.ty == TNone
  {
  }

  lemma OpenEnds(q: Parser, e: Event, m: Mode, t: int)
    ensures AtBegin(q, e, m, t).Accepted? ==> AtBegin(q, e, m, t).p.state == t
  {
  }

  lemma StringEnds(q: Parser)
    ensures AtEndString(q).Accepted? ==> AtEndString(q).p.state in {CO, OK} && AtEndString(q).p.ty == TNone
  {
  }

  lemma CommaEnds(q: Parser)
    ensures AtSeparator(q).Accepted? ==> AtSeparator(q).p.state in {KE, VA}
  {
  }

  lemma ColonEnds(q: Parser)
    ensures AtColon(q).Accepted? ==> AtColon(q).p.state == VA
  {
  }

  /** Where a token begins. */
  lemma BeginKeeps(q: Parser, c: uint8, cell: int)
    requires q.buf == [c]
    requires cell == MX ==> c == 45
    requires cell == ZX ==> c == 48
    requires cell == IX ==> 49 <= c <= 57
    requires (cell == FA ==> c == 102) && (cell == NU ==> c == 110) && (cell == TR ==> c == 116)
    requires cell in {MX, ZX, IX, FA, NU, TR}
    ensures TokenAction(q, cell).Accepted? ==> TokenOK(TokenAction(q, cell).p)
  {
    if cell == MX || cell == ZX || cell == IX { AtStart(c); }
  }

  lemma FloatKeeps(q: Parser, cell: int)
    requires cell in {DE, DF} && InNumber(if cell == DF then FX else E1, q.buf)
    ensures TokenAction(q, cell).Accepted? ==> TokenOK(TokenAction(q, cell).p)
  {
  }

  /** The actions on strings, escapes and comments. */
  lemma TextKeeps(q: Parser, cell: int)
    requires cell in {EX, SB, UC, CE, CB} && (cell == CE ==> OfStructure(q.before))
    ensures TokenAction(q, cell).Accepted? ==> NoToken(TokenAction(q, cell).p)
  {
    if cell == UC { UnicodeEnds(q); } else if cell == CB { CommentEnds(q); }
  }

  lemma UnicodeEnds(q: Parser)
    ensures AtUnicode(q).Accepted? ==> AtUnicode(q).p.state in {D1, ST}
  {
  }

  lemma CommentEnds(q: Parser)
    ensures AtCB(q).Accepted? ==> AtCB(q).p.state == C1
  {
  }

  /** On which characters tokens begin. */
  lemma BeginsAt(s: int, k: int)
    requires GO <= s <= D2 && Table(s, k) in {MX, ZX, IX, FA, NU, TR}
    ensures ExpectsValue(s)
    ensures Table(s, k) == (if k == C_MINUS then MX else if k == C_ZERO then ZX else if k == C_DIGIT then IX
                            else if k == C_LOW_F then FA else if k == C_LOW_N then NU else TR)
    ensures k in {C_MINUS, C_ZERO, C_DIGIT, C_LOW_F, C_LOW_N, C_LOW_T}
  {
  }

  lemma ActionsAt(s: int, k: int)
    requires GO <= s <= D2 && Table(s, k) < 0
    ensures Table(s, k) in {BAD, MX, ZX, IX, FA, NU, TR, DE, DF, EX, SB, UC, CE, CB} || EMPTY_OBJECT <= Table(s, k) <= COLON
    ensures Table(s, k) in {DE, DF} ==> OfNumber(s)
    ensures (Table(s, k) == CE ==> OfComment(s)) && (Table(s, k) == EMPTY_OBJECT ==> s == OB)
  {
  }

  lemma TokenActKeeps(p: Parser, c: uint8, k: int)
    requires Control(p) && TokenOK(p) && ClassOf(c) == k && k >= 0 && !p.escaped && Table(p.state, k) <= CB
    ensures var q := Added(p, c, k);
            TokenAction(q, Table(p.state, k)).Accepted? ==> TokenOK(TokenAction(q, Table(p.state, k)).p)
  {
    var cell, q := Table(p.state, k), Added(p, c, k);
    ActionsAt(p.state, k);
    if cell in {MX, ZX, IX, FA, NU, TR} {
      BeginsAt(p.state, k);
      TokenChars(c, k);
      BeginKeeps(q, c, cell);
    } else if cell in {DE, DF} {
      AddedIs(p, c, k);
      MoveInNumber(p.state, p.buf, c);
      FloatKeeps(q, cell);
    } else {
      TextKeeps(q, cell);
    }
  }

  /** Every accepted character keeps the token well-formed. */
  lemma CharTokens(p: Parser, s: Scan, c: uint8)
    requires Safe(p, s) && TokenOK(p) && Char(p, c).Accepted?
    ensures TokenOK(Char(p, c).p)
  {
    var k := ClassOf(c);
    if p.escaped {
      EscapeKeeps(p, c);
    } else {
      CharIs(p, c);
      if Table(p.state, k) >= 0 {
        MoveKeeps(p, c, k);
      } else if Table(p.state, k) <= CB {
        TokenActKeeps(p, c, k);
      } else {
        ActionsAt(p.state, k);
        StructureEnds(Added(p, c, k), Table(p.state, k));
      }
    }
  }

  lemma EscapeKeeps(p: Parser, c: uint8)
    requires Control(p) && p.escaped && Char(p, c).Accepted?
    ensures TokenOK(Char(p, c).p)
  {
    AddedEscaped(p, c, ClassOf(c));
    OtherRows(ES, ClassOf(c));
  }

  /** On any text, as far as it is accepted, only beginnings of numbers and words
      are in the buffer. */
  lemma {:induction false} TextTokens(p: Parser, s: Scan, t: Text)
    requires Safe(p, s) && TokenOK(p)
    ensures Feed(p, t).Accepted? ==> TokenOK(Feed(p, t).p)
    decreases |t|
  {
    if t != [] && Char(p, t[0]).Accepted? {
      CharSafe(p, s, t[0]);
      CharTokens(p, s, t[0]);
      TextTokens(Char(p, t[0]).p, ScanChar(s, t[0]), t[1..]);
    }
  }
}
