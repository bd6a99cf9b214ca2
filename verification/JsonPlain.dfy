/** The printer escapes nothing (src/lib/json_object.cc): of the arrays with one
    string, exactly those with plain text are read back as they were. */
module JsonPlain {
  import opened Basics
  import opened JsonTable
  import opened JsonTree
  import opened JsonParser
  import opened JsonSafe
  import opened JsonSteps
  import opened JsonRoundTrip

  // ----- Once a container has a first item, that item stays

  ghost predicate StartsWith(v: Json, x: Json) { v.Arr? && v.items != [] && v.items[0] == x }

  /** The outermost container, open or finished, is an array that starts with `x`. */
  ghost predicate Keeps(b: Builder, x: Json) {
    if b.mystack == [] then b.root.Some? && StartsWith(b.root.value, x) else StartsWith(b.mystack[0].node, x)
  }

  lemma PutKeeps(b: Builder, k: Text, v: Json, x: Json)
    requires b.mystack != [] && StartsWith(b.mystack[0].node, x)
    ensures Keeps(Put(b, k, v), x)
  {
    var top := |b.mystack| - 1;
    assert Put(b, k, v).mystack[0].node == if top == 0 then Attach(b.mystack[0].node, k, v) else b.mystack[0].node;
  }

  lemma CloseKeeps(b: Builder, x: Json)
    requires Keeps(b, x) && b.mystack != []
    ensures Keeps(Close(b).value, x)
  {
    var top := |b.mystack| - 1;
    var c := b.(mystack := b.mystack[..top]);
    if top > 0 {
      assert c.mystack[0] == b.mystack[0];
      PutKeeps(c, b.mystack[top].key, b.mystack[top].node, x);
    }
  }

  lemma CbKeeps(b: Builder, e: Event, x: Json)
    requires Keeps(b, x) && b.mystack != []
    ensures Cb(b, e).Some? ==> Keeps(Cb(b, e).value, x)
  {
    if e.Value? { PutKeeps(b, b.lastkey, e.v, x); } else if e.ArrayEnd? || e.ObjectEnd? { CloseKeeps(b, x); }
  }

  lemma FlushKeeps(p: Parser, x: Json)
    requires Keeps(p.b, x) && (p.ty != TNone ==> p.b.mystack != [])
    ensures Flush(p).Accepted? ==> Keeps(Flush(p).p.b, x)
  {
    if p.ty != TNone { CbKeeps(p.b, Value(Denotes(p.ty, p.buf)), x); }
  }

  /** A bracket closes the top container once the pending value is delivered. */
  lemma EndCloses(p: Parser, e: Event, m: Mode)
    requires e.ArrayEnd? || e.ObjectEnd?
    ensures AtEnd(p, e, m).Accepted? ==>
              && p.buf != [] && Flush(PopBack(p).p).Accepted?
              && Flush(PopBack(p).p).p.b.mystack != []
              && AtEnd(p, e, m).p.b == Close(Flush(PopBack(p).p).p.b).value && AtEnd(p, e, m).p.state == OK
  {
  }

  lemma EndKeeps(p: Parser, e: Event, m: Mode, x: Json)
    requires Keeps(p.b, x) && (p.b.mystack == [] ==> p.ty == TNone) && (e.ArrayEnd? || e.ObjectEnd?)
    ensures AtEnd(p, e, m).Accepted? ==> Keeps(AtEnd(p, e, m).p.b, x) && AtEnd(p, e, m).p.state == OK
  {
    EndCloses(p, e, m);
    if AtEnd(p, e, m).Accepted? {
      FlushKeeps(PopBack(p).p, x);
      CloseKeeps(Flush(PopBack(p).p).p.b, x);
    }
  }

  lemma BeginKeeps(p: Parser, e: Event, m: Mode, t: int, x: Json)
    requires Keeps(p.b, x) && p.b.mystack != [] && (e.ArrayBegin? || e.ObjectBegin?)
    ensures AtBegin(p, e, m, t).Accepted? ==> Keeps(AtBegin(p, e, m, t).p.b, x) && AtBegin(p, e, m, t).p.state == t
  {
  }

  lemma EndStringKeeps(p: Parser, x: Json)
    requires Keeps(p.b, x) && (p.b.mystack == [] ==> p.ty == TNone)
    ensures AtEndString(p).Accepted? ==> Keeps(AtEndString(p).p.b, x) && AtEndString(p).p.state in {CO, OK}
  {
    if p.buf != [] { FlushKeeps(PopBack(p).p, x); }
  }

  lemma SeparatorKeeps(p: Parser, x: Json)
    requires Keeps(p.b, x) && (p.b.mystack == [] ==> p.ty == TNone)
    ensures AtSeparator(p).Accepted? ==> Keeps(AtSeparator(p).p.b, x) && AtSeparator(p).p.state in {KE, VA}
  {
    if p.buf != [] { FlushKeeps(PopBack(p).p, x); }
  }

  lemma EmptyObjectKeeps(p: Parser, x: Json)
    requires Keeps(p.b, x)
    ensures AtEmptyObject(p).Accepted? ==> Keeps(AtEmptyObject(p).p.b, x) && AtEmptyObject(p).p.state == OK
  {
    if p.b.mystack != [] { CloseKeeps(p.b, x); }
  }

  lemma ColonKeeps(p: Parser)
    ensures AtColon(p).Accepted? ==> AtColon(p).p.b == p.b && AtColon(p).p.state == VA
  {
  }

  /** Not before the first bracket, nor in a comment there. */
  predicate NotFresh(p: Parser) { p.state != GO && (OfComment(p.state) ==> p.before != GO) }

  lemma StructureKeeps(p: Parser, cell: int, x: Json)
    requires Keeps(p.b, x) && (p.b.mystack == [] ==> p.ty == TNone && cell !in {BEGIN_ARRAY, BEGIN_OBJECT})
    ensures StructureAction(p, cell).Accepted? ==>
              Keeps(StructureAction(p, cell).p.b, x) && NotFresh(StructureAction(p, cell).p)
  {
    if cell == EMPTY_OBJECT { EmptyObjectKeeps(p, x); }
    else if cell == END_OBJECT { EndKeeps(p, ObjectEnd, MObject, x); }
    else if cell == END_ARRAY { EndKeeps(p, ArrayEnd, MArray, x); }
    else if cell == BEGIN_OBJECT { BeginKeeps(p, ObjectBegin, MKey, OB, x); }
    else if cell == BEGIN_ARRAY { BeginKeeps(p, ArrayBegin, MArray, AR, x); }
    else if cell == END_STRING { EndStringKeeps(p, x); }
    else if cell == COMMA { SeparatorKeeps(p, x); }
    else if cell == COLON { ColonKeeps(p); }
  }

  lemma UnicodeKeeps(p: Parser)
    ensures AtUnicode(p).Accepted? ==> AtUnicode(p).p.b == p.b && AtUnicode(p).p.state != GO
  {
  }

  lemma CommentKeeps(p: Parser, x: Json)
    requires Keeps(p.b, x) && (p.b.mystack == [] ==> p.ty == TNone) && p.state != GO
    ensures AtCB(p).Accepted? ==> Keeps(AtCB(p).p.b, x) && NotFresh(AtCB(p).p)
  {
    if p.buf != [] { FlushKeeps(PopBack(p).p, x); }
  }

  lemma TokenKeeps(p: Parser, cell: int, x: Json)
    requires Keeps(p.b, x) && (p.b.mystack == [] ==> p.ty == TNone) && NotFresh(p)
    requires cell == CE ==> OfComment(p.state)
    ensures TokenAction(p, cell).Accepted? ==> Keeps(TokenAction(p, cell).p.b, x) && NotFresh(TokenAction(p, cell).p)
  {
    if cell == UC { UnicodeKeeps(p); } else if cell == CB { CommentKeeps(p, x); }
  }

  /** Which actions the table gives outside the first state. */
  lemma TableOn(s: int, k: int)
    requires GO < s <= D2
    ensures Table(s, k) != GO && (Table(s, k) == CE ==> OfComment(s)) && (OfComment(s) ==> Table(s, k) == CE || Table(s, k) >= BAD)
    ensures s == OK ==> Table(s, k) !in {BEGIN_ARRAY, BEGIN_OBJECT}
    ensures OfComment(Table(s, k)) ==> OfComment(s)
  {
  }

  lemma ActKeeps(p: Parser, cell: int, x: Json)
    requires Keeps(p.b, x) && NotFresh(p) && cell < 0 && (cell == CE ==> OfComment(p.state))
    requires p.b.mystack == [] ==> p.ty == TNone && cell !in {BEGIN_ARRAY, BEGIN_OBJECT}
    ensures Perform(p, cell).Accepted? ==> Keeps(Perform(p, cell).p.b, x) && NotFresh(Perform(p, cell).p)
  {
    if cell <= CB {
      TokenKeeps(p, cell, x);
    } else {
      StructureKeeps(p, cell, x);
    }
  }

  /** Adding the character touches the buffer only. */
  lemma AddedSame(p: Parser, c: int, k: int)
    ensures var o := AddChar(p, c, k);
            o.Accepted? ==> o.p.b == p.b && o.p.state == p.state && o.p.before == p.before && o.p.ty == p.ty && o.p.stack == p.stack
  {
  }

  lemma CharKeeps(p: Parser, s: Scan, c: int, x: Json)
    requires Safe(p, s) && Keeps(p.b, x) && NotFresh(p)
    ensures Char(p, c).Accepted? ==> Keeps(Char(p, c).p.b, x) && NotFresh(Char(p, c).p)
  {
    if c >= 0 && ClassOf(c) >= 0 && AddChar(p, c, ClassOf(c)).Accepted? {
      AddedSame(p, c, ClassOf(c));
      TableOn(p.state, ClassOf(c));
      var q := AddChar(p, c, ClassOf(c)).p;
      if Table(q.state, ClassOf(c)) < 0 { ActKeeps(q, Table(q.state, ClassOf(c)), x); }
    }
  }

  lemma {:induction false} FeedKeeps(p: Parser, s: Scan, t: seq<int>, x: Json)
    requires Safe(p, s) && Keeps(p.b, x) && NotFresh(p)
    ensures Feed(p, t).Accepted? ==> Keeps(Feed(p, t).p.b, x)
    decreases |t|
  {
    if t != [] && Char(p, t[0]).Accepted? {
      CharKeeps(p, s, t[0], x);
      CharSafe(p, s, t[0]);
      FeedKeeps(Char(p, t[0]).p, ScanChar(s, t[0]), t[1..], x);
    }
  }

  // ----- Reading a string with escapes

  /** In a string in which an escape has begun, `k` characters on: the buffer is
      shorter than what was read, or an escape is not complete. */
  predicate Escaping(p: Parser, k: nat) {
    OfString(p.state) && |p.buf| + (if p.state == ST then 1 else 0) <= k
  }

  /** A character that does not end the string. */
  ghost predicate GoesOn(p: Parser, q: Parser, k: nat) {
    Escaping(q, k + 1) && q.b == p.b && q.stack == p.stack
  }

  lemma ShortEscapeOn(p: Parser, c: int, k: nat)
    requires Control(p) && p.state == ES && Escaping(p, k) && Char(p, c).Accepted?
    ensures GoesOn(p, Char(p, c).p, k)
  {
    AddedEscaped(p, c, ClassOf(c));
  }

  lemma UnicodeOn(p: Parser, c: int, k: nat)
    requires Control(p) && U1 <= p.state <= U4 && Escaping(p, k) && Char(p, c).Accepted?
    ensures GoesOn(p, Char(p, c).p, k)
  {
    CharIs(p, c);
    if p.state == U4 {
      var q := Added(p, c, ClassOf(c));
      DecodeShrinks(q);
    }
  }

  lemma DecodeShrinks(p: Parser)
    ensures Decode(p).Accepted? ==>
              Decode(p).p == p.(buf := Decode(p).p.buf, high := Decode(p).p.high) && |Decode(p).p.buf| + 2 <= |p.buf|
  {
  }

  lemma PairOn(p: Parser, c: int, k: nat)
    requires Control(p) && (p.state == D1 || p.state == D2) && Escaping(p, k) && Char(p, c).Accepted?
    ensures GoesOn(p, Char(p, c).p, k)
  {
    CharIs(p, c);
  }

  lemma ControlRefused(p: Parser, c: int)
    requires Control(p) && p.state == ST && c < 32
    ensures !Char(p, c).Accepted?
  {
    if c >= 0 && ClassOf(c) >= 0 { CharIs(p, c); }
  }

  lemma BackslashOn(p: Parser)
    requires Control(p) && p.state == ST
    ensures var o := Char(p, 92);
            o.Accepted? && o.p.state == ES && o.p.b == p.b && o.p.stack == p.stack && |o.p.buf| == |p.buf| + 1
  {
    CharIs(p, 92);
  }

  lemma PlainOn(p: Parser, c: int)
    requires Control(p) && p.state == ST && PlainChar(c)
    ensures Char(p, c) == Accepted(p.(cap := Cap(p), buf := p.buf + [c]))
  {
    TextStep(p, c);
  }

  /** A character of a string in which an escape has begun. */
  lemma EscapingOn(p: Parser, c: int, k: nat)
    requires Control(p) && Escaping(p, k) && c < 256 && !(p.state == ST && c == 34) && Char(p, c).Accepted?
    ensures GoesOn(p, Char(p, c).p, k)
  {
    if p.state == ST {
      if c == 92 { BackslashOn(p); } else if c < 32 { ControlRefused(p, c); } else { PlainOn(p, c); }
    } else if p.state == ES {
      ShortEscapeOn(p, c, k);
    } else if U1 <= p.state <= U4 {
      UnicodeOn(p, c, k);
    } else {
      PairOn(p, c, k);
    }
  }

  // ----- An array with one string

  ghost predicate ReadsBack(o: Outcome, s: Text) {
    o.Accepted? && Done(o.p) && o.p.b.root == Some(Arr([Str(s)]))
  }

  /** Reading the first item of the outermost array. */
  ghost predicate AtFirst(p: Parser, sc: Scan) {
    Safe(p, sc) && Top(p) == MArray && |p.b.mystack| == 1 && p.b.mystack[0].node == Arr([])
  }

  lemma {:induction false} CStringShorter(s: Text)
    ensures |CString(s)| <= |s|
  {
    if s != [] && s[0] != 0 { CStringShorter(s[1..]); }
  }

  /** Whatever follows, a string that ends too early is the first item. */
  lemma EndsShort(p: Parser, sc: Scan, s: Text, t: seq<int>)
    requires AtFirst(p, sc) && p.state == ST && |p.buf| < |s| && t != [] && t[0] == 34
    ensures !ReadsBack(Feed(p, t), s)
  {
    var d := CString(p.buf);
    CStringShorter(p.buf);
    StringStep(p);
    var q := p.(cap := Cap(p), ty := TNone, state := OK, buf := [], b := Put(p.b, p.b.lastkey, Str(d)));
    assert Steps(p, 34, q) && Char(p, t[0]) == Accepted(q);
    CharSafe(p, sc, 34);
    assert q.b.mystack[0].node == Arr([] + [Str(d)]);
    FeedKeeps(q, ScanChar(sc, 34), t[1..], Str(d));
    TextSafe(p, sc, t);
    var o := Feed(p, t);
    if o.Accepted? && Done(o.p) {
      DoneIsBalanced(o.p, ScanText(sc, t));
      assert o.p.b.root.value.items[0] == Str(d) && d != s;
    }
  }

  /** Once an escape has begun, what is read is shorter than its text. */
  lemma {:induction false} EscapedComesShort(p: Parser, sc: Scan, s: Text, k: nat)
    requires AtFirst(p, sc) && Escaping(p, k) && k <= |s| + 2
    ensures !ReadsBack(Feed(p, (s + [34, 93])[k..]), s)
    decreases |s| + 2 - k
  {
    var t := (s + [34, 93])[k..];
    if t != [] && Char(p, t[0]).Accepted? {
      if p.state == ST && t[0] == 34 {
        EndsShort(p, sc, s, t);
      } else {
        EscapingOn(p, t[0], k);
        CharSafe(p, sc, t[0]);
        assert t[1..] == (s + [34, 93])[k + 1..];
        EscapedComesShort(Char(p, t[0]).p, ScanChar(sc, t[0]), s, k + 1);
      }
    }
  }

  lemma {:induction false} UnplainComesShort(p: Parser, sc: Scan, s: Text, k: nat)
    requires AtFirst(p, sc) && p.state == ST && k <= |s| && p.buf == s[..k] && PlainText(s[..k]) && !PlainText(s)
    ensures !ReadsBack(Feed(p, (s + [34, 93])[k..]), s)
    decreases |s| - k
  {
    assert s[..|s|] == s;
    var t := (s + [34, 93])[k..];
    var c := s[k];
    assert t[0] == c && t[1..] == (s + [34, 93])[k + 1..] && s[..k + 1] == s[..k] + [c];
    if c == 34 {
      EndsShort(p, sc, s, t);
    } else if c == 92 {
      BackslashOn(p);
      CharSafe(p, sc, c);
      EscapedComesShort(Char(p, c).p, ScanChar(sc, c), s, k + 1);
    } else if c < 32 {
      ControlRefused(p, c);
    } else {
      PlainOn(p, c);
      CharSafe(p, sc, c);
      UnplainComesShort(Char(p, c).p, ScanChar(sc, c), s, k + 1);
    }
  }

  lemma OneStringText(s: Text)
    ensures Print(Arr([Str(s)])) == [91] + ([34] + (s + [34, 93]))
  {
    var vs := [Str(s)];
    ArrayText(vs);
    assert JoinItems(vs) == Quoted(s);
  }

  /** The bracket and the quote. */
  lemma FirstOpened(depth: nat) returns (p: Parser, q: Parser, sc: Scan)
    requires depth > 0
    ensures Char(NewParser(depth), 91) == Accepted(p) && Char(p, 34) == Accepted(q)
    ensures AtFirst(q, sc) && q.state == ST && q.buf == []
  {
    var n := NewParser(depth);
    NewSafe(depth);
    OpenArrayStep(n);
    p := n.(cap := Cap(n), stack := n.stack + [MArray], state := AR, b := Cb(n.b, ArrayBegin).value);
    assert Steps(n, 91, p) && Char(n, 91) == Accepted(p);
    CharSafe(n, Scan(Plain, []), 91);
    QuoteStep(p);
    q := p.(cap := Cap(p), ty := TString, state := ST);
    assert Steps(p, 34, q) && Char(p, 34) == Accepted(q);
    CharSafe(p, ScanChar(Scan(Plain, []), 91), 34);
    sc := ScanChar(ScanChar(Scan(Plain, []), 91), 34);
  }

  /** An array with one string reads back if and only if the string has no quote,
      no backslash and no byte below 0x20. */
  lemma StringReadsBackIff(s: Text, depth: nat)
    requires depth > 0
    ensures ReadsBack(Feed(NewParser(depth), Print(Arr([Str(s)]))), s) <==> PlainText(s)
  {
    if PlainText(s) {
      RoundTrip(Arr([Str(s)]), depth);
    } else {
      var p, q, sc := FirstOpened(depth);
      UnplainComesShort(q, sc, s, 0);
      OneStringText(s);
      var u := s + [34, 93];
      assert ([91] + ([34] + u))[1..] == [34] + u && ([34] + u)[1..] == u && u[0..] == u;
    }
  }
}
