/** What strings, escapes and comments come to in the parser
    (src/lib/JSON_parser.c). */
module JsonText {
  import opened Basics
  import opened JsonTable
  import opened JsonTree
  import opened JsonParser
  import opened JsonSafe
  import opened JsonSteps
  import opened JsonUnicode

  // ----- Strings

  /** A character as it is, a backslash and a letter, or a Unicode escape. */
  datatype Piece = Itself(c: int) | Short(c: int) | Escape(t: seq<int>, u: int)

  /** What a short escape stands for. */
  function ShortMeaning(c: int): Option<int> {
    if c == 'b' as int then Some(0x08)
    else if c == 'f' as int then Some(0x0C)
    else if c == 'n' as int then Some('\n' as int)
    else if c == 'r' as int then Some('\r' as int)
    else if c == 't' as int then Some('\t' as int)
    else if c == '"' as int || c == '\\' as int || c == '/' as int then Some(c)
    else None
  }

  predicate Proper(x: Piece) {
    match x
    case Itself(c) => PlainChar(c)
    case Short(c) => ShortMeaning(c).Some?
    case Escape(t, u) => IsScalar(u) && SpellsScalar(t, u)
  }

  function Spelling(x: Piece): seq<int> {
    match x
    case Itself(c) => [c]
    case Short(c) => [92] + [c]
    case Escape(t, _) => t
  }

  function Meaning(x: Piece): Text
    requires Proper(x)
  {
    match x
    case Itself(c) => [c]
    case Short(c) => [ShortMeaning(c).value]
    case Escape(_, u) => Utf8Inverse(u); Utf8(u)
  }

  function SpellingOf(xs: seq<Piece>): seq<int> { if xs == [] then [] else Spelling(xs[0]) + SpellingOf(xs[1..]) }

  function MeaningOf(xs: seq<Piece>): Text
    requires forall x | x in xs :: Proper(x)
  {
    if xs == [] then [] else Meaning(xs[0]) + MeaningOf(xs[1..])
  }

  lemma ShortFed(p: Parser, c: int) returns (q: Parser)
    requires InText(p) && p.state == ST && ShortMeaning(c).Some?
    ensures Reads(p, [92] + [c], q) && Wrote(p, [ShortMeaning(c).value], q)
  {
    CharIs(p, 92);
    var p1 := Char(p, 92).p;
    AddedEscaped(p1, c, ClassOf(c));
    q := Char(p1, c).p;
    assert p1.buf[..|p1.buf| - 1] == p.buf;
    ReadsOne(p1, c, q);
    ReadsFirst(p, 92, p1, [c], q);
  }

  lemma PieceFed(p: Parser, x: Piece) returns (q: Parser)
    requires InText(p) && p.state == ST && Proper(x)
    ensures Reads(p, Spelling(x), q) && Wrote(p, Meaning(x), q)
  {
    match x
    case Itself(c) =>
      TextStep(p, c);
      q := p.(cap := Cap(p), buf := p.buf + [c]);
      ReadsOne(p, c, q);
    case Short(c) => q := ShortFed(p, c);
    case Escape(t, u) => q := ScalarFed(p, t, u);
  }

  lemma {:induction false} PiecesRead(p: Parser, xs: seq<Piece>) returns (r: Parser)
    requires InText(p) && p.state == ST && forall x | x in xs :: Proper(x)
    ensures Reads(p, SpellingOf(xs), r) && Wrote(p, MeaningOf(xs), r)
    decreases |xs|
  {
    if xs == [] {
      r := p;
      ReadsNothing(p);
      assert p.buf + [] == p.buf;
    } else {
      var q := PieceFed(p, xs[0]);
      r := PiecesRead(q, xs[1..]);
      ReadsThen(p, Spelling(xs[0]), q, SpellingOf(xs[1..]), r);
      WroteOn(p, q, r, Meaning(xs[0]), MeaningOf(xs[1..]));
    }
  }

  /** A string token in an array or as a member's value: whatever it is spelled
      with, the tree gains the text it means (up to a NUL). */
  lemma StringDelivered(p: Parser, xs: seq<Piece>)
    requires Idle(p) && ExpectsValue(p.state) && (Top(p) == MArray || Top(p) == MObject) && forall x | x in xs :: Proper(x)
    ensures var o := Feed(p, [34] + SpellingOf(xs) + [34]);
            && o.Accepted? && o.p.state == OK && o.p.stack == p.stack
            && o.p.b == Put(p.b, p.b.lastkey, Str(CString(MeaningOf(xs))))
  {
    QuoteStep(p);
    var p1 := p.(cap := Cap(p), ty := TString, state := ST);
    var q := PiecesRead(p1, xs);
    ReadsFirst(p, 34, p1, SpellingOf(xs), q);
    StringStep(q);
    var r := q.(cap := Cap(q), ty := TNone, state := OK, buf := [], b := Put(q.b, q.b.lastkey, Str(CString(q.buf))));
    ReadsLast(p, [34] + SpellingOf(xs), q, 34, r);
    assert [] + MeaningOf(xs) == MeaningOf(xs);
    ReadsIs(p, [34] + SpellingOf(xs) + [34], r);
  }

  // ----- Comments

  /** No end of comment inside, and no control character but white space. */
  predicate CommentBody(t: seq<int>) {
    && (forall i | 0 <= i < |t| :: 0 <= t[i] && ClassOf(t[i]) >= 0)
    && (forall i | 0 <= i < |t| - 1 :: !(t[i] == 42 && t[i + 1] == 47))
  }

  predicate InsideComment(p: Parser) {
    p.comment && !p.escaped && |p.buf| + 1 <= p.cap && (p.state == C2 || p.state == C3)
  }

  lemma CommentStep(p: Parser, c: int) returns (q: Parser)
    requires InsideComment(p) && 0 <= c && ClassOf(c) >= 0 && !(p.state == C3 && c == 47)
    ensures Steps(p, c, q) && InsideComment(q) && q == p.(cap := q.cap, state := if c == 42 then C3 else C2)
  {
    ClassChars(c, ClassOf(c));
    CharIs(p, c);
    q := p.(cap := Cap(p), state := if c == 42 then C3 else C2);
  }

  lemma {:induction false} BodySkipped(p: Parser, t: seq<int>) returns (q: Parser)
    requires InsideComment(p) && CommentBody(t) && !(p.state == C3 && t != [] && t[0] == 47)
    ensures Reads(p, t, q) && InsideComment(q) && q == p.(cap := q.cap, state := q.state)
    decreases |t|
  {
    if t == [] {
      q := p;
      ReadsNothing(p);
    } else {
      var p1 := CommentStep(p, t[0]);
      q := BodySkipped(p1, t[1..]);
      ReadsFirst(p, t[0], p1, t[1..], q);
      assert [t[0]] + t[1..] == t;
    }
  }

  /** Where a comment may stand, and the state it comes back to. */
  function Resumed(s: int): int { if OfStructure(s) then s else OK }

  lemma CommentOpened(p: Parser, f: Parser) returns (q: Parser)
    requires Calm(p) && Table(p.state, C_SLASH) == CB && ModeFits(p.state, Top(p)) && p.ty != TString && Flush(p) == Accepted(f)
    requires GO <= p.state <= D2
    ensures Steps(p, 47, q) && q == f.(cap := Cap(p), ty := TNone, state := C1, comment := true, before := Resumed(p.state))
  {
    TableActs(p.state, C_SLASH);
    CharIs(p, 47);
    assert PopBack(Added(p, 47, C_SLASH)) == Accepted(p.(cap := Cap(p)));
    q := f.(cap := Cap(p), ty := TNone, state := C1, comment := true, before := Resumed(p.state));
  }

  lemma CommentStars(p: Parser) returns (q: Parser)
    requires p.comment && !p.escaped && |p.buf| + 1 <= p.cap && p.state == C1
    ensures Steps(p, 42, q) && q == p.(cap := q.cap, state := C2) && |q.buf| + 1 <= q.cap
  {
    CharIs(p, 42);
    q := p.(cap := Cap(p), state := C2);
  }

  lemma CommentClosed(p: Parser) returns (q: Parser)
    requires InsideComment(p) && p.state == C3 && p.buf == [] && p.ty == TNone
    ensures Steps(p, 47, q) && q == p.(cap := q.cap, comment := false, state := p.before) && |q.buf| + 1 <= q.cap
  {
    CharIs(p, 47);
    q := p.(cap := Cap(p), comment := false, state := p.before);
  }

  function CommentText(t: seq<int>): seq<int> { [47] + [42] + t + [42] + [47] }

  lemma CommentRead(p: Parser, t: seq<int>) returns (q: Parser)
    requires Calm(p) && Table(p.state, C_SLASH) == CB && ModeFits(p.state, Top(p)) && p.ty != TString && GO <= p.state <= D2
    requires CommentBody(t)
    ensures Flush(p).Accepted? && Reads(p, CommentText(t), q) && |q.buf| + 1 <= q.cap
    ensures q == Flush(p).p.(cap := q.cap, ty := TNone, state := Resumed(p.state), before := Resumed(p.state))
  {
    var p1 := CommentOpened(p, Flush(p).p);
    var p2 := CommentStars(p1);
    var p3 := BodySkipped(p2, t);
    var p4 := CommentStep(p3, 42);
    q := CommentClosed(p4);
    ReadsOne(p, 47, p1);
    ReadsLast(p, [47], p1, 42, p2);
    ReadsThen(p, [47] + [42], p2, t, p3);
    ReadsLast(p, [47] + [42] + t, p3, 42, p4);
    ReadsLast(p, [47] + [42] + t + [42], p4, 47, q);
  }

  /** A comment between tokens only delivers a value that was pending: the parser
      is back in the same state, or at the end of that value. */
  lemma CommentSkipped(p: Parser, t: seq<int>)
    requires Calm(p) && Table(p.state, C_SLASH) == CB && ModeFits(p.state, Top(p)) && p.ty != TString && GO <= p.state <= D2
    requires CommentBody(t)
    ensures var o := Feed(p, CommentText(t));
            && Flush(p).Accepted? && o.Accepted?
            && o.p == Flush(p).p.(cap := o.p.cap, ty := TNone, state := Resumed(p.state), before := Resumed(p.state))
  {
    var q := CommentRead(p, t);
    ReadsIs(p, CommentText(t), q);
  }
}
