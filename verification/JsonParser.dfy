/** JSON_parser_char (src/lib/JSON_parser.c), with every assertion of the source
    as a way to fail. */
module JsonParser {
  import opened Basics
  import opened JsonTable
  import opened JsonTree

  datatype Mode = MArray | MDone | MKey | MObject

  datatype Type = TNone | TInteger | TFloat | TNull | TTrue | TFalse | TString

  /** `high` is the pending high surrogate, or 0. */
  datatype Parser = Parser(
    state: int, before: int, ty: Type, escaped: bool, comment: bool, high: int,
    depth: nat, stack: seq<Mode>, buf: Text, cap: nat, b: Builder)

  /** `PopsEmpty`: the callback pops its empty stack. */
  datatype Outcome = Accepted(p: Parser) | Rejected | AssertFails | PopsEmpty {
    predicate IsFailure() { !Accepted? }
    function PropagateFailure(): Outcome requires IsFailure() { this }
    function Extract(): Parser requires !IsFailure() { p }
  }

  function Check(p: Parser, ok: bool): Outcome { if ok then Accepted(p) else AssertFails }

  function Require(p: Parser, ok: bool): Outcome { if ok then Accepted(p) else Rejected }

  // ----- The mode stack

  function Top(p: Parser): Mode { if p.stack == [] then MDone else p.stack[|p.stack| - 1] }

  function Push(p: Parser, m: Mode): Outcome {
    var q :- Require(p, |p.stack| - 1 != p.depth);
    Accepted(q.(stack := q.stack + [m]))
  }

  function Pop(p: Parser, m: Mode): Outcome {
    if p.stack == [] || Top(p) != m then Rejected else Accepted(p.(stack := p.stack[..|p.stack| - 1]))
  }

  // ----- The parse buffer

  function Grow(cap: nat, need: nat): (c: nat)
    requires cap > 0
    ensures c >= need && c >= cap
    decreases need - cap
  {
    if need <= cap then cap else Grow(2 * cap, need)
  }

  predicate HasSpace(p: Parser, n: nat) { |p.buf| + n + 1 <= p.cap }

  function PushBack(p: Parser, c: int): Outcome {
    var q :- Check(p, HasSpace(p, 1));
    Accepted(q.(buf := q.buf + [c % 256]))
  }

  function PopBack(p: Parser): Outcome {
    if p.buf == [] then AssertFails else Accepted(p.(buf := p.buf[..|p.buf| - 1]))
  }

  function Unescape(c: int): int {
    match c
    case 98 => 8
    case 102 => 12
    case 110 => 10
    case 114 => 13
    case 116 => 9
    case _ => c
  }

  /** The character after a backslash replaces it. */
  function AddEscaped(p: Parser, c: int): Outcome {
    var q0 :- Check(p, HasSpace(p, 1));
    var q :- PopBack(q0.(escaped := false));
    if c == 117 then
      var q1 :- PushBack(q, 92);
      PushBack(q1, 117)
    else if c in {98, 102, 110, 114, 116, 34, 92, 47} then PushBack(q, Unescape(c))
    else Rejected
  }

  function AddChar(p: Parser, c: int, k: int): Outcome {
    var q := p.(cap := if p.cap > 0 then Grow(p.cap, |p.buf| + 2) else 0);
    if q.escaped then AddEscaped(q, c)
    else if !q.comment && (q.ty != TNone || !(k == C_SPACE || k == C_WHITE)) then PushBack(q, c)
    else Accepted(q)
  }

  /** White space may follow a number in the buffer; converting it stops there. */
  function UpToWhite(s: Text): Text {
    if s == [] || s[0] == 32 || s[0] == 9 || s[0] == 10 || s[0] == 13 then [] else [s[0]] + UpToWhite(s[1..])
  }

  /** The scalar value a non-string, non-key token denotes. */
  function Denotes(ty: Type, buf: Text): Json {
    match ty
    case TInteger => Int(ToInt32(ScanLong(buf)))
    case TFloat => Float(UpToWhite(buf))
    case TTrue => Bool(true)
    case TFalse => Bool(false)
    case TString => Str(CString(buf))
    case _ => Null
  }

  function Send(p: Parser, e: Event): Outcome {
    match Cb(p.b, e)
    case Some(b) => Accepted(p.(b := b))
    case None => PopsEmpty
  }

  /** parse_parse_buffer: delivers the pending value. */
  function Flush(p: Parser): Outcome {
    var q :- (if p.ty == TNone then Accepted(p) else Send(p, Value(Denotes(p.ty, p.buf))));
    Accepted(q.(buf := []))
  }

  // ----- Unicode escapes

  /** A digit has its bits 4 and 5 cleared. */
  function HexValue(x: uint8): int {
    if x >= 97 then x - 87 else if x >= 65 then x - 55 else x - x / 16 % 4 * 16
  }

  predicate IsHigh(u: int) { 0xD800 <= u < 0xDC00 }
  predicate IsLow(u: int) { 0xDC00 <= u < 0xE000 }

  /** The lead byte and `trail` continuation bytes for `u`. */
  function Utf8Bytes(u: nat, trail: nat): seq<int>
    requires trail <= 3
  {
    if trail == 0 then [u]
    else if trail == 1 then [u / 64 + 0xC0, u % 64 + 0x80]
    else if trail == 2 then [u / 4096 + 0xE0, u / 64 % 64 + 0x80, u % 64 + 0x80]
    else [u / 0x40000 + 0xF0, u / 4096 % 64 + 0x80, u / 64 % 64 + 0x80, u % 64 + 0x80]
  }

  function Emit(p: Parser, u: nat, trail: nat): Outcome
    requires trail <= 3
  {
    var bytes := Utf8Bytes(u, trail);
    var q :- Check(p, |p.buf| + |bytes| + 1 <= p.cap);
    Accepted(q.(buf := q.buf + seq(|bytes|, i requires 0 <= i < |bytes| => bytes[i] % 256)))
  }

  /** The unit the last four characters of the buffer spell. */
  function UnitOf(buf: Text): int
    requires |buf| >= 4
  {
    var n := |buf|;
    ((HexValue(buf[n - 4]) * 16 + HexValue(buf[n - 3])) * 16 + HexValue(buf[n - 2])) * 16 + HexValue(buf[n - 1])
  }

  /** A unit, whose escape has left the buffer: a first half is kept, anything
      else is written out. */
  function Place(q: Parser, u: nat): Outcome {
    if q.high != 0 then
      if IsLow(u) then Emit(q.(high := 0), q.high % 0x400 * 0x400 + u % 0x400 + 0x10000, 3) else Rejected
    else if u < 0x80 then Emit(q, u, 0)
    else if u < 0x800 then Emit(q, u, 1)
    else if IsHigh(u) then Accepted(q.(high := u))
    else if IsLow(u) then Rejected
    else Emit(q, u, 2)
  }

  function Decode(p: Parser): Outcome {
    var n := |p.buf|;
    if n < 6 || exists i | n - 4 <= i < n :: HexValue(p.buf[i]) < 0 || HexValue(p.buf[i]) >= 16 then AssertFails
    else Place(p.(buf := p.buf[..n - 6]), UnitOf(p.buf))
  }

  // ----- One character

  function AtCB(p: Parser): Outcome {
    var q0 :- PopBack(p);
    var q :- Flush(q0);
    var q1 :- Check(q, q.ty != TString);
    var before := if Top(q1) in {MArray, MObject} && q1.state != VA && q1.state != AR then OK else q1.state;
    Accepted(q1.(before := before, ty := TNone, state := C1, comment := true))
  }

  function AtEnd(p: Parser, e: Event, m: Mode): Outcome {
    var q0 :- PopBack(p);
    var q1 :- Flush(q0);
    var q2 :- Send(q1, e);
    var q :- Pop(q2, m);
    Accepted(q.(ty := TNone, state := OK))
  }

  function AtBegin(p: Parser, e: Event, m: Mode, s: int): Outcome {
    var q0 :- PopBack(p);
    var q1 :- Send(q0, e);
    var q2 :- Push(q1, m);
    var q :- Check(q2, q2.ty == TNone);
    Accepted(q.(state := s))
  }

  function AtEndString(p: Parser): Outcome {
    var q :- PopBack(p);
    match Top(q)
    case MKey =>
      var q1 :- Check(q, q.ty == TString);
      var q2 :- Send(q1.(ty := TNone, state := CO), Key(q1.buf));
      Accepted(q2.(buf := []))
    case MDone => Rejected
    case _ =>
      var q1 :- Check(q, q.ty == TString);
      var q2 :- Flush(q1);
      Accepted(q2.(ty := TNone, state := OK))
  }

  function AtSeparator(p: Parser): Outcome {
    var q0 :- PopBack(p);
    var q :- Flush(q0);
    match Top(q)
    case MObject =>
      var q1 :- Pop(q, MObject);
      var q2 :- Push(q1, MKey);
      var q3 :- Check(q2, q2.ty != TString);
      Accepted(q3.(ty := TNone, state := KE))
    case MArray =>
      var q1 :- Check(q, q.ty != TString);
      Accepted(q1.(ty := TNone, state := VA))
    case _ => Rejected
  }

  function BeginToken(p: Parser, ty: Type, s: int): Outcome {
    var q :- Check(p, p.ty == TNone);
    Accepted(q.(ty := ty, state := s))
  }

  function AtEmptyObject(p: Parser): Outcome {
    var q0 :- Send(p.(buf := []), ObjectEnd);
    var q :- Pop(q0, MKey);
    Accepted(q.(state := OK))
  }

  function AtColon(p: Parser): Outcome {
    var q0 :- PopBack(p);
    var q1 :- Pop(q0, MKey);
    var q2 :- Push(q1, MObject);
    var q :- Check(q2, q2.ty == TNone);
    Accepted(q.(state := VA))
  }

  function AtUnicode(p: Parser): Outcome {
    var q :- Decode(p);
    Accepted(q.(state := if q.high != 0 then D1 else ST))
  }

  function EndComment(p: Parser): Outcome {
    var q :- Check(p.(comment := false), p.buf == [] && p.ty == TNone);
    Accepted(q.(state := q.before))
  }

  /** A number turns out to be floating point. */
  function ToFloat(p: Parser, ok: bool, s: int): Outcome {
    var q :- Check(p, p.ty !in {TFalse, TTrue, TNull, TString} && ok);
    Accepted(q.(ty := TFloat, state := s))
  }

  /** Actions inside or at the start of a token. */
  function TokenAction(p: Parser, cell: int): Outcome {
    if cell == EX then Accepted(p.(escaped := true, state := ES))
    else if cell == MX then Accepted(p.(ty := TInteger, state := MI))
    else if cell == ZX then Accepted(p.(ty := TInteger, state := ZE))
    else if cell == IX then Accepted(p.(ty := TInteger, state := IT))
    else if cell == DE then ToFloat(p, true, E1)
    else if cell == DF then ToFloat(p, p.buf != [] && p.buf[|p.buf| - 1] == 46, FX)
    else if cell == SB then BeginToken(p.(buf := []), TString, ST)
    else if cell == NU then BeginToken(p, TNull, N1)
    else if cell == FA then BeginToken(p, TFalse, F1)
    else if cell == TR then BeginToken(p, TTrue, T1)
    else if cell == UC then AtUnicode(p)
    else if cell == CE then EndComment(p)
    else if cell == CB then AtCB(p)
    else Rejected
  }

  /** Actions on brackets, separators and closing quotes. */
  function StructureAction(p: Parser, cell: int): Outcome {
    if cell == EMPTY_OBJECT then AtEmptyObject(p)
    else if cell == END_OBJECT then AtEnd(p, ObjectEnd, MObject)
    else if cell == END_ARRAY then AtEnd(p, ArrayEnd, MArray)
    else if cell == BEGIN_OBJECT then AtBegin(p, ObjectBegin, MKey, OB)
    else if cell == BEGIN_ARRAY then AtBegin(p, ArrayBegin, MArray, AR)
    else if cell == END_STRING then AtEndString(p)
    else if cell == COMMA then AtSeparator(p)
    else if cell == COLON then AtColon(p)
    else Rejected
  }

  function Perform(p: Parser, cell: int): Outcome {
    if cell >= 0 then Accepted(p.(state := cell))
    else if cell <= CB then TokenAction(p, cell)
    else StructureAction(p, cell)
  }

  function Char(p: Parser, c: int): Outcome {
    if c < 0 then Rejected
    else
      var k := ClassOf(c);
      if k <= BAD then Rejected
      else
        var q :- AddChar(p, c, k);
        Perform(q, Table(q.state, k))
  }

  const BUFFER_SIZE := 3500

  function NewParser(depth: nat): Parser {
    var d := if depth == 0 then 1 else depth;
    Parser(GO, GO, TNone, false, false, 0, d, [MDone], [], BUFFER_SIZE, Builder([], [], None))
  }

  /** JSON_parser_done. */
  predicate Done(p: Parser) { (p.state == OK || p.state == GO) && p.stack != [] && Top(p) == MDone }

  function Feed(p: Parser, s: seq<int>): Outcome
    decreases |s|
  {
    if s == [] then Accepted(p)
    else
      var q :- Char(p, s[0]);
      Feed(q, s[1..])
  }
}
