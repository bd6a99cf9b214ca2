/** Every well-formed text is accepted and builds the tree it means: any white
    space and comments between its tokens, any spelling of its strings and
    numbers (src/lib/JSON_parser.c). */
module JsonDoc {
  import opened Basics
  import opened JsonTable
  import opened JsonTree
  import opened JsonParser
  import opened JsonSafe
  import opened JsonSteps
  import opened JsonValues
  import opened JsonUnicode
  import opened JsonText

  // ----- Gaps between tokens

  datatype GapPiece = White(c: int) | Comment(t: seq<int>)

  type Gap = seq<GapPiece>

  function PieceText(x: GapPiece): seq<int> {
    match x
    case White(c) => [c]
    case Comment(t) => CommentText(t)
  }

  function GapText(g: Gap): seq<int> { if g == [] then [] else PieceText(g[0]) + GapText(g[1..]) }

  predicate ProperPiece(x: GapPiece) {
    match x
    case White(c) => IsWhite(c)
    case Comment(t) => CommentBody(t)
  }

  predicate ProperGap(g: Gap) { forall i | 0 <= i < |g| :: ProperPiece(g[i]) }

  /** The same place between tokens. */
  ghost predicate Stays(p: Parser, q: Parser) { Idle(q) && q == p.(cap := q.cap, before := q.before) }

  lemma PieceSkipped(p: Parser, x: GapPiece) returns (q: Parser)
    requires Idle(p) && OfStructure(p.state) && ModeFits(p.state, Top(p)) && ProperPiece(x)
    ensures Reads(p, PieceText(x), q) && Stays(p, q)
  {
    match x
    case White(c) =>
      WhiteStep(p, c);
      q := p.(cap := Cap(p));
      ReadsOne(p, c, q);
    case Comment(t) =>
      q := CommentRead(p, t);
  }

  /** Between tokens, white space and comments change nothing. */
  lemma {:induction false} GapSkipped(p: Parser, g: Gap) returns (q: Parser)
    requires Idle(p) && OfStructure(p.state) && ModeFits(p.state, Top(p)) && ProperGap(g)
    ensures Reads(p, GapText(g), q) && Stays(p, q)
    decreases |g|
  {
    if g == [] {
      q := p;
      ReadsNothing(p);
    } else {
      var p1 := PieceSkipped(p, g[0]);
      q := GapSkipped(p1, g[1..]);
      ReadsThen(p, PieceText(g[0]), p1, GapText(g[1..]), q);
    }
  }

  // ----- Gaps after a value

  lemma {:induction false} DigitsStop(s: Text, c: uint8, acc: nat)
    requires IsWhite(c)
    ensures Digits(s + [c], acc) == Digits(s, acc)
    decreases |s|
  {
    if s == [] {
      assert s + [c] == [c];
    } else {
      assert (s + [c])[1..] == s[1..] + [c] && (s + [c])[0] == s[0];
      if 48 <= s[0] <= 57 { DigitsStop(s[1..], c, 10 * acc + (s[0] - 48)); }
    }
  }

  lemma {:induction false} WhiteStops(s: Text, c: uint8)
    requires IsWhite(c)
    ensures UpToWhite(s + [c]) == UpToWhite(s)
  {
    if s == [] {
      assert s + [c] == [c];
    } else {
      assert (s + [c])[1..] == s[1..] + [c] && (s + [c])[0] == s[0];
      WhiteStops(s[1..], c);
    }
  }

  /** White space after a number does not change what it denotes. */
  lemma DenotesSame(ty: Type, buf: Text, c: uint8)
    requires IsWhite(c) && ty != TString
    ensures Denotes(ty, buf + [c]) == Denotes(ty, buf)
  {
    if ty == TFloat { WhiteStops(buf, c); }
    if ty == TInteger {
      DigitsStop(buf, c, 0);
      if buf == [] {
        assert buf + [c] == [c];
      } else {
        assert (buf + [c])[1..] == buf[1..] + [c] && (buf + [c])[0] == buf[0];
        DigitsStop(buf[1..], c, 0);
      }
    }
  }

  lemma WhiteAfter(p: Parser, v: Json, q: Parser, c: uint8) returns (r: Parser)
    requires Expecting(p) && ValueRead(p, v, q) && IsWhite(c)
    ensures Steps(q, c, r) && ValueRead(p, v, r) && r.state == OK
  {
    WhiteAfterStep(q, c);
    r := q.(cap := Cap(q), state := OK, buf := if q.ty == TNone then q.buf else q.buf + [c]);
    if q.ty != TNone { DenotesSame(q.ty, q.buf, c); }
  }

  lemma CommentAfter(p: Parser, v: Json, q: Parser, t: seq<int>) returns (r: Parser)
    requires Expecting(p) && ValueRead(p, v, q) && CommentBody(t) && Table(q.state, C_SLASH) == CB
    ensures Reads(q, PieceText(Comment(t)), r) && ValueRead(p, v, r) && r.state == OK
  {
    r := CommentRead(q, t);
  }

  /** White space and comments after a value leave it read. */
  lemma {:induction false} GapAfter(p: Parser, v: Json, q: Parser, g: Gap) returns (r: Parser)
    requires Expecting(p) && ValueRead(p, v, q) && ProperGap(g)
    requires g != [] && g[0].Comment? ==> Table(q.state, C_SLASH) == CB
    ensures Reads(q, GapText(g), r) && ValueRead(p, v, r)
    decreases |g|
  {
    if g == [] {
      r := q;
      ReadsNothing(q);
    } else {
      var q1;
      if g[0].White? {
        q1 := WhiteAfter(p, v, q, g[0].c);
        ReadsOne(q, g[0].c, q1);
      } else {
        q1 := CommentAfter(p, v, q, g[0].t);
      }
      r := GapAfter(p, v, q1, g[1..]);
      ReadsThen(q, PieceText(g[0]), q1, GapText(g[1..]), r);
    }
  }

  // ----- Documents

  /** A value as it is written; `inner` is the gap in an empty container. */
  datatype Doc =
    | ArrDoc(items: seq<Item>, inner: Gap)
    | DictDoc(entries: seq<Entry>, inner: Gap)
    | NumDoc(n: Number)
    | NullDoc
    | BoolDoc(b: bool)
    | StrDoc(xs: seq<Piece>)

  datatype Item = Item(lead: Gap, doc: Doc, trail: Gap)

  datatype Entry = Entry(lead: Gap, key: seq<Piece>, mid: Gap, item: Item)

  function StrText(xs: seq<Piece>): seq<int> { [34] + SpellingOf(xs) + [34] }

  function DocText(doc: Doc): seq<int> {
    match doc
    case ArrDoc(items, inner) => [91] + ((if items == [] then GapText(inner) else ItemsText(items)) + [93])
    case DictDoc(entries, inner) => [123] + ((if entries == [] then GapText(inner) else EntriesText(entries)) + [125])
    case NumDoc(n) => NumberText(n)
    case NullDoc => NULL_TEXT
    case BoolDoc(b) => if b then TRUE_TEXT else FALSE_TEXT
    case StrDoc(xs) => StrText(xs)
  }

  function ItemText(item: Item): seq<int> { GapText(item.lead) + (DocText(item.doc) + GapText(item.trail)) }

  function ItemsText(items: seq<Item>): seq<int> {
    if items == [] then []
    else if |items| == 1 then ItemText(items[0])
    else ItemText(items[0]) + [44] + ItemsText(items[1..])
  }

  function KeyText(e: Entry): seq<int> { GapText(e.lead) + (StrText(e.key) + (GapText(e.mid) + [58])) }

  function EntryText(e: Entry): seq<int> { KeyText(e) + ItemText(e.item) }

  function EntriesText(entries: seq<Entry>): seq<int> {
    if entries == [] then []
    else if |entries| == 1 then EntryText(entries[0])
    else EntryText(entries[0]) + [44] + EntriesText(entries[1..])
  }

  // ----- What a document means

  predicate AllProper(xs: seq<Piece>) { forall x | x in xs :: Proper(x) }

  function StrValue(xs: seq<Piece>): Text { if AllProper(xs) then CString(MeaningOf(xs)) else [] }

  function NumValue(n: Number): Json {
    if IsFloat(n) then Float(NumberText(n)) else Int(ToInt32(ScanLong(NumberText(n))))
  }

  function ValueOf(doc: Doc): Json {
    match doc
    case ArrDoc(items, _) => Arr(ItemValues(items))
    case DictDoc(entries, _) => Dict(InsertAll([], EntryMembers(entries)))
    case NumDoc(n) => NumValue(n)
    case NullDoc => Null
    case BoolDoc(b) => Bool(b)
    case StrDoc(xs) => Str(StrValue(xs))
  }

  function ItemValues(items: seq<Item>): seq<Json> {
    if items == [] then [] else [ValueOf(items[0].doc)] + ItemValues(items[1..])
  }

  function EntryMembers(entries: seq<Entry>): seq<Member> {
    if entries == [] then []
    else [Member(StrValue(entries[0].key), ValueOf(entries[0].item.doc))] + EntryMembers(entries[1..])
  }

  /** The first of equal keys counts. */
  function InsertAll(ms: seq<Member>, xs: seq<Member>): seq<Member>
    decreases |xs|
  {
    if xs == [] then ms else InsertAll(Insert(ms, xs[0].key, xs[0].value), xs[1..])
  }

  // ----- Which documents are well-formed

  /** The table has no entry for a comment right after an exponent or a bare point. */
  predicate TakesComment(doc: Doc) { doc.NumDoc? ==> doc.n.exp.None? && doc.n.frac != Some([]) }

  ghost predicate ProperDoc(doc: Doc, d: nat)
    decreases doc
  {
    match doc
    case ArrDoc(items, inner) => d > 0 && ProperGap(inner) && forall i | 0 <= i < |items| :: ProperItem(items[i], d - 1)
    case DictDoc(entries, inner) =>
      d > 0 && ProperGap(inner) && forall i | 0 <= i < |entries| :: ProperEntry(entries[i], d - 1)
    case NumDoc(n) => ProperNumber(n)
    case StrDoc(xs) => AllProper(xs)
    case _ => true
  }

  ghost predicate ProperItem(item: Item, d: nat)
    decreases item
  {
    && ProperGap(item.lead) && ProperGap(item.trail) && ProperDoc(item.doc, d)
    && (item.trail != [] && item.trail[0].Comment? ==> TakesComment(item.doc))
  }

  ghost predicate ProperEntry(e: Entry, d: nat)
    decreases e
  {
    ProperGap(e.lead) && AllProper(e.key) && ProperGap(e.mid) && ProperItem(e.item, d)
  }

  // ----- Reading scalars

  lemma {:induction false} NothingWhite(s: Text)
    requires forall i | 0 <= i < |s| :: !IsWhite(s[i])
    ensures UpToWhite(s) == s
  {
    if s != [] { NothingWhite(s[1..]); }
  }

  lemma NumberNotWhite(n: Number)
    requires ProperNumber(n)
    ensures UpToWhite(NumberText(n)) == NumberText(n)
  {
    NothingWhite(NumberText(n));
  }

  lemma NumDocFed(p: Parser, n: Number) returns (q: Parser)
    requires Expecting(p) && ProperNumber(n)
    ensures Reads(p, NumberText(n), q) && ValueRead(p, NumValue(n), q)
    ensures q.state == NumberEnd(n)
  {
    q := NumberFed(p, n);
    NumberNotWhite(n);
    assert [] + NumberText(n) == NumberText(n);
    ScalarRead(p, q, NumValue(n));
  }

  /** A string up to its closing quote. */
  lemma OpenStrFed(p: Parser, xs: seq<Piece>) returns (q: Parser)
    requires Idle(p) && (p.state == OB || p.state == KE || ExpectsValue(p.state)) && AllProper(xs)
    ensures Reads(p, [34] + SpellingOf(xs), q) && Calm(q)
    ensures q == p.(cap := q.cap, ty := TString, state := ST, buf := MeaningOf(xs))
  {
    QuoteStep(p);
    var p1 := p.(cap := Cap(p), ty := TString, state := ST);
    q := PiecesRead(p1, xs);
    ReadsFirst(p, 34, p1, SpellingOf(xs), q);
    assert [] + MeaningOf(xs) == MeaningOf(xs);
  }

  lemma StrDocFed(p: Parser, xs: seq<Piece>) returns (q: Parser)
    requires Expecting(p) && AllProper(xs)
    ensures Reads(p, StrText(xs), q) && ValueRead(p, Str(StrValue(xs)), q) && q.state == OK
  {
    var q1 := OpenStrFed(p, xs);
    StringStep(q1);
    q := q1.(cap := Cap(q1), ty := TNone, state := OK, buf := [], b := Put(q1.b, q1.b.lastkey, Str(CString(q1.buf))));
    ReadsLast(p, [34] + SpellingOf(xs), q1, 34, q);
  }

  /** A key with its colon. */
  lemma KeyFed(p: Parser, ms: seq<Member>, e: Entry) returns (r: Parser)
    requires AtMember(p, ms) && ProperGap(e.lead) && AllProper(e.key) && ProperGap(e.mid)
    ensures Reads(p, KeyText(e), r) && KeyRead(p, StrValue(e.key), r)
  {
    var p1 := GapSkipped(p, e.lead);
    var q := OpenStrFed(p1, e.key);
    KeyStep(q);
    var q1 := q.(cap := Cap(q), ty := TNone, state := CO, buf := [], b := q.b.(lastkey := StrValue(e.key)));
    ReadsLast(p1, [34] + SpellingOf(e.key), q, 34, q1);
    var q2 := GapSkipped(q1, e.mid);
    ColonStep(q2);
    r := q2.(cap := Cap(q2), state := VA, stack := q2.stack[..|q2.stack| - 1] + [MObject]);
    ReadsLast(q1, GapText(e.mid), q2, 58, r);
    ReadsThen(p1, StrText(e.key), q1, GapText(e.mid) + [58], r);
    ReadsThen(p, GapText(e.lead), p1, StrText(e.key) + (GapText(e.mid) + [58]), r);
  }

  // ----- Reading documents

  /** After the document a comment may follow, if it takes one. */
  ghost predicate DocRead(p: Parser, doc: Doc, q: Parser) {
    ValueRead(p, ValueOf(doc), q) && (TakesComment(doc) ==> Table(q.state, C_SLASH) == CB)
  }

  lemma {:induction false} DocFed(p: Parser, doc: Doc, d: nat) returns (q: Parser)
    requires Expecting(p) && ProperDoc(doc, d) && |p.stack| - 1 + d <= p.depth
    ensures Reads(p, DocText(doc), q) && DocRead(p, doc, q)
    decreases doc
  {
    match doc
    case ArrDoc(_, _) => q := ArrDocFed(p, doc, d); ContainerRead(p, ValueOf(doc), q);
    case DictDoc(_, _) => q := DictDocFed(p, doc, d); ContainerRead(p, ValueOf(doc), q);
    case NumDoc(n) => q := NumDocFed(p, n);
    case NullDoc => q := NullFed(p);
    case BoolDoc(b) => if b { q := TrueFed(p); } else { q := FalseFed(p); }
    case StrDoc(xs) => q := StrDocFed(p, xs);
  }

  lemma {:induction false} ItemFed(p: Parser, item: Item, d: nat) returns (q: Parser)
    requires Expecting(p) && ProperItem(item, d) && |p.stack| - 1 + d <= p.depth
    ensures Reads(p, ItemText(item), q) && ValueRead(p, ValueOf(item.doc), q)
    decreases item
  {
    var p1 := GapSkipped(p, item.lead);
    var q1 := DocFed(p1, item.doc, d);
    q := GapAfter(p1, ValueOf(item.doc), q1, item.trail);
    ReadsThen(p1, DocText(item.doc), q1, GapText(item.trail), q);
    ReadsThen(p, GapText(item.lead), p1, DocText(item.doc) + GapText(item.trail), q);
  }

  lemma {:induction false} ItemsFed(p: Parser, vs: seq<Json>, items: seq<Item>, d: nat) returns (r: Parser)
    requires AtItem(p, vs) && items != [] && |p.stack| - 1 + d <= p.depth
    requires forall i | 0 <= i < |items| :: ProperItem(items[i], d)
    ensures Reads(p, ItemsText(items) + [93], r) && ClosedAs(p, Arr(vs + ItemValues(items)), r)
    decreases items
  {
    var item, rest := items[0], items[1..];
    var v := ValueOf(item.doc);
    var q := ItemFed(p, item, d);
    if rest == [] {
      r := LastItem(p, vs, v, q);
      ReadsLast(p, ItemText(item), q, 93, r);
      assert ItemValues(items) == [v];
    } else {
      var p1 := NextItem(p, vs, v, q);
      r := ItemsFed(p1, vs + [v], rest, d);
      ItemsMore(p, vs, v, ItemValues(rest), p1, r);
      ReadsLast(p, ItemText(item), q, 44, p1);
      ReadsThen(p, ItemText(item) + [44], p1, ItemsText(rest) + [93], r);
      assert ItemText(item) + [44] + (ItemsText(rest) + [93]) == ItemsText(items) + [93];
    }
  }

  lemma {:induction false} EntryFed(p: Parser, ms: seq<Member>, e: Entry, d: nat) returns (p2: Parser, q: Parser)
    requires AtMember(p, ms) && ProperEntry(e, d) && |p.stack| - 1 + d <= p.depth
    ensures Reads(p, EntryText(e), q) && KeyRead(p, StrValue(e.key), p2) && ValueRead(p2, ValueOf(e.item.doc), q)
    decreases e
  {
    p2 := KeyFed(p, ms, e);
    q := ItemFed(p2, e.item, d);
    ReadsThen(p, KeyText(e), p2, ItemText(e.item), q);
  }

  lemma {:induction false} EntriesFed(p: Parser, ms: seq<Member>, entries: seq<Entry>, d: nat) returns (r: Parser)
    requires AtMember(p, ms) && entries != [] && |p.stack| - 1 + d <= p.depth
    requires forall i | 0 <= i < |entries| :: ProperEntry(entries[i], d)
    ensures Reads(p, EntriesText(entries) + [125], r) && ClosedAs(p, Dict(InsertAll(ms, EntryMembers(entries))), r)
    decreases entries
  {
    var e, rest := entries[0], entries[1..];
    var m := Member(StrValue(e.key), ValueOf(e.item.doc));
    var ms' := Insert(ms, m.key, m.value);
    var p2, q := EntryFed(p, ms, e, d);
    if rest == [] {
      r := LastMember(p, ms, m, p2, q);
      ReadsLast(p, EntryText(e), q, 125, r);
      assert EntryMembers(entries) == [m] && InsertAll(ms, [m]) == ms';
    } else {
      var p1 := NextMember(p, ms, m, p2, q);
      r := EntriesFed(p1, ms', rest, d);
      assert EntryMembers(entries)[1..] == EntryMembers(rest);
      WithTopAgain(p, p1, Dict(ms'), Dict(InsertAll(ms, EntryMembers(entries))), r);
      ReadsLast(p, EntryText(e), q, 44, p1);
      ReadsThen(p, EntryText(e) + [44], p1, EntriesText(rest) + [125], r);
      assert EntryText(e) + [44] + (EntriesText(rest) + [125]) == EntriesText(entries) + [125];
    }
  }

  /** An empty container, white space and comments inside. */
  lemma EmptyDocFed(p: Parser, c: int, p1: Parser, g: Gap) returns (q: Parser)
    requires Opened(p, c, p1) && Idle(p1) && ProperGap(g)
    ensures Reads(p1, GapText(g) + [if c == 91 then 93 else 125], q)
    ensures ClosedAs(p1, if c == 91 then Arr([]) else Dict([]), q)
  {
    var p2 := GapSkipped(p1, g);
    q := EmptyFed(p, c, p2);
    ReadsLast(p1, GapText(g), p2, if c == 91 then 93 else 125, q);
  }

  lemma {:induction false} ArrDocFed(p: Parser, doc: Doc, d: nat) returns (q: Parser)
    requires AtContainer(p) && doc.ArrDoc? && ProperDoc(doc, d) && |p.stack| - 1 + d <= p.depth
    ensures Reads(p, DocText(doc), q) && ContainerDone(p, ValueOf(doc), q)
    decreases doc, 0
  {
    var p1 := Open(p, 91);
    if doc.items == [] {
      q := EmptyDocFed(p, 91, p1, doc.inner);
      assert ItemValues(doc.items) == [];
    } else {
      q := ItemsFed(p1, [], doc.items, d - 1);
      assert [] + ItemValues(doc.items) == ItemValues(doc.items);
    }
    ReadsFirst(p, 91, p1, (if doc.items == [] then GapText(doc.inner) else ItemsText(doc.items)) + [93], q);
    Reclose(p, 91, p1, ValueOf(doc), q);
  }

  lemma {:induction false} DictDocFed(p: Parser, doc: Doc, d: nat) returns (q: Parser)
    requires AtContainer(p) && doc.DictDoc? && ProperDoc(doc, d) && |p.stack| - 1 + d <= p.depth
    ensures Reads(p, DocText(doc), q) && ContainerDone(p, ValueOf(doc), q)
    decreases doc, 0
  {
    var p1 := Open(p, 123);
    var none: seq<Member> := [];
    assert ValueOf(doc) == Dict(InsertAll(none, EntryMembers(doc.entries)));
    if doc.entries == [] {
      q := EmptyDocFed(p, 123, p1, doc.inner);
      assert EntryMembers(doc.entries) == [];
    } else {
      q := EntriesFed(p1, none, doc.entries, d - 1);
    }
    ReadsFirst(p, 123, p1, (if doc.entries == [] then GapText(doc.inner) else EntriesText(doc.entries)) + [125], q);
    Reclose(p, 123, p1, ValueOf(doc), q);
  }

  /** Every text of an array or object, of at most `depth` nested containers, is
      accepted whole and builds the tree it means. */
  lemma DocParsed(item: Item, depth: nat)
    requires (item.doc.ArrDoc? || item.doc.DictDoc?) && depth > 0 && ProperItem(item, depth)
    ensures var o := Feed(NewParser(depth), ItemText(item));
            o.Accepted? && Done(o.p) && o.p.b.mystack == [] && o.p.b.root == Some(ValueOf(item.doc))
  {
    var p := NewParser(depth);
    var p1 := GapSkipped(p, item.lead);
    var q1;
    if item.doc.ArrDoc? { q1 := ArrDocFed(p1, item.doc, depth); } else { q1 := DictDocFed(p1, item.doc, depth); }
    var q := GapSkipped(q1, item.trail);
    ReadsThen(p1, DocText(item.doc), q1, GapText(item.trail), q);
    ReadsThen(p, GapText(item.lead), p1, DocText(item.doc) + GapText(item.trail), q);
    ReadsIs(p, ItemText(item), q);
  }
}
