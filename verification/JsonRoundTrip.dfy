/** Printing a tree and parsing the text gives the tree back. */
module JsonRoundTrip {
  import opened Basics
  import opened JsonTable
  import opened JsonTree
  import opened JsonParser
  import opened JsonSafe
  import opened JsonSteps
  import opened JsonValues
  import opened JsonText
  import opened JsonDoc

  // ----- The printer (json_object::get_string)

  function Decimal(n: nat): Text {
    if n < 10 then [48 + n] else Decimal(n / 10) + [48 + n % 10]
  }

  function PrintInt(n: int): Text { if n < 0 then [45] + Decimal(-n) else Decimal(n) }

  function Quoted(s: Text): Text { [34] + s + [34] }

  /** Each item followed by a comma. */
  function PrintItems(vs: seq<Json>): Text {
    if vs == [] then [] else Print(vs[0]) + [44] + PrintItems(vs[1..])
  }

  function PrintMembers(ms: seq<Member>): Text {
    if ms == [] then [] else Quoted(ms[0].key) + [58] + Print(ms[0].value) + [44] + PrintMembers(ms[1..])
  }

  /** A last comma is dropped, if there is anything to drop. */
  function Trim(t: Text): Text { if |t| > 1 then t[..|t| - 1] else t }

  function Print(v: Json): Text {
    match v
    case Arr(vs) => Trim([91] + PrintItems(vs)) + [93]
    case Dict(ms) => Trim([123] + PrintMembers(ms)) + [125]
    case Int(n) => PrintInt(n)
    case Float(t) => t
    case Null => NULL_TEXT
    case Bool(b) => if b then TRUE_TEXT else FALSE_TEXT
    case Str(s) => Quoted(s)
  }

  // ----- What can be printed so that it reads back

  predicate PlainText(s: Text) { forall c | c in s :: PlainChar(c) }

  ghost predicate DistinctKeys(ms: seq<Member>) {
    forall i, j | 0 <= i < j < |ms| :: ms[i].key != ms[j].key
  }

  /** No floats; text of bytes from 0x20 up without quote or backslash; 32-bit
      integers; at most `d` containers within each other. */
  ghost predicate Printable(v: Json, d: nat) {
    match v
    case Arr(vs) => d > 0 && forall i | 0 <= i < |vs| :: Printable(vs[i], d - 1)
    case Dict(ms) => d > 0 && DistinctKeys(ms) && forall i | 0 <= i < |ms| :: PlainText(ms[i].key) && Printable(ms[i].value, d - 1)
    case Int(n) => -0x8000_0000 <= n < 0x8000_0000
    case Float(_) => false
    case Str(s) => PlainText(s)
    case _ => true
  }

  /** Items separated by commas. */
  function JoinItems(vs: seq<Json>): Text
    requires vs != []
  {
    if |vs| == 1 then Print(vs[0]) else Print(vs[0]) + [44] + JoinItems(vs[1..])
  }

  function JoinMembers(ms: seq<Member>): Text
    requires ms != []
  {
    var m := Quoted(ms[0].key) + [58] + Print(ms[0].value);
    if |ms| == 1 then m else m + [44] + JoinMembers(ms[1..])
  }

  lemma {:induction false} ItemsJoined(vs: seq<Json>)
    requires vs != []
    ensures PrintItems(vs) == JoinItems(vs) + [44]
  {
    if |vs| > 1 {
      ItemsJoined(vs[1..]);
    } else {
      assert PrintItems(vs[1..]) == [];
    }
  }

  lemma {:induction false} MembersJoined(ms: seq<Member>)
    requires ms != []
    ensures PrintMembers(ms) == JoinMembers(ms) + [44]
  {
    if |ms| > 1 {
      MembersJoined(ms[1..]);
    } else {
      assert PrintMembers(ms[1..]) == [];
    }
  }

  // ----- Numbers

  lemma {:induction false} DecimalDigits(n: nat)
    ensures AllDigits(Decimal(n)) && Decimal(n) != []
    ensures n > 0 ==> Decimal(n)[0] != 48
  {
    if n >= 10 { DecimalDigits(n / 10); }
  }

  lemma {:induction false} DigitsSnoc(s: Text, c: uint8, acc: nat)
    requires AllDigits(s) && 48 <= c <= 57
    ensures Digits(s + [c], acc) == 10 * Digits(s, acc) + (c - 48)
    decreases |s|
  {
    if s == [] {
      assert s + [c] == [c] && [c][1..] == [];
      assert Digits([c], acc) == Digits([], 10 * acc + (c - 48));
    } else {
      assert (s + [c])[1..] == s[1..] + [c];
      DigitsSnoc(s[1..], c, 10 * acc + (s[0] - 48));
    }
  }

  lemma {:induction false} DecimalValue(n: nat)
    ensures AllDigits(Decimal(n)) && Digits(Decimal(n), 0) == n
  {
    DecimalDigits(n);
    if n >= 10 {
      DecimalValue(n / 10);
      DigitsSnoc(Decimal(n / 10), 48 + n % 10, 0);
    } else {
      assert [48 + n][1..] == [];
    }
  }

  lemma IntValue(n: int)
    requires -0x8000_0000 <= n < 0x8000_0000
    ensures forall c | c in PrintInt(n) :: 0 <= c < 256
    ensures ToInt32(ScanLong(PrintInt(n))) == n
  {
    if n < 0 {
      DecimalValue(-n);
      assert ([45] + Decimal(-n))[1..] == Decimal(-n);
    } else {
      DecimalValue(n);
      DecimalDigits(n);
      assert Decimal(n)[0] in Decimal(n);
    }
  }

  // ----- A printed tree as a document

  function PlainPieces(s: Text): seq<Piece> { seq(|s|, i requires 0 <= i < |s| => Itself(s[i])) }

  lemma {:induction false} PlainSpelled(s: Text)
    requires PlainText(s)
    ensures AllProper(PlainPieces(s)) && SpellingOf(PlainPieces(s)) == s && MeaningOf(PlainPieces(s)) == s
  {
    forall x | x in PlainPieces(s) ensures Proper(x) {
      var i :| 0 <= i < |s| && PlainPieces(s)[i] == x;
      assert s[i] in s;
    }
    if s != [] {
      assert PlainPieces(s)[1..] == PlainPieces(s[1..]);
      PlainSpelled(s[1..]);
      assert s == [s[0]] + s[1..];
    }
  }

  lemma {:induction false} PlainIsWhole(s: Text)
    requires PlainText(s)
    ensures CString(s) == s
  {
    if s != [] {
      assert s[0] in s;
      PlainIsWhole(s[1..]);
    }
  }

  lemma PlainString(s: Text)
    requires PlainText(s)
    ensures AllProper(PlainPieces(s)) && StrText(PlainPieces(s)) == Quoted(s) && StrValue(PlainPieces(s)) == s
  {
    PlainSpelled(s);
    PlainIsWhole(s);
  }

  function IntNumber(n: int): Number { Number(n < 0, Decimal(if n < 0 then -n else n), None, None) }

  lemma IntSpelled(n: int)
    requires -0x8000_0000 <= n < 0x8000_0000
    ensures ProperNumber(IntNumber(n)) && NumberText(IntNumber(n)) == PrintInt(n) && NumValue(IntNumber(n)) == Int(n)
  {
    IntValue(n);
    DecimalDigits(if n < 0 then -n else n);
    assert NumberText(IntNumber(n)) == WholeText(IntNumber(n));
  }

  function PlainDoc(v: Json): Doc {
    match v
    case Arr(vs) => ArrDoc(PlainItems(vs), [])
    case Dict(ms) => DictDoc(PlainEntries(ms), [])
    case Int(n) => NumDoc(IntNumber(n))
    case Bool(b) => BoolDoc(b)
    case Str(s) => StrDoc(PlainPieces(s))
    case _ => NullDoc
  }

  function PlainItems(vs: seq<Json>): seq<Item> {
    if vs == [] then [] else [Item([], PlainDoc(vs[0]), [])] + PlainItems(vs[1..])
  }

  function PlainEntries(ms: seq<Member>): seq<Entry> {
    if ms == [] then [] else [Entry([], PlainPieces(ms[0].key), [], Item([], PlainDoc(ms[0].value), []))] + PlainEntries(ms[1..])
  }

  /** The text of a container, once its parts are put together. */
  lemma ArrayText(vs: seq<Json>)
    ensures Print(Arr(vs)) == [91] + (if vs == [] then [93] else JoinItems(vs) + [93])
  {
    if vs != [] {
      ItemsJoined(vs);
      assert Trim([91] + PrintItems(vs)) == [91] + JoinItems(vs);
    }
  }

  lemma DictText(ms: seq<Member>)
    ensures Print(Dict(ms)) == [123] + (if ms == [] then [125] else JoinMembers(ms) + [125])
  {
    if ms != [] {
      MembersJoined(ms);
      assert Trim([123] + PrintMembers(ms)) == [123] + JoinMembers(ms);
    }
  }

  lemma {:induction false} PlainIsDoc(v: Json, d: nat)
    requires Printable(v, d)
    ensures ProperDoc(PlainDoc(v), d) && DocText(PlainDoc(v)) == Print(v) && ValueOf(PlainDoc(v)) == v
    decreases v
  {
    match v
    case Arr(vs) =>
      PlainItemsAre(vs, d - 1);
      ArrayText(vs);
    case Dict(ms) =>
      PlainEntriesAre(ms, d - 1);
      PlainDictIs(ms, d);
    case Int(n) => IntSpelled(n);
    case Str(s) => PlainString(s);
    case _ =>
  }

  lemma PlainDictIs(ms: seq<Member>, d: nat)
    requires d > 0 && DistinctKeys(ms) && EntryMembers(PlainEntries(ms)) == ms
    requires forall i | 0 <= i < |PlainEntries(ms)| :: ProperEntry(PlainEntries(ms)[i], d - 1)
    requires ms != [] ==> EntriesText(PlainEntries(ms)) == JoinMembers(ms)
    ensures var doc := DictDoc(PlainEntries(ms), []);
            ProperDoc(doc, d) && DocText(doc) == Print(Dict(ms)) && ValueOf(doc) == Dict(ms)
  {
    assert [] + ms == ms;
    DistinctMembers([], ms);
    DictText(ms);
  }

  lemma {:induction false} PlainItemsAre(vs: seq<Json>, d: nat)
    requires forall i | 0 <= i < |vs| :: Printable(vs[i], d)
    ensures forall i | 0 <= i < |PlainItems(vs)| :: ProperItem(PlainItems(vs)[i], d)
    ensures |PlainItems(vs)| == |vs| && ItemValues(PlainItems(vs)) == vs
    ensures vs != [] ==> ItemsText(PlainItems(vs)) == JoinItems(vs)
    decreases vs
  {
    if vs != [] {
      PlainIsDoc(vs[0], d);
      PlainItemsAre(vs[1..], d);
      var item := Item([], PlainDoc(vs[0]), []);
      assert PlainItems(vs)[1..] == PlainItems(vs[1..]);
      assert ItemText(item) == Print(vs[0]);
    }
  }

  /** The keys of both are distinct.  (Said of everything equal to their
      concatenation, so that proofs use it as a whole.) */
  ghost predicate DistinctWith(xs: seq<Member>, ms: seq<Member>) { forall z | z == xs + ms :: DistinctKeys(z) }

  lemma FreshKey(xs: seq<Member>, ms: seq<Member>)
    requires ms != [] && DistinctWith(xs, ms)
    ensures !HasKey(xs, ms[0].key) && DistinctWith(xs + [ms[0]], ms[1..])
  {
    var z := xs + ms;
    assert DistinctKeys(z) && xs + [ms[0]] + ms[1..] == z;
    forall i | 0 <= i < |xs| ensures xs[i].key != ms[0].key {
      assert z[i] == xs[i] && z[|xs|] == ms[0];
    }
  }

  lemma PlainEntryIs(m: Member, d: nat)
    requires PlainText(m.key) && ProperDoc(PlainDoc(m.value), d) && DocText(PlainDoc(m.value)) == Print(m.value)
    ensures var e := Entry([], PlainPieces(m.key), [], Item([], PlainDoc(m.value), []));
            && ProperEntry(e, d) && StrValue(e.key) == m.key
            && EntryText(e) == Quoted(m.key) + [58] + Print(m.value)
  {
    PlainString(m.key);
    var e := Entry([], PlainPieces(m.key), [], Item([], PlainDoc(m.value), []));
    assert ItemText(e.item) == Print(m.value);
    assert KeyText(e) == Quoted(m.key) + [58];
  }

  lemma {:induction false} PlainEntriesAre(ms: seq<Member>, d: nat)
    requires forall i | 0 <= i < |ms| :: PlainText(ms[i].key) && Printable(ms[i].value, d)
    ensures EntryMembers(PlainEntries(ms)) == ms && forall i | 0 <= i < |PlainEntries(ms)| :: ProperEntry(PlainEntries(ms)[i], d)
    ensures |PlainEntries(ms)| == |ms| && (ms != [] ==> EntriesText(PlainEntries(ms)) == JoinMembers(ms))
    decreases ms
  {
    if ms != [] {
      PlainIsDoc(ms[0].value, d);
      PlainEntryIs(ms[0], d);
      PlainEntriesAre(ms[1..], d);
      assert PlainEntries(ms)[1..] == PlainEntries(ms[1..]);
    }
  }

  /** Members with distinct keys are all kept. */
  lemma {:induction false} DistinctMembers(xs: seq<Member>, ms: seq<Member>)
    requires DistinctWith(xs, ms)
    ensures InsertAll(xs, ms) == xs + ms
    decreases |ms|
  {
    if ms == [] {
      assert xs + ms == xs;
    } else {
      FreshKey(xs, ms);
      assert Insert(xs, ms[0].key, ms[0].value) == xs + [ms[0]];
      DistinctMembers(xs + [ms[0]], ms[1..]);
      assert xs + [ms[0]] + ms[1..] == xs + ms;
    }
  }

  /** A printed array or dict of at most `depth` nested containers is accepted,
      and the tree built from it is the one printed. */
  lemma RoundTrip(v: Json, depth: nat)
    requires (v.Arr? || v.Dict?) && depth > 0 && Printable(v, depth)
    ensures var o := Feed(NewParser(depth), Print(v));
            o.Accepted? && Done(o.p) && o.p.b.mystack == [] && o.p.b.root == Some(v)
  {
    PlainIsDoc(v, depth);
    var item := Item([], PlainDoc(v), []);
    DocParsed(item, depth);
    assert ItemText(item) == Print(v);
  }
}
