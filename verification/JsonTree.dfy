/** JSON trees, and how the parser's callback builds one (src/lib/json_object.cc). */
module JsonTree {
  import opened Basics

  type Text = seq<uint8>

  datatype Member = Member(key: Text, value: Json)

  /** A dict lists its members in the order the hash map would iterate. */
  datatype Json =
    | Arr(items: seq<Json>) | Dict(members: seq<Member>)
    | Int(n: int) | Float(text: Text) | Null | Bool(b: bool) | Str(s: Text)

  /** A container still open, and the key under which it goes into its parent. */
  datatype Frame = Frame(key: Text, node: Json)

  /** `mystack` has the innermost container last. */
  datatype Builder = Builder(mystack: seq<Frame>, lastkey: Text, root: Option<Json>)

  datatype Event =
    | ArrayBegin | ArrayEnd | ObjectBegin | ObjectEnd | Key(k: Text)
    | Value(v: Json)

  predicate HasKey(ms: seq<Member>, k: Text) { exists i | 0 <= i < |ms| :: ms[i].key == k }

  /** A hash map's insert keeps the first value of a key. */
  function Insert(ms: seq<Member>, k: Text, v: Json): seq<Member> {
    if HasKey(ms, k) then ms else ms + [Member(k, v)]
  }

  function Attach(node: Json, k: Text, v: Json): Json {
    match node
    case Dict(ms) => Dict(Insert(ms, k, v))
    case Arr(vs) => Arr(vs + [v])
    case _ => node
  }

  function Put(b: Builder, k: Text, v: Json): Builder {
    if b.mystack == [] then b.(root := Some(v))
    else
      var top := |b.mystack| - 1;
      b.(mystack := b.mystack[top := b.mystack[top].(node := Attach(b.mystack[top].node, k, v))])
  }

  /** The callback; None where it pops an empty stack. */
  function Cb(b: Builder, e: Event): Option<Builder> {
    match e
    case ArrayBegin => Some(b.(mystack := b.mystack + [Frame(b.lastkey, Arr([]))]))
    case ObjectBegin => Some(b.(mystack := b.mystack + [Frame(b.lastkey, Dict([]))]))
    case ArrayEnd => Close(b)
    case ObjectEnd => Close(b)
    case Key(k) => Some(b.(lastkey := CString(k)))
    case Value(v) => Some(Put(b, b.lastkey, v))
  }

  function Close(b: Builder): Option<Builder> {
    if b.mystack == [] then None
    else
      var top := |b.mystack| - 1;
      Some(Put(b.(mystack := b.mystack[..top]), b.mystack[top].key, b.mystack[top].node))
  }

  /** A C string ends at its first NUL. */
  function CString(s: Text): Text {
    if s == [] || s[0] == 0 then [] else [s[0]] + CString(s[1..])
  }

  const INT64_MAX := 0x7fff_ffff_ffff_ffff

  /** What the decimal text at the front of `s` converts to as a long. */
  function ScanLong(s: Text): int {
    if s != [] && s[0] == 45 then
      var n: int := Digits(s[1..], 0);
      Clamp(-n)
    else Clamp(Digits(s, 0))
  }

  function Digits(s: Text, acc: nat): nat {
    if s == [] || !(48 <= s[0] <= 57) then acc else Digits(s[1..], 10 * acc + (s[0] - 48))
  }

  function Clamp(n: int): int {
    if n > INT64_MAX then INT64_MAX else if n < -INT64_MAX - 1 then -INT64_MAX - 1 else n
  }

  /** A long stored in an int. */
  function ToInt32(n: int): int {
    var m := n % 0x1_0000_0000;
    if m >= 0x8000_0000 then m - 0x1_0000_0000 else m
  }

  /** A string with a NUL in it is cut short, and no other. */
  lemma {:induction false} CStringExact(s: Text)
    ensures CString(s) == s <==> 0 !in s
  {
    if s != [] && s[0] != 0 {
      CStringExact(s[1..]);
      assert s == [s[0]] + s[1..];
    }
  }

  lemma {:induction false} CStringCuts(s: Text, n: nat)
    requires n < |s| && s[n] == 0 && 0 !in s[..n]
    ensures CString(s) == s[..n]
  {
    if n > 0 {
      assert s[..n][0] == s[0] && s[..n][1..] == s[1..][..n - 1];
      CStringCuts(s[1..], n - 1);
    }
  }
}
