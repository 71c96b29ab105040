/**
 The byte stream that is hashed to recognise a repeated location. Every piece is tagged,
 length-prefixed or of fixed width, so the whole stream can be read back in one way only.
 Floats are their bit patterns, timestamps their nanosecond counts, strings their bytes.
 */
module DedupEncoding {
  import opened Wrappers

  type Byte = b: int | 0 <= b < 256
  type Bytes = seq<Byte>
  type Uint32 = n: int | 0 <= n < 0x1_0000_0000
  type Uint64 = n: int | 0 <= n < 0x1_0000_0000_0000_0000
  type Int64 = n: int | -0x8000_0000_0000_0000 <= n < 0x8000_0000_0000_0000

  // ---------------------------------------------------------------------------
  // Primitive encoders
  // ---------------------------------------------------------------------------

  function EncBool(b: bool): Bytes {
    [if b then 1 else 0]
  }

  /** Base-128 digits, least significant first, all but the last with the high bit set. */
  function Uvarint(n: nat): (r: Bytes)
    ensures |r| >= 1
  {
    if n < 128 then [n] else [n % 128 + 128] + Uvarint(n / 128)
  }

  /** k bytes, least significant first. */
  function Fixed(n: nat, k: nat): (r: Bytes)
    ensures |r| == k
  {
    if k == 0 then [] else [n % 256] + Fixed(n / 256, k - 1)
  }

  function Pow256(k: nat): nat {
    if k == 0 then 1 else 256 * Pow256(k - 1)
  }

  /** The two's complement reading of a signed 64-bit integer. */
  function Unsigned(n: Int64): (r: Uint64) {
    if n < 0 then n + 0x1_0000_0000_0000_0000 else n
  }

  function EncBytes(b: Bytes): Bytes {
    Uvarint(|b|) + b
  }

  lemma {:induction false} UvarintCancel(m: nat, n: nat, s: Bytes, t: Bytes)
    requires Uvarint(m) + s == Uvarint(n) + t
    ensures m == n && s == t
  {
    UvarintHead(m, s);
    UvarintHead(n, t);
    if m >= 128 {
      UvarintCancel(m / 128, n / 128, s, t);
    }
  }

  lemma UvarintHead(n: nat, s: Bytes)
    ensures var x := Uvarint(n) + s;
            if n < 128 then x[0] == n && x[1..] == s
            else x[0] == n % 128 + 128 && x[1..] == Uvarint(n / 128) + s
  {
  }

  lemma {:induction false} FixedCancel(m: nat, n: nat, k: nat, s: Bytes, t: Bytes)
    requires m < Pow256(k) && n < Pow256(k)
    requires Fixed(m, k) + s == Fixed(n, k) + t
    ensures m == n && s == t
  {
    var x, y := Fixed(m, k) + s, Fixed(n, k) + t;
    if k == 0 {
      assert x == s && y == t;
    } else {
      assert x[0] == m % 256 && y[0] == n % 256;
      assert x[1..] == Fixed(m / 256, k - 1) + s;
      assert y[1..] == Fixed(n / 256, k - 1) + t;
      FixedCancel(m / 256, n / 256, k - 1, s, t);
    }
  }

  lemma Assoc(a: Bytes, b: Bytes, c: Bytes)
    ensures a + b + c == a + (b + c)
  {
  }

  lemma Empty(s: Bytes)
    ensures [] + s == s
  {
  }

  lemma BytesCancel(b: Bytes, c: Bytes, s: Bytes, t: Bytes)
    requires EncBytes(b) + s == EncBytes(c) + t
    ensures b == c && s == t
  {
    Assoc(Uvarint(|b|), b, s);
    Assoc(Uvarint(|c|), c, t);
    UvarintCancel(|b|, |c|, b + s, c + t);
    assert b == (b + s)[..|b|] && s == (b + s)[|b|..];
    assert c == (c + t)[..|c|] && t == (c + t)[|c|..];
  }

  lemma BoolCancel(b: bool, c: bool, s: Bytes, t: Bytes)
    requires EncBool(b) + s == EncBool(c) + t
    ensures b == c && s == t
  {
    assert (EncBool(b) + s)[0] == (EncBool(c) + t)[0];
    assert s == (EncBool(b) + s)[1..] && t == (EncBool(c) + t)[1..];
  }

  lemma WidthBounds()
    ensures Pow256(4) == 0x1_0000_0000 && Pow256(8) == 0x1_0000_0000_0000_0000
  {
  }

  // ---------------------------------------------------------------------------
  // Dynamic values
  // ---------------------------------------------------------------------------

  datatype Tag =
    | NilTag | BoolTag | StringTag | Float32Tag | Float64Tag
    | IntTag | Int8Tag | Int16Tag | Int32Tag | Int64Tag
    | UintTag | Uint8Tag | Uint16Tag | Uint32Tag | Uint64Tag
    | ListTag | MapTag | StringsTag | FallbackTag

  function TagText(t: Tag): string {
    match t
    case NilTag => "nil" case BoolTag => "bool" case StringTag => "string"
    case Float32Tag => "float32" case Float64Tag => "float64"
    case IntTag => "int" case Int8Tag => "int8" case Int16Tag => "int16"
    case Int32Tag => "int32" case Int64Tag => "int64"
    case UintTag => "uint" case Uint8Tag => "uint8" case Uint16Tag => "uint16"
    case Uint32Tag => "uint32" case Uint64Tag => "uint64"
    case ListTag => "[]any" case MapTag => "map[string]any"
    case StringsTag => "[]string" case FallbackTag => "fallback"
  }

  function Text(s: string): (b: Bytes)
    requires forall i :: 0 <= i < |s| ==> s[i] as int < 256
    ensures |b| == |s| && forall i :: 0 <= i < |s| ==> b[i] == s[i] as int
  {
    seq(|s|, i requires 0 <= i < |s| => s[i] as int)
  }

  function TagBytes(t: Tag): Bytes {
    Text(TagText(t))
  }

  /** Length, first and last letter tell the tags apart. */
  lemma TagsDistinct(t: Tag, u: Tag)
    requires TagBytes(t) == TagBytes(u)
    ensures t == u
  {
    var a, b := TagText(t), TagText(u);
    assert |a| == |TagBytes(t)| == |b|;
    assert a[0] as int == TagBytes(t)[0] == b[0] as int;
    assert a[|a| - 1] as int == TagBytes(t)[|a| - 1] == b[|b| - 1] as int;
  }

  /** The dynamic types a decoded property may hold; anything else is hashed as its JSON text. */
  datatype Value =
    | NilV
    | BoolV(flag: bool)
    | StringV(text: Bytes)
    | Float32V(bits32: Uint32)
    | Float64V(bits64: Uint64)
    | SignedV(width: SignedWidth, signed: Int64)
    | UnsignedV(uwidth: UnsignedWidth, unsigned: Uint64)
    | ListV(items: seq<Value>)
    | MapV(entries: map<Bytes, Value>)
    | StringsV(strings: seq<Bytes>)
    | FallbackV(json: Bytes)

  datatype SignedWidth = I | I8 | I16 | I32 | I64
  datatype UnsignedWidth = U | U8 | U16 | U32 | U64

  function TagOf(v: Value): Tag {
    match v
    case NilV => NilTag
    case BoolV(_) => BoolTag
    case StringV(_) => StringTag
    case Float32V(_) => Float32Tag
    case Float64V(_) => Float64Tag
    case SignedV(w, _) =>
      (match w case I => IntTag case I8 => Int8Tag case I16 => Int16Tag case I32 => Int32Tag case I64 => Int64Tag)
    case UnsignedV(w, _) =>
      (match w case U => UintTag case U8 => Uint8Tag case U16 => Uint16Tag case U32 => Uint32Tag case U64 => Uint64Tag)
    case ListV(_) => ListTag
    case MapV(_) => MapTag
    case StringsV(_) => StringsTag
    case FallbackV(_) => FallbackTag
  }

  // ---------------------------------------------------------------------------
  // Key order
  // ---------------------------------------------------------------------------

  /** Byte-wise string order. */
  predicate Before(a: Bytes, b: Bytes) {
    if a == [] then b != []
    else b != [] && (a[0] < b[0] || (a[0] == b[0] && Before(a[1..], b[1..])))
  }

  lemma {:induction false} BeforeTotal(a: Bytes, b: Bytes)
    ensures Before(a, b) || Before(b, a) || a == b
  {
    if a != [] && b != [] && a[0] == b[0] {
      BeforeTotal(a[1..], b[1..]);
      assert a == [a[0]] + a[1..] && b == [b[0]] + b[1..];
    }
  }

  lemma {:induction false} BeforeTransitive(a: Bytes, b: Bytes, c: Bytes)
    requires Before(a, b) && Before(b, c)
    ensures Before(a, c)
  {
    if a != [] && a[0] == b[0] == c[0] {
      BeforeTransitive(a[1..], b[1..], c[1..]);
    }
  }

  lemma {:induction false} BeforeIrreflexive(a: Bytes)
    ensures !Before(a, a)
  {
    if a != [] {
      BeforeIrreflexive(a[1..]);
    }
  }

  ghost predicate Ascending(ks: seq<Bytes>) {
    forall i, j :: 0 <= i < j < |ks| ==> Before(ks[i], ks[j])
  }

  ghost predicate Lists(ks: seq<Bytes>, keys: set<Bytes>) {
    forall k :: k in ks <==> k in keys
  }

  /** Inserting a new key into an ascending list. */
  function Insert(k: Bytes, ks: seq<Bytes>): (r: seq<Bytes>) {
    if ks == [] || Before(k, ks[0]) then [k] + ks else [ks[0]] + Insert(k, ks[1..])
  }

  lemma {:induction false} InsertAscending(k: Bytes, ks: seq<Bytes>)
    requires Ascending(ks) && k !in ks
    ensures Ascending(Insert(k, ks))
    ensures forall x :: x in Insert(k, ks) <==> x == k || x in ks
  {
    var r := Insert(k, ks);
    if ks == [] {
    } else if Before(k, ks[0]) {
      forall j | 0 <= j < |ks| ensures Before(k, ks[j]) {
        if j > 0 {
          BeforeTransitive(k, ks[0], ks[j]);
        }
      }
    } else {
      BeforeTotal(k, ks[0]);
      var tail := Insert(k, ks[1..]);
      InsertAscending(k, ks[1..]);
      assert ks == [ks[0]] + ks[1..];
      forall j | 0 <= j < |tail| ensures Before(ks[0], tail[j]) {
        assert tail[j] in tail;
      }
    }
  }

  /** The keys of a map in ascending order. */
  ghost function SortedKeys(keys: set<Bytes>): (ks: seq<Bytes>)
    ensures Ascending(ks) && Lists(ks, keys)
  {
    if keys == {} then [] else
      var k :| k in keys;
      var rest := SortedKeys(keys - {k});
      InsertAscending(k, rest);
      Insert(k, rest)
  }

  /** There is only one ascending list of a set of keys, whatever order they were collected in. */
  lemma {:induction false} AscendingUnique(a: seq<Bytes>, b: seq<Bytes>)
    requires Ascending(a) && Ascending(b) && forall k :: k in a <==> k in b
    ensures a == b
  {
    assert |b| > 0 ==> b[0] in a;
    if a != [] {
      assert a[0] in b;
      HeadsAgree(a, b);
      forall k ensures k in a[1..] <==> k in b[1..] {
        TailMember(a, k);
        TailMember(b, k);
      }
      AscendingUnique(a[1..], b[1..]);
      assert a == [a[0]] + a[1..] && b == [b[0]] + b[1..];
    }
  }

  lemma HeadsAgree(a: seq<Bytes>, b: seq<Bytes>)
    requires Ascending(a) && Ascending(b) && a != [] && b != []
    requires a[0] in b && b[0] in a
    ensures a[0] == b[0]
  {
    if a[0] != b[0] {
      var i :| 0 <= i < |b| && b[i] == a[0];
      var j :| 0 <= j < |a| && a[j] == b[0];
      BeforeTransitive(a[0], b[0], a[0]);
      BeforeIrreflexive(a[0]);
    }
  }

  lemma TailMember(a: seq<Bytes>, k: Bytes)
    requires Ascending(a) && a != []
    ensures k in a[1..] <==> k in a && k != a[0]
  {
    assert a == [a[0]] + a[1..];
    BeforeIrreflexive(a[0]);
  }

  // ---------------------------------------------------------------------------
  // Encoding values
  // ---------------------------------------------------------------------------

  function EncStrings(ss: seq<Bytes>): Bytes {
    if ss == [] then [] else EncBytes(ss[0]) + EncStrings(ss[1..])
  }

  ghost function EncValue(v: Value): Bytes
    decreases v, 2, 0
  {
    EncBytes(TagBytes(TagOf(v))) + EncBody(v)
  }

  ghost function EncBody(v: Value): Bytes
    decreases v, 1, 0
  {
    match v
    case NilV => []
    case BoolV(b) => EncBool(b)
    case StringV(s) => EncBytes(s)
    case Float32V(n) => Fixed(n, 4)
    case Float64V(n) => Fixed(n, 8)
    case SignedV(_, n) => Fixed(Unsigned(n), 8)
    case UnsignedV(_, n) => Fixed(n, 8)
    case ListV(items) => Uvarint(|items|) + EncItems(items)
    case MapV(m) => Uvarint(|SortedKeys(m.Keys)|) + EncEntries(v, SortedKeys(m.Keys))
    case StringsV(ss) => Uvarint(|ss|) + EncStrings(ss)
    case FallbackV(json) => EncBytes(json)
  }

  ghost function EncItems(items: seq<Value>): Bytes
    decreases items
  {
    if items == [] then [] else EncValue(items[0]) + EncItems(items[1..])
  }

  ghost function EncEntries(v: Value, ks: seq<Bytes>): Bytes
    requires v.MapV? && forall k :: k in ks ==> k in v.entries
    decreases v, 0, |ks|
  {
    if ks == [] then [] else
      EncBytes(ks[0]) + (EncValue(v.entries[ks[0]]) + EncEntries(v, ks[1..]))
  }

  // ---------------------------------------------------------------------------
  // Unique decodability of values
  // ---------------------------------------------------------------------------

  lemma {:induction false} StringsCancel(a: seq<Bytes>, b: seq<Bytes>, s: Bytes, t: Bytes)
    requires |a| == |b| && EncStrings(a) + s == EncStrings(b) + t
    ensures a == b && s == t
  {
    if a == [] {
      Empty(s);
      Empty(t);
    } else {
      Assoc(EncBytes(a[0]), EncStrings(a[1..]), s);
      Assoc(EncBytes(b[0]), EncStrings(b[1..]), t);
      BytesCancel(a[0], b[0], EncStrings(a[1..]) + s, EncStrings(b[1..]) + t);
      StringsCancel(a[1..], b[1..], s, t);
      assert a == [a[0]] + a[1..] && b == [b[0]] + b[1..];
    }
  }

  lemma CountedStringsCancel(a: seq<Bytes>, b: seq<Bytes>, s: Bytes, t: Bytes)
    requires Uvarint(|a|) + EncStrings(a) + s == Uvarint(|b|) + EncStrings(b) + t
    ensures a == b && s == t
  {
    Assoc(Uvarint(|a|), EncStrings(a), s);
    Assoc(Uvarint(|b|), EncStrings(b), t);
    UvarintCancel(|a|, |b|, EncStrings(a) + s, EncStrings(b) + t);
    StringsCancel(a, b, s, t);
  }

  /** A value can be read off the front of a stream in only one way. */
  lemma {:induction false} ValueCancel(v: Value, w: Value, s: Bytes, t: Bytes)
    requires EncValue(v) + s == EncValue(w) + t
    ensures v == w && s == t
    decreases v, 2, 0
  {
    var tv, tw := EncBytes(TagBytes(TagOf(v))), EncBytes(TagBytes(TagOf(w)));
    Assoc(tv, EncBody(v), s);
    Assoc(tw, EncBody(w), t);
    BytesCancel(TagBytes(TagOf(v)), TagBytes(TagOf(w)), EncBody(v) + s, EncBody(w) + t);
    TagsDistinct(TagOf(v), TagOf(w));
    BodyCancel(v, w, s, t);
  }

  lemma {:induction false} BodyCancel(v: Value, w: Value, s: Bytes, t: Bytes)
    requires TagOf(v) == TagOf(w) && EncBody(v) + s == EncBody(w) + t
    ensures v == w && s == t
    decreases v, 1, 0
  {
    match v {
      case ListV(items) => ListCancel(v, w, s, t);
      case MapV(m) => MapCancel(v, w, s, t);
      case _ => ScalarCancel(v, w, s, t);
    }
  }

  lemma ScalarCancel(v: Value, w: Value, s: Bytes, t: Bytes)
    requires !v.ListV? && !v.MapV? && TagOf(v) == TagOf(w) && EncBody(v) + s == EncBody(w) + t
    ensures v == w && s == t
  {
    WidthBounds();
    match v {
      case NilV => assert EncBody(v) + s == s && EncBody(w) + t == t;
      case BoolV(b) => BoolCancel(b, w.flag, s, t);
      case StringV(b) => BytesCancel(b, w.text, s, t);
      case Float32V(n) => FixedCancel(n, w.bits32, 4, s, t);
      case Float64V(n) => FixedCancel(n, w.bits64, 8, s, t);
      case SignedV(_, n) => FixedCancel(Unsigned(n), Unsigned(w.signed), 8, s, t);
      case UnsignedV(_, n) => FixedCancel(n, w.unsigned, 8, s, t);
      case StringsV(ss) => CountedStringsCancel(ss, w.strings, s, t);
      case FallbackV(json) => BytesCancel(json, w.json, s, t);
    }
  }

  lemma {:induction false} ListCancel(v: Value, w: Value, s: Bytes, t: Bytes)
    requires v.ListV? && w.ListV? && EncBody(v) + s == EncBody(w) + t
    ensures v == w && s == t
    decreases v, 0, 0
  {
    var a, b := v.items, w.items;
    Assoc(Uvarint(|a|), EncItems(a), s);
    Assoc(Uvarint(|b|), EncItems(b), t);
    UvarintCancel(|a|, |b|, EncItems(a) + s, EncItems(b) + t);
    ItemsCancel(a, b, s, t);
  }

  lemma {:induction false} ItemsCancel(a: seq<Value>, b: seq<Value>, s: Bytes, t: Bytes)
    requires |a| == |b| && EncItems(a) + s == EncItems(b) + t
    ensures a == b && s == t
    decreases a
  {
    if a == [] {
      Empty(s);
      Empty(t);
    } else {
      Assoc(EncValue(a[0]), EncItems(a[1..]), s);
      Assoc(EncValue(b[0]), EncItems(b[1..]), t);
      ValueCancel(a[0], b[0], EncItems(a[1..]) + s, EncItems(b[1..]) + t);
      ItemsCancel(a[1..], b[1..], s, t);
      assert a == [a[0]] + a[1..] && b == [b[0]] + b[1..];
    }
  }

  lemma {:induction false} MapCancel(v: Value, w: Value, s: Bytes, t: Bytes)
    requires v.MapV? && w.MapV? && EncBody(v) + s == EncBody(w) + t
    ensures v == w && s == t
    decreases v, 0, |SortedKeys(v.entries.Keys)| + 1
  {
    var a, b := SortedKeys(v.entries.Keys), SortedKeys(w.entries.Keys);
    Assoc(Uvarint(|a|), EncEntries(v, a), s);
    Assoc(Uvarint(|b|), EncEntries(w, b), t);
    UvarintCancel(|a|, |b|, EncEntries(v, a) + s, EncEntries(w, b) + t);
    EntriesCancel(v, w, a, b, s, t);
    SameEntries(v.entries, w.entries, a);
  }

  lemma SameEntries(m: map<Bytes, Value>, n: map<Bytes, Value>, ks: seq<Bytes>)
    requires Lists(ks, m.Keys) && Lists(ks, n.Keys) && forall k :: k in ks ==> m[k] == n[k]
    ensures m == n
  {
    forall k ensures k in m <==> k in n {
      assert k in ks <==> k in m.Keys;
      assert k in ks <==> k in n.Keys;
    }
    forall k | k in m ensures m[k] == n[k] {
      assert k in ks;
    }
    assert m.Keys == n.Keys;
  }

  lemma {:induction false} EntriesCancel(v: Value, w: Value, a: seq<Bytes>, b: seq<Bytes>, s: Bytes, t: Bytes)
    requires v.MapV? && w.MapV? && |a| == |b|
    requires (forall k :: k in a ==> k in v.entries) && (forall k :: k in b ==> k in w.entries)
    requires EncEntries(v, a) + s == EncEntries(w, b) + t
    ensures a == b && s == t && forall k :: k in a ==> v.entries[k] == w.entries[k]
    decreases v, 0, |a|
  {
    if a == [] {
      Empty(s);
      Empty(t);
    } else {
      var x, y := EncValue(v.entries[a[0]]), EncValue(w.entries[b[0]]);
      var p, q := EncEntries(v, a[1..]) + s, EncEntries(w, b[1..]) + t;
      Assoc(EncBytes(a[0]), x + EncEntries(v, a[1..]), s);
      Assoc(x, EncEntries(v, a[1..]), s);
      Assoc(EncBytes(b[0]), y + EncEntries(w, b[1..]), t);
      Assoc(y, EncEntries(w, b[1..]), t);
      BytesCancel(a[0], b[0], x + p, y + q);
      ValueCancel(v.entries[a[0]], w.entries[b[0]], p, q);
      EntriesCancel(v, w, a[1..], b[1..], s, t);
      assert a == [a[0]] + a[1..] && b == [b[0]] + b[1..];
    }
  }
}
