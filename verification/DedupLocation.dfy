/**
 The dedup key of a location: its fields fed one after the other to a hasher. Equal
 streams come from equal locations.
 */
module DedupLocation {
  import opened Wrappers
  import opened DedupEncoding

  datatype Location = Location(
    providerId: Bytes,
    providerType: Bytes,
    source: Bytes,
    crs: Option<Bytes>,
    associated: Option<bool>,
    accuracy: Option<Uint32>,
    course: Option<Uint32>,
    elevationRef: Option<Bytes>,
    floor: Option<Uint32>,
    headingAccuracy: Option<Uint32>,
    magneticHeading: Option<Uint32>,
    positionType: Bytes,
    coordinates: Bytes,
    properties: Option<map<Bytes, Value>>,
    speed: Option<Uint32>,
    timestampGenerated: Option<Int64>,
    timestampSent: Option<Int64>,
    trackables: Option<seq<Bytes>>,
    trueHeading: Option<Uint32>)

  /** One call of a hash helper. */
  datatype Field =
    | Text(text: Bytes)
    | Raw(raw: Bytes)
    | OptionalText(optText: Option<Bytes>)
    | OptionalBool(optBool: Option<bool>)
    | OptionalFloat(optFloat: Option<Uint32>)
    | OptionalTime(optTime: Option<Int64>)
    | OptionalStrings(optStrings: Option<seq<Bytes>>)
    | OptionalProperties(optProperties: Option<map<Bytes, Value>>)

  function Fields(l: Location): (fs: seq<Field>)
    ensures |fs| == 19
  {
    [Text(l.providerId), Text(l.providerType), Text(l.source), OptionalText(l.crs),
     OptionalBool(l.associated), OptionalFloat(l.accuracy), OptionalFloat(l.course),
     OptionalText(l.elevationRef), OptionalFloat(l.floor), OptionalFloat(l.headingAccuracy),
     OptionalFloat(l.magneticHeading), Raw(l.positionType), Raw(l.coordinates),
     OptionalProperties(l.properties), OptionalFloat(l.speed), OptionalTime(l.timestampGenerated),
     OptionalTime(l.timestampSent), OptionalStrings(l.trackables), OptionalFloat(l.trueHeading)]
  }

  predicate SameKind(f: Field, g: Field) {
    match f
    case Text(_) => g.Text?
    case Raw(_) => g.Raw?
    case OptionalText(_) => g.OptionalText?
    case OptionalBool(_) => g.OptionalBool?
    case OptionalFloat(_) => g.OptionalFloat?
    case OptionalTime(_) => g.OptionalTime?
    case OptionalStrings(_) => g.OptionalStrings?
    case OptionalProperties(_) => g.OptionalProperties?
  }

  /** Whether a field starts with a one, the present flag. */
  predicate Present(f: Field) {
    match f
    case Text(_) => true
    case Raw(_) => true
    case OptionalText(o) => o.Some?
    case OptionalBool(o) => o.Some?
    case OptionalFloat(o) => o.Some?
    case OptionalTime(o) => o.Some?
    case OptionalStrings(o) => o.Some?
    case OptionalProperties(o) => o.Some?
  }

  /** What follows the present flag. */
  ghost function Payload(f: Field): Bytes {
    match f
    case Text(s) => EncBytes(s)
    case Raw(b) => EncBytes(b)
    case OptionalText(o) => if o.Some? then EncBytes(o.value) else []
    case OptionalBool(o) => if o.Some? then EncBool(o.value) else []
    case OptionalFloat(o) => if o.Some? then Fixed(o.value, 4) else []
    case OptionalTime(o) => if o.Some? then Fixed(Unsigned(o.value), 8) else []
    case OptionalStrings(o) => if o.Some? then Uvarint(|o.value|) + EncStrings(o.value) else []
    case OptionalProperties(o) => if o.Some? then EncBody(MapV(o.value)) else []
  }

  ghost function EncField(f: Field): Bytes {
    if f.Raw? then Payload(f) else EncBool(Present(f)) + Payload(f)
  }

  ghost function EncFields(fs: seq<Field>): Bytes {
    if fs == [] then [] else EncField(fs[0]) + EncFields(fs[1..])
  }

  ghost function Stream(l: Location): Bytes {
    EncFields(Fields(l))
  }

  // ---------------------------------------------------------------------------
  // Unique decodability of locations
  // ---------------------------------------------------------------------------

  lemma PayloadCancel(f: Field, g: Field, s: Bytes, t: Bytes)
    requires SameKind(f, g) && Present(f) == Present(g) && Payload(f) + s == Payload(g) + t
    ensures f == g && s == t
  {
    WidthBounds();
    if !Present(f) {
      Empty(s);
      Empty(t);
    } else {
      match f {
        case Text(x) => BytesCancel(x, g.text, s, t);
        case Raw(x) => BytesCancel(x, g.raw, s, t);
        case OptionalText(o) => BytesCancel(o.value, g.optText.value, s, t);
        case OptionalBool(o) => BoolCancel(o.value, g.optBool.value, s, t);
        case OptionalFloat(o) => FixedCancel(o.value, g.optFloat.value, 4, s, t);
        case OptionalTime(o) => FixedCancel(Unsigned(o.value), Unsigned(g.optTime.value), 8, s, t);
        case OptionalStrings(o) => CountedStringsCancel(o.value, g.optStrings.value, s, t);
        case OptionalProperties(o) => BodyCancel(MapV(o.value), MapV(g.optProperties.value), s, t);
      }
    }
  }

  lemma FieldCancel(f: Field, g: Field, s: Bytes, t: Bytes)
    requires SameKind(f, g) && EncField(f) + s == EncField(g) + t
    ensures f == g && s == t
  {
    if !f.Raw? {
      Assoc(EncBool(Present(f)), Payload(f), s);
      Assoc(EncBool(Present(g)), Payload(g), t);
      BoolCancel(Present(f), Present(g), Payload(f) + s, Payload(g) + t);
    }
    PayloadCancel(f, g, s, t);
  }

  lemma {:induction false} FieldsCancel(fs: seq<Field>, gs: seq<Field>, s: Bytes, t: Bytes)
    requires |fs| == |gs| && forall i :: 0 <= i < |fs| ==> SameKind(fs[i], gs[i])
    requires EncFields(fs) + s == EncFields(gs) + t
    ensures fs == gs && s == t
  {
    if fs == [] {
      Empty(s);
      Empty(t);
    } else {
      Assoc(EncField(fs[0]), EncFields(fs[1..]), s);
      Assoc(EncField(gs[0]), EncFields(gs[1..]), t);
      FieldCancel(fs[0], gs[0], EncFields(fs[1..]) + s, EncFields(gs[1..]) + t);
      FieldsCancel(fs[1..], gs[1..], s, t);
      assert fs == [fs[0]] + fs[1..] && gs == [gs[0]] + gs[1..];
    }
  }

  /** Two locations with the same stream agree in every field. */
  lemma StreamInjective(l: Location, m: Location)
    requires Stream(l) == Stream(m)
    ensures l == m
  {
    SameShape(l, m);
    FieldsCancel(Fields(l), Fields(m), [], []);
    SameFields(l, m);
  }

  lemma SameShape(l: Location, m: Location)
    ensures forall i :: 0 <= i < 19 ==> SameKind(Fields(l)[i], Fields(m)[i])
  {
  }

  lemma SameFields(l: Location, m: Location)
    requires Fields(l) == Fields(m)
    ensures l == m
  {
  }

  // ---------------------------------------------------------------------------
  // The writers
  // ---------------------------------------------------------------------------

  lemma {:induction false} EncStringsSnoc(ss: seq<Bytes>, x: Bytes)
    ensures EncStrings(ss + [x]) == EncStrings(ss) + EncBytes(x)
  {
    if ss == [] {
      assert ss + [x] == [x] && EncStrings([x]) == EncBytes(x) + [];
    } else {
      assert (ss + [x])[1..] == ss[1..] + [x];
      EncStringsSnoc(ss[1..], x);
      Assoc(EncBytes(ss[0]), EncStrings(ss[1..]), EncBytes(x));
    }
  }

  lemma {:induction false} EncItemsSnoc(items: seq<Value>, x: Value)
    ensures EncItems(items + [x]) == EncItems(items) + EncValue(x)
  {
    if items == [] {
      assert items + [x] == [x] && EncItems([x]) == EncValue(x) + [];
    } else {
      assert (items + [x])[1..] == items[1..] + [x];
      EncItemsSnoc(items[1..], x);
      Assoc(EncValue(items[0]), EncItems(items[1..]), EncValue(x));
    }
  }

  lemma {:induction false} EncEntriesSnoc(v: Value, ks: seq<Bytes>, k: Bytes)
    requires v.MapV? && k in v.entries && forall j :: j in ks ==> j in v.entries
    ensures EncEntries(v, ks + [k]) == EncEntries(v, ks) + (EncBytes(k) + EncValue(v.entries[k]))
    decreases |ks|
  {
    if ks == [] {
      assert ks + [k] == [k];
      assert EncEntries(v, [k]) == EncBytes(k) + (EncValue(v.entries[k]) + []);
    } else {
      assert (ks + [k])[1..] == ks[1..] + [k];
      EncEntriesSnoc(v, ks[1..], k);
      var a, b, c := EncBytes(ks[0]), EncValue(v.entries[ks[0]]), EncEntries(v, ks[1..]);
      var d := EncBytes(k) + EncValue(v.entries[k]);
      Assoc(b, c, d);
      Assoc(a, b + c, d);
    }
  }

  lemma {:induction false} EncFieldsSnoc(fs: seq<Field>, f: Field)
    ensures EncFields(fs + [f]) == EncFields(fs) + EncField(f)
  {
    if fs == [] {
      assert fs + [f] == [f] && EncFields([f]) == EncField(f) + [];
    } else {
      assert (fs + [f])[1..] == fs[1..] + [f];
      EncFieldsSnoc(fs[1..], f);
      Assoc(EncField(fs[0]), EncFields(fs[1..]), EncField(f));
    }
  }

  /** Collect the keys of a map in any order, then sort them. */
  method SortKeys(keys: set<Bytes>) returns (ks: seq<Bytes>)
    ensures ks == SortedKeys(keys)
  {
    ks := [];
    var rest := keys;
    while rest != {}
      invariant rest <= keys && Ascending(ks) && Lists(ks, keys - rest)
      decreases rest
    {
      var k :| k in rest;
      InsertAscending(k, ks);
      ks := Insert(k, ks);
      rest := rest - {k};
    }
    AscendingUnique(ks, SortedKeys(keys));
  }

  class Hasher {
    var written: Bytes

    constructor ()
      ensures written == []
    {
      written := [];
    }

    method HashBool(b: bool)
      modifies this
      ensures written == old(written) + EncBool(b)
    {
      written := written + [if b then 1 else 0];
    }

    method HashLength(n: nat)
      modifies this
      ensures written == old(written) + Uvarint(n)
    {
      var x := n;
      var buf: Bytes := [];
      while x >= 128
        invariant buf + Uvarint(x) == Uvarint(n) && written == old(written)
      {
        Assoc(buf, [x % 128 + 128], Uvarint(x / 128));
        buf := buf + [x % 128 + 128];
        x := x / 128;
      }
      written := written + (buf + [x]);
    }

    method HashFixed(n: nat, k: nat)
      modifies this
      ensures written == old(written) + Fixed(n, k)
    {
      var x := n;
      var buf: Bytes := [];
      for i := 0 to k
        invariant buf + Fixed(x, k - i) == Fixed(n, k) && written == old(written)
      {
        Assoc(buf, [x % 256], Fixed(x / 256, k - i - 1));
        buf := buf + [x % 256];
        x := x / 256;
      }
      assert buf + [] == buf;
      written := written + buf;
    }

    method HashBytes(b: Bytes)
      modifies this
      ensures written == old(written) + EncBytes(b)
    {
      Assoc(written, Uvarint(|b|), b);
      HashLength(|b|);
      if |b| > 0 {
        written := written + b;
      }
    }

    method HashStrings(ss: seq<Bytes>)
      modifies this
      ensures written == old(written) + (Uvarint(|ss|) + EncStrings(ss))
    {
      ghost var before := written;
      HashLength(|ss|);
      ghost var prefix := written;
      for i := 0 to |ss|
        invariant written == prefix + EncStrings(ss[..i])
      {
        assert ss[..i + 1] == ss[..i] + [ss[i]];
        EncStringsSnoc(ss[..i], ss[i]);
        Assoc(prefix, EncStrings(ss[..i]), EncBytes(ss[i]));
        HashBytes(ss[i]);
      }
      assert ss[..|ss|] == ss;
      Assoc(before, Uvarint(|ss|), EncStrings(ss));
    }

    method HashAny(v: Value)
      modifies this
      ensures written == old(written) + EncValue(v)
      decreases v, 2, 0
    {
      Assoc(written, EncBytes(TagBytes(TagOf(v))), EncBody(v));
      HashBytes(TagBytes(TagOf(v)));
      match v {
        case NilV =>
        case BoolV(b) => HashBool(b);
        case StringV(s) => HashBytes(s);
        case Float32V(n) => HashFixed(n, 4);
        case Float64V(n) => HashFixed(n, 8);
        case SignedV(_, n) => HashFixed(Unsigned(n), 8);
        case UnsignedV(_, n) => HashFixed(n, 8);
        case ListV(items) => HashItems(v);
        case MapV(m) => HashMap(v);
        case StringsV(ss) => HashStrings(ss);
        case FallbackV(json) => HashBytes(json);
      }
    }

    method HashItems(v: Value)
      requires v.ListV?
      modifies this
      ensures written == old(written) + EncBody(v)
      decreases v, 1, 0
    {
      var items := v.items;
      ghost var before := written;
      HashLength(|items|);
      ghost var prefix := written;
      for i := 0 to |items|
        invariant written == prefix + EncItems(items[..i])
      {
        assert items[..i + 1] == items[..i] + [items[i]];
        EncItemsSnoc(items[..i], items[i]);
        Assoc(prefix, EncItems(items[..i]), EncValue(items[i]));
        HashAny(items[i]);
      }
      assert items[..|items|] == items;
      Assoc(before, Uvarint(|items|), EncItems(items));
    }

    method HashMap(v: Value)
      requires v.MapV?
      modifies this
      ensures written == old(written) + EncBody(v)
      decreases v, 1, 0
    {
      var ks := SortKeys(v.entries.Keys);
      Assoc(written, Uvarint(|ks|), EncEntries(v, ks));
      HashLength(|ks|);
      HashEntries(v, ks);
    }

    method HashEntries(v: Value, ks: seq<Bytes>)
      requires v.MapV? && forall k :: k in ks ==> k in v.entries
      modifies this
      ensures written == old(written) + EncEntries(v, ks)
      decreases v, 0, 1
    {
      ghost var before := written;
      for i := 0 to |ks|
        invariant written == before + EncEntries(v, ks[..i])
      {
        assert ks[..i + 1] == ks[..i] + [ks[i]];
        EncEntriesSnoc(v, ks[..i], ks[i]);
        Assoc(before, EncEntries(v, ks[..i]), EncBytes(ks[i]) + EncValue(v.entries[ks[i]]));
        HashEntry(v, ks[i]);
      }
      assert ks[..|ks|] == ks;
    }

    method HashEntry(v: Value, k: Bytes)
      requires v.MapV? && k in v.entries
      modifies this
      ensures written == old(written) + (EncBytes(k) + EncValue(v.entries[k]))
      decreases v, 0, 0
    {
      Assoc(written, EncBytes(k), EncValue(v.entries[k]));
      HashBytes(k);
      HashAny(v.entries[k]);
    }

    method HashField(f: Field)
      modifies this
      ensures written == old(written) + EncField(f)
    {
      ghost var before := written;
      if !f.Raw? {
        Assoc(written, EncBool(Present(f)), Payload(f));
        HashBool(Present(f));
      }
      if Present(f) {
        match f {
          case Text(s) => HashBytes(s);
          case Raw(b) => HashBytes(b);
          case OptionalText(o) => HashBytes(o.value);
          case OptionalBool(o) => HashBool(o.value);
          case OptionalFloat(o) => HashFixed(o.value, 4);
          case OptionalTime(o) => HashFixed(Unsigned(o.value), 8);
          case OptionalStrings(o) => HashStrings(o.value);
          case OptionalProperties(o) => HashMap(MapV(o.value));
        }
      }
    }

    method HashFields(fs: seq<Field>)
      modifies this
      ensures written == old(written) + EncFields(fs)
    {
      ghost var before := written;
      for i := 0 to |fs|
        invariant written == before + EncFields(fs[..i])
      {
        assert fs[..i + 1] == fs[..i] + [fs[i]];
        EncFieldsSnoc(fs[..i], fs[i]);
        Assoc(before, EncFields(fs[..i]), EncField(fs[i]));
        HashField(fs[i]);
      }
      assert fs[..|fs|] == fs;
    }

    /** The fields of a location in the order the key is computed. */
    method HashLocation(l: Location)
      modifies this
      ensures written == old(written) + Stream(l)
    {
      HashFields(Fields(l));
    }
  }
}
