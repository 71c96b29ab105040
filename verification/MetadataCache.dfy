/**
 The in-memory metadata cache: zones and trackables with secondary indexes that are kept
 up to date one change at a time, and the signature diff behind reconciliation.
 */
module MetadataCache {
  import opened Wrappers
  import opened Sequences

  // ---------------------------------------------------------------------------
  // Lists kept by identifier
  // ---------------------------------------------------------------------------

  /** A resource with its identifier. */
  datatype Keyed<B> = Keyed(id: string, body: B)

  ghost predicate UniqueIds<B>(items: seq<Keyed<B>>) {
    forall i, j :: 0 <= i < j < |items| ==> items[i].id != items[j].id
  }

  /** Replace the item with the same identifier, or append. */
  function UpsertIn<B>(items: seq<Keyed<B>>, item: Keyed<B>): seq<Keyed<B>> {
    if items == [] then [item]
    else if items[0].id == item.id then [item] + items[1..]
    else [items[0]] + UpsertIn(items[1..], item)
  }

  function RemoveFrom<B>(items: seq<Keyed<B>>, key: string): seq<Keyed<B>> {
    if items == [] then []
    else if items[0].id == key then RemoveFrom(items[1..], key)
    else [items[0]] + RemoveFrom(items[1..], key)
  }

  lemma {:induction false} UpsertMember<B>(items: seq<Keyed<B>>, item: Keyed<B>, x: Keyed<B>)
    requires UniqueIds(items)
    ensures x in UpsertIn(items, item) <==> x == item || (x in items && x.id != item.id)
  {
    if items != [] {
      var head, tail := items[0], items[1..];
      assert items == [head] + tail;
      assert UniqueIds(tail);
      if head.id == item.id {
        assert x in tail ==> x.id != head.id;
      } else {
        UpsertMember(tail, item, x);
      }
    }
  }

  lemma {:induction false} RemoveMember<B>(items: seq<Keyed<B>>, key: string, x: Keyed<B>)
    ensures x in RemoveFrom(items, key) <==> x in items && x.id != key
  {
    if items != [] {
      assert items == [items[0]] + items[1..];
      RemoveMember(items[1..], key, x);
    }
  }

  lemma {:induction false} UpsertUnique<B>(items: seq<Keyed<B>>, item: Keyed<B>)
    requires UniqueIds(items)
    ensures UniqueIds(UpsertIn(items, item))
  {
    if items != [] && items[0].id != item.id {
      var head, tail := items[0], items[1..];
      assert UniqueIds(tail);
      UpsertUnique(tail, item);
      var rest := UpsertIn(tail, item);
      forall i | 0 <= i < |rest| ensures rest[i].id != head.id {
        UpsertMember(tail, item, rest[i]);
      }
    }
  }

  lemma {:induction false} RemoveUnique<B>(items: seq<Keyed<B>>, key: string)
    requires UniqueIds(items)
    ensures UniqueIds(RemoveFrom(items, key))
  {
    if items != [] {
      var head, tail := items[0], items[1..];
      assert UniqueIds(tail);
      RemoveUnique(tail, key);
      var rest := RemoveFrom(tail, key);
      forall i | 0 <= i < |rest| ensures rest[i].id != head.id {
        RemoveMember(tail, key, rest[i]);
      }
    }
  }

  lemma {:induction false} UpsertAt<B>(items: seq<Keyed<B>>, item: Keyed<B>, i: nat)
    requires i <= |items| && forall j :: 0 <= j < i ==> items[j].id != item.id
    requires i < |items| ==> items[i].id == item.id
    ensures UpsertIn(items, item) == if i < |items| then items[i := item] else items + [item]
  {
    if i > 0 {
      UpsertAt(items[1..], item, i - 1);
      assert items == [items[0]] + items[1..];
    }
  }

  method UpsertItem<B>(items: seq<Keyed<B>>, item: Keyed<B>) returns (out: seq<Keyed<B>>)
    ensures out == UpsertIn(items, item)
  {
    for i := 0 to |items|
      invariant forall j :: 0 <= j < i ==> items[j].id != item.id
    {
      if items[i].id == item.id {
        UpsertAt(items, item, i);
        return items[i := item];
      }
    }
    UpsertAt(items, item, |items|);
    return items + [item];
  }

  method RemoveItem<B>(items: seq<Keyed<B>>, key: string) returns (out: seq<Keyed<B>>)
    ensures out == RemoveFrom(items, key)
  {
    out := [];
    for i := 0 to |items|
      invariant RemoveFrom(items, key) == out + RemoveFrom(items[i..], key)
    {
      assert items[i..][1..] == items[i + 1..];
      if items[i].id != key {
        out := out + [items[i]];
      }
    }
  }

  /** Lookups by identifier give what a scan of the list gives. */
  ghost predicate ByIdAgrees<B>(items: seq<Keyed<B>>, byId: map<string, Keyed<B>>) {
    && (forall k :: k in byId ==> byId[k] in items && byId[k].id == k)
    && (forall x :: x in items ==> x.id in byId && byId[x.id] == x)
  }

  lemma ByIdUpsert<B>(items: seq<Keyed<B>>, byId: map<string, Keyed<B>>, item: Keyed<B>)
    requires UniqueIds(items) && ByIdAgrees(items, byId)
    ensures var next := UpsertIn(items, item);
            UniqueIds(next) && ByIdAgrees(next, byId[item.id := item])
  {
    var next, index := UpsertIn(items, item), byId[item.id := item];
    UpsertUnique(items, item);
    forall k | k in index ensures index[k] in next && index[k].id == k {
      UpsertMember(items, item, index[k]);
    }
    forall x | x in next ensures x.id in index && index[x.id] == x {
      UpsertMember(items, item, x);
    }
  }

  lemma ByIdRemove<B>(items: seq<Keyed<B>>, byId: map<string, Keyed<B>>, key: string)
    requires UniqueIds(items) && ByIdAgrees(items, byId)
    ensures var next := RemoveFrom(items, key);
            UniqueIds(next) && ByIdAgrees(next, byId - {key})
  {
    var next, index := RemoveFrom(items, key), byId - {key};
    RemoveUnique(items, key);
    forall k | k in index ensures index[k] in next && index[k].id == k {
      RemoveMember(items, key, index[k]);
    }
    forall x | x in next ensures x.id in index && index[x.id] == x {
      RemoveMember(items, key, x);
    }
  }

  // ---------------------------------------------------------------------------
  // Zones: lookups by foreign identifier
  // ---------------------------------------------------------------------------

  datatype ZoneBody = ZoneBody(foreignId: Option<string>, text: string)

  type Zone = Keyed<ZoneBody>

  predicate HasForeign(z: Zone, f: string) {
    f != "" && z.body.foreignId == Some(f)
  }

  /** No two zones claim the same foreign identifier. */
  ghost predicate UniqueForeignIds(zones: seq<Zone>) {
    forall y, z, f :: y in zones && z in zones && HasForeign(y, f) && HasForeign(z, f) ==> y == z
  }

  /** A hit by foreign identifier is a zone of the list that carries it. */
  ghost predicate ByForeignSound(zones: seq<Zone>, byForeign: map<string, Zone>) {
    forall f :: f in byForeign ==> byForeign[f] in zones && HasForeign(byForeign[f], f)
  }

  /** ... and every foreign identifier of the list is found. */
  ghost predicate ByForeignComplete(zones: seq<Zone>, byForeign: map<string, Zone>) {
    forall z, f :: z in zones && HasForeign(z, f) ==> f in byForeign && byForeign[f] == z
  }

  function FindForeign(byForeign: map<string, Zone>, f: string): Option<Zone> {
    if f in byForeign then Some(byForeign[f]) else None
  }

  /** Drop every foreign entry that points at the zone with this identifier. */
  method ForgetForeign(byForeign: map<string, Zone>, id: string) returns (out: map<string, Zone>)
    ensures out == WithoutForeign(byForeign, id)
  {
    out := byForeign;
    var todo := byForeign.Keys;
    while todo != {}
      invariant todo <= byForeign.Keys
      invariant forall f :: f in out <==> f in byForeign && (f in todo || byForeign[f].id != id)
      invariant forall f :: f in out ==> out[f] == byForeign[f]
      decreases todo
    {
      var f :| f in todo;
      if byForeign[f].id == id {
        out := out - {f};
      }
      todo := todo - {f};
    }
  }

  function WithoutForeign(byForeign: map<string, Zone>, id: string): map<string, Zone> {
    map f | f in byForeign && byForeign[f].id != id :: byForeign[f]
  }

  function WithForeign(byForeign: map<string, Zone>, z: Zone): map<string, Zone> {
    if z.body.foreignId.Some? && z.body.foreignId.value != "" then byForeign[z.body.foreignId.value := z] else byForeign
  }

  lemma UpsertForeign(zones: seq<Zone>, byForeign: map<string, Zone>, item: Zone)
    requires UniqueIds(zones) && ByForeignSound(zones, byForeign)
    ensures var next, index := UpsertIn(zones, item), WithForeign(WithoutForeign(byForeign, item.id), item);
            && ByForeignSound(next, index)
            && (ByForeignComplete(zones, byForeign) ==> (ByForeignComplete(next, index) <==> UniqueForeignIds(next)))
  {
    forall z: Zone ensures z in UpsertIn(zones, item) <==> z == item || (z in zones && z.id != item.id) {
      UpsertMember(zones, item, z);
    }
  }

  lemma RemoveForeign(zones: seq<Zone>, byForeign: map<string, Zone>, id: string)
    requires UniqueIds(zones) && ByForeignSound(zones, byForeign)
    ensures var next, index := RemoveFrom(zones, id), WithoutForeign(byForeign, id);
            && ByForeignSound(next, index)
            && (ByForeignComplete(zones, byForeign) ==> ByForeignComplete(next, index))
  {
    forall z: Zone ensures z in RemoveFrom(zones, id) <==> z in zones && z.id != id {
      RemoveMember(zones, id, z);
    }
  }

  /** A complete index leaves no room for two zones with one foreign identifier. */
  lemma CompleteMeansUnique(zones: seq<Zone>, byForeign: map<string, Zone>)
    requires ByForeignComplete(zones, byForeign)
    ensures UniqueForeignIds(zones)
  {
  }

  // ---------------------------------------------------------------------------
  // Runs of zone changes
  // ---------------------------------------------------------------------------

  datatype ZoneChange = PutZone(zone: Zone) | DropZone(id: string)

  datatype ZoneTables = ZoneTables(zones: seq<Zone>, byForeign: map<string, Zone>)

  function Changed(t: ZoneTables, c: ZoneChange): ZoneTables {
    match c
    case PutZone(z) => ZoneTables(UpsertIn(t.zones, z), WithForeign(WithoutForeign(t.byForeign, z.id), z))
    case DropZone(id) => ZoneTables(RemoveFrom(t.zones, id), WithoutForeign(t.byForeign, id))
  }

  function TablesAfter(changes: seq<ZoneChange>, n: nat): ZoneTables
    requires n <= |changes|
  {
    if n == 0 then ZoneTables([], map[]) else Changed(TablesAfter(changes, n - 1), changes[n - 1])
  }

  ghost predicate SoundTables(t: ZoneTables) {
    UniqueIds(t.zones) && ByForeignSound(t.zones, t.byForeign)
  }

  ghost predicate CompleteAt(changes: seq<ZoneChange>, n: nat)
    requires n <= |changes|
  {
    ByForeignComplete(TablesAfter(changes, n).zones, TablesAfter(changes, n).byForeign)
  }

  ghost predicate UniqueAt(changes: seq<ZoneChange>, n: nat)
    requires n <= |changes|
  {
    UniqueForeignIds(TablesAfter(changes, n).zones)
  }

  /**
   One change keeps the tables sound, and a complete index stays complete exactly if
   foreign identifiers stay unique.
   */
  lemma ChangeKeeps(t: ZoneTables, c: ZoneChange)
    requires SoundTables(t)
    ensures var next := Changed(t, c);
            && SoundTables(next)
            && (ByForeignComplete(t.zones, t.byForeign) ==>
                  (ByForeignComplete(next.zones, next.byForeign) <==> UniqueForeignIds(next.zones)))
  {
    match c {
      case PutZone(z) =>
        UpsertUnique(t.zones, z);
        UpsertForeign(t.zones, t.byForeign, z);
      case DropZone(id) =>
        RemoveUnique(t.zones, id);
        RemoveForeign(t.zones, t.byForeign, id);
    }
  }

  lemma {:induction false} RunSound(changes: seq<ZoneChange>, n: nat)
    requires n <= |changes|
    ensures SoundTables(TablesAfter(changes, n))
    decreases n
  {
    if n > 0 {
      RunSound(changes, n - 1);
      ChangeKeeps(TablesAfter(changes, n - 1), changes[n - 1]);
    }
  }

  lemma {:induction false} UniqueKeepsComplete(changes: seq<ZoneChange>, n: nat)
    requires n <= |changes| && forall i :: 0 <= i <= n ==> UniqueAt(changes, i)
    ensures CompleteAt(changes, n)
    decreases n
  {
    if n > 0 {
      UniqueKeepsComplete(changes, n - 1);
      RunSound(changes, n - 1);
      ChangeKeeps(TablesAfter(changes, n - 1), changes[n - 1]);
      assert UniqueAt(changes, n);
    }
  }

  /**
   Over any run of upserts and deletes the index finds every foreign identifier throughout
   exactly when they are unique throughout.
   */
  lemma CompleteThroughoutIff(changes: seq<ZoneChange>, n: nat)
    requires n <= |changes|
    ensures (forall i :: 0 <= i <= n ==> CompleteAt(changes, i)) <==> (forall i :: 0 <= i <= n ==> UniqueAt(changes, i))
  {
    if forall i :: 0 <= i <= n ==> UniqueAt(changes, i) {
      forall i | 0 <= i <= n ensures CompleteAt(changes, i) {
        UniqueKeepsComplete(changes, i);
      }
    }
    if forall i :: 0 <= i <= n ==> CompleteAt(changes, i) {
      forall i | 0 <= i <= n ensures UniqueAt(changes, i) {
        assert CompleteAt(changes, i);
        CompleteMeansUnique(TablesAfter(changes, i).zones, TablesAfter(changes, i).byForeign);
      }
    }
  }

  /** Change c disturbs the claim of zone z to the foreign identifier f. */
  predicate Disturbs(c: ZoneChange, z: Zone, f: string) {
    match c
    case PutZone(y) => y.id == z.id || HasForeign(y, f)
    case DropZone(id) => id == z.id
  }

  /** Change i gave f to zone z and nothing before change n disturbed that. */
  ghost predicate ClaimedBy(changes: seq<ZoneChange>, i: nat, n: nat, z: Zone, f: string) {
    && i < n <= |changes| && changes[i] == PutZone(z) && HasForeign(z, f)
    && forall j :: i < j < n ==> !Disturbs(changes[j], z, f)
  }

  ghost predicate Claimed(changes: seq<ZoneChange>, n: nat, z: Zone, f: string) {
    exists i: nat :: ClaimedBy(changes, i, n, z, f)
  }

  predicate Claims(c: ZoneChange, z: Zone, f: string) {
    c == PutZone(z) && HasForeign(z, f)
  }

  lemma LookupStep(t: ZoneTables, c: ZoneChange, z: Zone, f: string)
    requires SoundTables(t)
    ensures FindForeign(Changed(t, c).byForeign, f) == Some(z) <==>
            Claims(c, z, f) || (FindForeign(t.byForeign, f) == Some(z) && !Disturbs(c, z, f))
  {
  }

  lemma ClaimStep(changes: seq<ZoneChange>, n: nat, z: Zone, f: string)
    requires 0 < n <= |changes|
    ensures Claimed(changes, n, z, f) <==>
            Claims(changes[n - 1], z, f) || (Claimed(changes, n - 1, z, f) && !Disturbs(changes[n - 1], z, f))
  {
    var before: nat := n - 1;
    if i: nat :| ClaimedBy(changes, i, n, z, f) {
      if i < n - 1 {
        assert ClaimedBy(changes, i, n - 1, z, f);
      }
    }
    if Claims(changes[n - 1], z, f) {
      assert ClaimedBy(changes, n - 1, n, z, f);
    }
    if i: nat :| ClaimedBy(changes, i, before, z, f) {
      if !Disturbs(changes[n - 1], z, f) {
        assert ClaimedBy(changes, i, n, z, f);
      }
    }
  }

  /** What the index holds after any run, unique or not: the last claim, unless its zone was changed since. */
  lemma {:induction false} ForeignLookupIff(changes: seq<ZoneChange>, n: nat, z: Zone, f: string)
    requires n <= |changes|
    ensures FindForeign(TablesAfter(changes, n).byForeign, f) == Some(z) <==> Claimed(changes, n, z, f)
    decreases n
  {
    if n > 0 {
      RunSound(changes, n - 1);
      ForeignLookupIff(changes, n - 1, z, f);
      LookupStep(TablesAfter(changes, n - 1), changes[n - 1], z, f);
      ClaimStep(changes, n, z, f);
    }
  }

  /** With a shared foreign identifier the index forgets: after one zone is deleted the other is no longer found. */
  lemma SharedForeignIdForgotten(a: Zone, b: Zone, f: string)
    requires a.id != b.id && HasForeign(a, f) && HasForeign(b, f)
    ensures var zones, index := [a, b], WithForeign(WithForeign(map[], a), b);
            && ByForeignSound(zones, index)
            && RemoveFrom(zones, b.id) == [a]
            && !ByForeignComplete([a], WithoutForeign(index, b.id))
  {
    var zones := [a, b];
    assert zones[1..] == [b];
    assert RemoveFrom([b], b.id) == [];
    assert RemoveFrom(zones, b.id) == [a] + RemoveFrom(zones[1..], b.id);
    assert a in [a] && HasForeign(a, f);
  }

  // ---------------------------------------------------------------------------
  // Trackables: lookups by provider
  // ---------------------------------------------------------------------------

  datatype TrackableBody = TrackableBody(providers: seq<string>, text: string)

  type Trackable = Keyed<TrackableBody>

  function Occurs(providers: seq<string>, p: string): nat {
    if providers == [] then 0 else
      Occurs(providers[..|providers| - 1], p) + if providers[|providers| - 1] == p then 1 else 0
  }

  /** Each trackable as often as it lists the provider. */
  function Spread(ts: seq<Trackable>, p: string): multiset<Trackable> {
    if ts == [] then multiset{} else
      Spread(ts[..|ts| - 1], p) + Times(ts[|ts| - 1], Occurs(ts[|ts| - 1].body.providers, p))
  }

  function Times(t: Trackable, n: nat): multiset<Trackable> {
    multiset{}[t := n]
  }

  function ProviderTest(p: string): Trackable -> bool {
    (t: Trackable) => p in t.body.providers
  }

  function Get(byProvider: map<string, seq<Trackable>>, p: string): seq<Trackable> {
    if p in byProvider then byProvider[p] else []
  }

  /** The provider index holds every trackable as often as the trackable names the provider, and no empty lists. */
  ghost predicate ByProviderAgrees(ts: seq<Trackable>, byProvider: map<string, seq<Trackable>>) {
    && (forall p :: multiset(Get(byProvider, p)) == Spread(ts, p))
    && (forall p :: p in byProvider ==> byProvider[p] != [])
  }

  lemma {:induction false} SpreadConcat(a: seq<Trackable>, b: seq<Trackable>, p: string)
    ensures Spread(a + b, p) == Spread(a, p) + Spread(b, p)
  {
    if b == [] {
      assert a + b == a;
    } else {
      assert (a + b)[..|a + b| - 1] == a + b[..|b| - 1];
      SpreadConcat(a, b[..|b| - 1], p);
    }
  }

  lemma {:induction false} OccursPositive(providers: seq<string>, p: string)
    ensures Occurs(providers, p) > 0 <==> p in providers
  {
    if providers != [] {
      OccursPositive(providers[..|providers| - 1], p);
      assert providers == providers[..|providers| - 1] + [providers[|providers| - 1]];
    }
  }

  lemma {:induction false} SpreadMember(ts: seq<Trackable>, p: string, t: Trackable)
    ensures t in Spread(ts, p) <==> t in ts && p in t.body.providers
  {
    if ts != [] {
      var init, last := ts[..|ts| - 1], ts[|ts| - 1];
      SpreadMember(init, p, t);
      OccursPositive(last.body.providers, p);
      assert ts == init + [last];
    }
  }

  lemma LastIsNew(ts: seq<Trackable>)
    requires ts != [] && UniqueIds(ts)
    ensures ts[|ts| - 1] !in ts[..|ts| - 1]
  {
  }

  /** How often a trackable of the list is indexed under a provider. */
  lemma {:induction false} SpreadCount(ts: seq<Trackable>, p: string, t: Trackable)
    requires UniqueIds(ts)
    ensures Spread(ts, p)[t] == if t in ts then Occurs(t.body.providers, p) else 0
  {
    if ts != [] {
      var init, last := ts[..|ts| - 1], ts[|ts| - 1];
      assert UniqueIds(init) && ts == init + [last];
      SpreadCount(init, p, t);
      LastIsNew(ts);
    }
  }

  lemma {:induction false} FilterCount(ts: seq<Trackable>, p: string, t: Trackable)
    requires UniqueIds(ts)
    ensures multiset(Filter(ts, ProviderTest(p)))[t] == if t in ts && p in t.body.providers then 1 else 0
  {
    if ts != [] {
      var init, last := ts[..|ts| - 1], ts[|ts| - 1];
      assert UniqueIds(init) && ts == init + [last];
      FilterCount(init, p, t);
      LastIsNew(ts);
    }
  }

  /** The provider index equals a scan of the list exactly when no trackable repeats the provider. */
  lemma ProviderLookupIsScanIff(ts: seq<Trackable>, p: string)
    requires UniqueIds(ts)
    ensures Spread(ts, p) == multiset(Filter(ts, ProviderTest(p))) <==>
            forall t :: t in ts ==> Occurs(t.body.providers, p) <= 1
  {
    var scan := multiset(Filter(ts, ProviderTest(p)));
    forall t: Trackable
      ensures Spread(ts, p)[t] == (if t in ts then Occurs(t.body.providers, p) else 0)
      ensures scan[t] == if t in ts && p in t.body.providers then 1 else 0
    {
      SpreadCount(ts, p, t);
      FilterCount(ts, p, t);
    }
    forall t | t in ts ensures Occurs(t.body.providers, p) > 0 <==> p in t.body.providers {
      OccursPositive(t.body.providers, p);
    }
    if forall t :: t in ts ==> Occurs(t.body.providers, p) <= 1 {
      assert forall t: Trackable :: Spread(ts, p)[t] == scan[t];
      assert Spread(ts, p) == scan;
    } else {
      var t :| t in ts && Occurs(t.body.providers, p) > 1;
      assert Spread(ts, p)[t] != scan[t];
    }
  }

  // ---------------------------------------------------------------------------
  // Maintaining the provider index
  // ---------------------------------------------------------------------------

  lemma Regroup(h: Trackable, a: seq<Trackable>, item: Trackable, b: seq<Trackable>)
    ensures [h] + (a + [item] + b) == ([h] + a) + [item] + b
    ensures [h] + (a + b) == ([h] + a) + b
  {
  }

  /** Where an upsert puts its item. */
  lemma {:induction false} UpsertShape(ts: seq<Trackable>, item: Trackable) returns (a: seq<Trackable>,
                                       b: seq<Trackable>)
    requires UniqueIds(ts)
    ensures UpsertIn(ts, item) == a + [item] + b
    ensures RemoveFrom(ts, item.id) == a + b
  {
    if ts == [] {
      a, b := [], [];
    } else if ts[0].id == item.id {
      a, b := [], ts[1..];
      RemoveAbsent(ts[1..], item.id);
      assert [] + b == b;
      assert [] + [item] + b == [item] + b;
    } else {
      assert UniqueIds(ts[1..]);
      var a', b' := UpsertShape(ts[1..], item);
      Regroup(ts[0], a', item, b');
      a, b := [ts[0]] + a', b';
    }
  }

  lemma {:induction false} RemoveAbsent(ts: seq<Trackable>, key: string)
    requires forall i :: 0 <= i < |ts| ==> ts[i].id != key
    ensures RemoveFrom(ts, key) == ts
  {
    if ts != [] {
      RemoveAbsent(ts[1..], key);
    }
  }

  lemma SpreadUpsert(ts: seq<Trackable>, item: Trackable, p: string)
    requires UniqueIds(ts)
    ensures Spread(UpsertIn(ts, item), p) ==
            Spread(RemoveFrom(ts, item.id), p) + Times(item, Occurs(item.body.providers, p))
  {
    var a, b := UpsertShape(ts, item);
    SpreadConcat(a + [item], b, p);
    SpreadConcat(a, [item], p);
    SpreadConcat(a, b, p);
    assert Spread([item], p) == Times(item, Occurs(item.body.providers, p)) by {
      assert [item][..0] == [];
    }
  }

  /** Dropping an identifier from the list drops exactly its entries from the spread. */
  lemma SpreadRemove(ts: seq<Trackable>, items: seq<Trackable>, key: string, p: string)
    requires UniqueIds(ts) && multiset(items) == Spread(ts, p)
    ensures multiset(RemoveFrom(items, key)) == Spread(RemoveFrom(ts, key), p)
  {
    var kept := RemoveFrom(ts, key);
    RemoveUnique(ts, key);
    forall t: Trackable
      ensures multiset(RemoveFrom(items, key))[t] == Spread(kept, p)[t]
    {
      RemoveMember(ts, key, t);
      RemoveCount(items, key, t);
      SpreadCount(ts, p, t);
      SpreadCount(kept, p, t);
      assert multiset(items)[t] == Spread(ts, p)[t];
    }
  }

  lemma {:induction false} RemoveCount(items: seq<Trackable>, key: string, t: Trackable)
    ensures multiset(RemoveFrom(items, key))[t] == if t.id == key then 0 else multiset(items)[t]
  {
    if items != [] {
      assert items == [items[0]] + items[1..];
      RemoveCount(items[1..], key, t);
    }
  }

  /** Remove a trackable from every provider's list, and lists that become empty. */
  method ForgetProviderEntries(byProvider: map<string, seq<Trackable>>, key: string)
    returns (out: map<string, seq<Trackable>>)
    ensures forall p :: Get(out, p) == RemoveFrom(Get(byProvider, p), key)
    ensures forall p :: p in out ==> out[p] != []
  {
    out := byProvider;
    var todo := byProvider.Keys;
    while todo != {}
      invariant todo <= byProvider.Keys
      invariant forall p :: p in todo ==> p in out && out[p] == byProvider[p]
      invariant forall p :: p !in todo ==> Get(out, p) == RemoveFrom(Get(byProvider, p), key)
      invariant forall p :: p in out && p !in todo ==> out[p] != []
      decreases todo
    {
      var p :| p in todo;
      var items := RemoveItem(out[p], key);
      if |items| == 0 {
        out := out - {p};
      } else {
        out := out[p := items];
      }
      todo := todo - {p};
    }
  }

  /** Append an item to the list of each provider it names, once per mention. */
  method AddProviderEntries(byProvider: map<string, seq<Trackable>>, item: Trackable)
    returns (out: map<string, seq<Trackable>>)
    requires NoEmptyLists(byProvider)
    ensures AddedTo(byProvider, out, item, item.body.providers) && NoEmptyLists(out)
  {
    out := byProvider;
    var ps := item.body.providers;
    for i := 0 to |ps|
      invariant out == WithEntries(byProvider, item, ps[..i])
    {
      assert ps[..i + 1][..i] == ps[..i];
      out := out[ps[i] := Get(out, ps[i]) + [item]];
    }
    assert ps[..|ps|] == ps;
    EntriesAdded(byProvider, item, ps);
  }

  function WithEntries(byProvider: map<string, seq<Trackable>>, item: Trackable, ps: seq<string>)
    : map<string, seq<Trackable>>
  {
    if ps == [] then byProvider else
      var m, q := WithEntries(byProvider, item, ps[..|ps| - 1]), ps[|ps| - 1];
      m[q := Get(m, q) + [item]]
  }

  lemma {:induction false} EntriesAdded(byProvider: map<string, seq<Trackable>>, item: Trackable, ps: seq<string>)
    requires NoEmptyLists(byProvider)
    ensures AddedTo(byProvider, WithEntries(byProvider, item, ps), item, ps)
    ensures NoEmptyLists(WithEntries(byProvider, item, ps))
    decreases |ps|
  {
    if ps == [] {
      AddNone(byProvider, item);
    } else {
      var init, q := ps[..|ps| - 1], ps[|ps| - 1];
      EntriesAdded(byProvider, item, init);
      AddOne(byProvider, WithEntries(byProvider, item, init), item, init, q);
      assert init + [q] == ps;
    }
  }

  ghost predicate NoEmptyLists(byProvider: map<string, seq<Trackable>>) {
    forall p :: p in byProvider ==> byProvider[p] != []
  }

  lemma AddNone(byProvider: map<string, seq<Trackable>>, item: Trackable)
    ensures AddedTo(byProvider, byProvider, item, [])
  {
  }

  /** An item joins the list of each provider once per mention. */
  ghost predicate AddedTo(before: map<string, seq<Trackable>>, after: map<string, seq<Trackable>>, item: Trackable,
                          ps: seq<string>) {
    forall p :: multiset(Get(after, p)) == multiset(Get(before, p)) + Times(item, Occurs(ps, p))
  }

  lemma AddOne(before: map<string, seq<Trackable>>, after: map<string, seq<Trackable>>, item: Trackable,
               ps: seq<string>, q: string)
    requires AddedTo(before, after, item, ps)
    ensures AddedTo(before, after[q := Get(after, q) + [item]], item, ps + [q])
  {
    var after' := after[q := Get(after, q) + [item]];
    forall p ensures multiset(Get(after', p)) == multiset(Get(before, p)) + Times(item, Occurs(ps + [q], p)) {
      assert multiset(Get(after, p)) == multiset(Get(before, p)) + Times(item, Occurs(ps, p));
      OneMore(multiset(Get(before, p)), item, ps, q, p);
    }
  }

  lemma OneMore(m: multiset<Trackable>, item: Trackable, ps: seq<string>, q: string, p: string)
    ensures m + Times(item, Occurs(ps + [q], p)) ==
            m + Times(item, Occurs(ps, p)) + if p == q then multiset{item} else multiset{}
  {
  }

  // ---------------------------------------------------------------------------
  // The cache
  // ---------------------------------------------------------------------------

  ghost predicate ZonesAgree(zones: seq<Zone>, byId: map<string, Zone>, byForeign: map<string, Zone>) {
    UniqueIds(zones) && ByIdAgrees(zones, byId) && ByForeignSound(zones, byForeign)
  }

  ghost predicate TrackablesAgree(ts: seq<Trackable>, byId: map<string, Trackable>,
                                  byProvider: map<string, seq<Trackable>>)
  {
    UniqueIds(ts) && ByIdAgrees(ts, byId) && ByProviderAgrees(ts, byProvider)
  }

  lemma ProviderUpsert(ts: seq<Trackable>, index: map<string, seq<Trackable>>, mid: map<string, seq<Trackable>>,
                       index': map<string, seq<Trackable>>, item: Trackable)
    requires UniqueIds(ts) && ByProviderAgrees(ts, index)
    requires forall p :: Get(mid, p) == RemoveFrom(Get(index, p), item.id)
    requires forall p :: multiset(Get(index', p)) == multiset(Get(mid, p)) + Times(item, Occurs(item.body.providers, p))
    requires forall p :: p in index' ==> index'[p] != []
    ensures ByProviderAgrees(UpsertIn(ts, item), index')
  {
    forall p ensures multiset(Get(index', p)) == Spread(UpsertIn(ts, item), p) {
      SpreadRemove(ts, Get(index, p), item.id, p);
      SpreadUpsert(ts, item, p);
      assert Get(mid, p) == RemoveFrom(Get(index, p), item.id);
    }
  }

  lemma ProviderRemove(ts: seq<Trackable>, index: map<string, seq<Trackable>>, index': map<string, seq<Trackable>>,
                       key: string)
    requires UniqueIds(ts) && ByProviderAgrees(ts, index)
    requires forall p :: Get(index', p) == RemoveFrom(Get(index, p), key)
    requires forall p :: p in index' ==> index'[p] != []
    ensures ByProviderAgrees(RemoveFrom(ts, key), index')
  {
    forall p ensures multiset(Get(index', p)) == Spread(RemoveFrom(ts, key), p) {
      SpreadRemove(ts, Get(index, p), key, p);
      assert Get(index', p) == RemoveFrom(Get(index, p), key);
    }
  }

  // ---------------------------------------------------------------------------
  // A cache kept by changes equals one rebuilt from its lists
  // ---------------------------------------------------------------------------

  lemma ByIdDetermined<B>(items: seq<Keyed<B>>, a: map<string, Keyed<B>>, b: map<string, Keyed<B>>)
    requires ByIdAgrees(items, a) && ByIdAgrees(items, b)
    ensures a == b
  {
  }

  lemma ByProviderDetermined(ts: seq<Trackable>, a: map<string, seq<Trackable>>, b: map<string, seq<Trackable>>)
    requires ByProviderAgrees(ts, a) && ByProviderAgrees(ts, b)
    ensures a.Keys == b.Keys && forall p :: p in a ==> multiset(a[p]) == multiset(b[p])
  {
    forall p ensures p in a <==> p in b {
      SameBag(Get(a, p), Get(b, p), Spread(ts, p));
    }
    forall p | p in a ensures multiset(a[p]) == multiset(b[p]) {
      SameBag(Get(a, p), Get(b, p), Spread(ts, p));
    }
  }

  lemma SameBag(x: seq<Trackable>, y: seq<Trackable>, m: multiset<Trackable>)
    requires multiset(x) == m && multiset(y) == m
    ensures x == [] <==> y == []
  {
  }

  /** The last zone of the list with a foreign identifier. */
  function LastForeign(zones: seq<Zone>, f: string): Option<Zone> {
    if zones == [] then None
    else if HasForeign(zones[|zones| - 1], f) then Some(zones[|zones| - 1])
    else LastForeign(zones[..|zones| - 1], f)
  }

  /** The index gives the last zone of the list for every foreign identifier. */
  ghost predicate ByForeignLast(zones: seq<Zone>, byForeign: map<string, Zone>) {
    forall f :: FindForeign(byForeign, f) == LastForeign(zones, f)
  }

  lemma SameForeign(a: map<string, Zone>, b: map<string, Zone>)
    requires forall f :: FindForeign(a, f) == FindForeign(b, f)
    ensures a == b
  {
    forall f ensures f in a <==> f in b {
      assert FindForeign(a, f) == FindForeign(b, f);
    }
    forall f | f in a ensures a[f] == b[f] {
      assert FindForeign(a, f) == FindForeign(b, f);
    }
  }

  lemma {:induction false} LastForeignFound(zones: seq<Zone>, f: string)
    ensures LastForeign(zones, f).Some? ==>
            LastForeign(zones, f).value in zones && HasForeign(LastForeign(zones, f).value, f)
    ensures LastForeign(zones, f).None? ==> forall z :: z in zones ==> !HasForeign(z, f)
  {
    if zones != [] {
      LastForeignFound(zones[..|zones| - 1], f);
    }
  }

  /** A complete and sound index is the one built from the list. */
  lemma CompleteIsLast(zones: seq<Zone>, byForeign: map<string, Zone>)
    requires ByForeignSound(zones, byForeign) && ByForeignComplete(zones, byForeign)
    ensures ByForeignLast(zones, byForeign)
  {
    forall f ensures FindForeign(byForeign, f) == LastForeign(zones, f) {
      LastForeignFound(zones, f);
    }
  }

  /** The indexes of a snapshot built from scratch. */
  method BuildZoneIndexes(zones: seq<Zone>) returns (byId: map<string, Zone>, byForeign: map<string, Zone>)
    requires UniqueIds(zones)
    ensures ByIdAgrees(zones, byId) && ByForeignLast(zones, byForeign)
  {
    byId, byForeign := map[], map[];
    for i := 0 to |zones|
      invariant ByIdAgrees(zones[..i], byId) && ByForeignLast(zones[..i], byForeign)
    {
      var z := zones[i];
      AppendById(zones, i, byId);
      AppendForeign(zones, i, byForeign);
      byId := byId[z.id := z];
      if z.body.foreignId.Some? && z.body.foreignId.value != "" {
        byForeign := byForeign[z.body.foreignId.value := z];
      }
    }
    assert zones[..|zones|] == zones;
  }

  lemma AppendById<B>(items: seq<Keyed<B>>, i: nat, byId: map<string, Keyed<B>>)
    requires i < |items| && UniqueIds(items) && ByIdAgrees(items[..i], byId)
    ensures ByIdAgrees(items[..i + 1], byId[items[i].id := items[i]])
  {
  }

  method BuildTrackableIndex(ts: seq<Trackable>) returns (byId: map<string, Trackable>)
    requires UniqueIds(ts)
    ensures ByIdAgrees(ts, byId)
  {
    byId := map[];
    for i := 0 to |ts|
      invariant ByIdAgrees(ts[..i], byId)
    {
      AppendById(ts, i, byId);
      byId := byId[ts[i].id := ts[i]];
    }
    assert ts[..|ts|] == ts;
  }

  lemma AppendForeign(zones: seq<Zone>, i: nat, byForeign: map<string, Zone>)
    requires i < |zones| && ByForeignLast(zones[..i], byForeign)
    ensures ByForeignLast(zones[..i + 1], WithForeign(byForeign, zones[i]))
  {
    assert zones[..i + 1][..i] == zones[..i];
    forall f ensures FindForeign(WithForeign(byForeign, zones[i]), f) == LastForeign(zones[..i + 1], f) {
      assert FindForeign(byForeign, f) == LastForeign(zones[..i], f);
    }
  }

  lemma ForeignRebuilt(zones: seq<Zone>, kept: map<string, Zone>, built: map<string, Zone>)
    requires ByForeignSound(zones, kept) && ByForeignLast(zones, built)
    ensures ByForeignComplete(zones, kept) ==> built == kept
    ensures UniqueForeignIds(zones) && built == kept ==> ByForeignComplete(zones, kept)
  {
    if ByForeignComplete(zones, kept) {
      CompleteIsLast(zones, kept);
      forall f ensures FindForeign(built, f) == FindForeign(kept, f) {
        assert FindForeign(kept, f) == LastForeign(zones, f);
      }
      SameForeign(built, kept);
    }
    if UniqueForeignIds(zones) {
      LastIsComplete(zones, built);
    }
  }

  /** With unique foreign ids the index built from the list is complete. */
  lemma LastIsComplete(zones: seq<Zone>, built: map<string, Zone>)
    requires UniqueForeignIds(zones) && ByForeignLast(zones, built)
    ensures ByForeignComplete(zones, built)
  {
    forall z, f | z in zones && HasForeign(z, f) ensures f in built && built[f] == z {
      LastForeignFound(zones, f);
      assert FindForeign(built, f) == LastForeign(zones, f);
    }
  }

  method BuildProviderIndex(ts: seq<Trackable>) returns (byProvider: map<string, seq<Trackable>>)
    ensures ByProviderAgrees(ts, byProvider)
  {
    byProvider := map[];
    for i := 0 to |ts|
      invariant ByProviderAgrees(ts[..i], byProvider)
    {
      ghost var before := byProvider;
      byProvider := AddProviderEntries(byProvider, ts[i]);
      assert ts[..i + 1][..i] == ts[..i];
      forall p ensures multiset(Get(byProvider, p)) == Spread(ts[..i + 1], p) {
        assert multiset(Get(before, p)) == Spread(ts[..i], p);
      }
    }
    assert ts[..|ts|] == ts;
  }

  /** A zone by identifier first, by foreign identifier second. */
  function FindZone(byId: map<string, Zone>, byForeign: map<string, Zone>, source: string): Option<Zone> {
    if source in byId then Some(byId[source]) else FindForeign(byForeign, source)
  }

  class Cache {
    var zones: seq<Zone>
    var zonesById: map<string, Zone>
    var zonesByForeign: map<string, Zone>
    var trackables: seq<Trackable>
    var trackablesById: map<string, Trackable>
    var trackablesByProvider: map<string, seq<Trackable>>

    ghost predicate Valid()
      reads this
    {
      && ZonesAgree(zones, zonesById, zonesByForeign)
      && TrackablesAgree(trackables, trackablesById, trackablesByProvider)
    }

    constructor ()
      ensures Valid() && zones == [] && trackables == [] && ByForeignComplete(zones, zonesByForeign)
    {
      zones, zonesById, zonesByForeign := [], map[], map[];
      trackables, trackablesById, trackablesByProvider := [], map[], map[];
    }

    method UpsertZone(item: Zone)
      requires Valid()
      modifies this`zones, this`zonesById, this`zonesByForeign
      ensures Valid() && zones == UpsertIn(old(zones), item)
      ensures ZoneTables(zones, zonesByForeign) == Changed(old(ZoneTables(zones, zonesByForeign)), PutZone(item))
      ensures old(ByForeignComplete(zones, zonesByForeign)) ==>
                (ByForeignComplete(zones, zonesByForeign) <==> UniqueForeignIds(zones))
    {
      ByIdUpsert(zones, zonesById, item);
      UpsertForeign(zones, zonesByForeign, item);
      var next := UpsertItem(zones, item);
      var byForeign := ForgetForeign(zonesByForeign, item.id);
      if item.body.foreignId.Some? && item.body.foreignId.value != "" {
        byForeign := byForeign[item.body.foreignId.value := item];
      }
      zones, zonesById, zonesByForeign := next, zonesById[item.id := item], byForeign;
    }

    method DeleteZone(id: string)
      requires Valid()
      modifies this`zones, this`zonesById, this`zonesByForeign
      ensures Valid() && zones == RemoveFrom(old(zones), id)
      ensures ZoneTables(zones, zonesByForeign) == Changed(old(ZoneTables(zones, zonesByForeign)), DropZone(id))
      ensures old(ByForeignComplete(zones, zonesByForeign)) ==> ByForeignComplete(zones, zonesByForeign)
    {
      ByIdRemove(zones, zonesById, id);
      RemoveForeign(zones, zonesByForeign, id);
      var next := RemoveItem(zones, id);
      var byForeign := ForgetForeign(zonesByForeign, id);
      zones, zonesById, zonesByForeign := next, zonesById - {id}, byForeign;
    }

    method UpsertTrackable(item: Trackable)
      requires Valid()
      modifies this`trackables, this`trackablesById, this`trackablesByProvider
      ensures Valid() && trackables == UpsertIn(old(trackables), item)
    {
      ByIdUpsert(trackables, trackablesById, item);
      var without := ForgetProviderEntries(trackablesByProvider, item.id);
      var index := AddProviderEntries(without, item);
      ProviderUpsert(trackables, trackablesByProvider, without, index, item);
      var next := UpsertItem(trackables, item);
      trackables, trackablesById, trackablesByProvider := next, trackablesById[item.id := item], index;
    }

    method DeleteTrackable(id: string)
      requires Valid()
      modifies this`trackables, this`trackablesById, this`trackablesByProvider
      ensures Valid() && trackables == RemoveFrom(old(trackables), id)
    {
      ByIdRemove(trackables, trackablesById, id);
      var index := ForgetProviderEntries(trackablesByProvider, id);
      ProviderRemove(trackables, trackablesByProvider, index, id);
      var next := RemoveItem(trackables, id);
      trackables, trackablesById, trackablesByProvider := next, trackablesById - {id}, index;
    }

    /**
     Indexes rebuilt from the lists are the ones kept, provider lists up to order. The foreign
     index gives the last zone of the list for every id; with unique ids it is the one kept
     exactly when that is complete.
     */
    method Rebuild() returns (byId: map<string, Zone>, byForeign: map<string, Zone>,
                              trackableById: map<string, Trackable>, byProvider: map<string, seq<Trackable>>)
      requires Valid()
      ensures byId == zonesById && trackableById == trackablesById
      ensures ByForeignLast(zones, byForeign)
      ensures UniqueForeignIds(zones) ==> (byForeign == zonesByForeign <==> ByForeignComplete(zones, zonesByForeign))
      ensures ByForeignComplete(zones, zonesByForeign) ==> byForeign == zonesByForeign
      ensures byProvider.Keys == trackablesByProvider.Keys
      ensures forall p :: p in byProvider ==> multiset(byProvider[p]) == multiset(trackablesByProvider[p])
    {
      byId, byForeign := BuildZoneIndexes(zones);
      trackableById := BuildTrackableIndex(trackables);
      byProvider := BuildProviderIndex(trackables);
      ByIdDetermined(trackables, trackableById, trackablesById);
      ByIdDetermined(zones, byId, zonesById);
      ForeignRebuilt(zones, zonesByForeign, byForeign);
      ByProviderDetermined(trackables, byProvider, trackablesByProvider);
    }

    /** A zone by identifier first, by foreign identifier second. */
    method ZoneBySource(source: string) returns (z: Option<Zone>)
      requires Valid()
      ensures z == FindZone(zonesById, zonesByForeign, source)
      ensures z.Some? ==> z.value in zones && (z.value.id == source || HasForeign(z.value, source))
      ensures z.None? || z.value.id != source ==> forall y :: y in zones ==> y.id != source
      ensures z.None? && ByForeignComplete(zones, zonesByForeign) ==> forall y :: y in zones ==> !HasForeign(y, source)
    {
      if source in zonesById {
        return Some(zonesById[source]);
      }
      if source in zonesByForeign {
        return Some(zonesByForeign[source]);
      }
      return None;
    }

    /** The trackables of a provider, as a scan of the list would find them, up to order. */
    method TrackablesByProvider(p: string) returns (ts: seq<Trackable>)
      requires Valid()
      ensures (forall t :: t in trackables ==> Occurs(t.body.providers, p) <= 1) <==>
              multiset(ts) == multiset(Filter(trackables, ProviderTest(p)))
    {
      ProviderLookupIsScanIff(trackables, p);
      return Get(trackablesByProvider, p);
    }
  }

  // ---------------------------------------------------------------------------
  // Reconciliation
  // ---------------------------------------------------------------------------

  datatype Operation = Create | Update | Delete

  datatype Change = Change(id: string, operation: Operation)

  /** What happened to one identifier between two sets of signatures. */
  function Difference(current: map<string, string>, next: map<string, string>, id: string): Option<Operation> {
    if id in next then
      if id !in current then Some(Create) else if current[id] != next[id] then Some(Update) else None
    else if id in current then Some(Delete) else None
  }

  ghost predicate ListsChanges(changes: seq<Change>, current: map<string, string>, next: map<string, string>,
                               ids: set<string>) {
    && (forall c :: c in changes ==> c.id in ids && Difference(current, next, c.id) == Some(c.operation))
    && (forall id :: id in ids && Difference(current, next, id).Some? ==>
                       Change(id, Difference(current, next, id).value) in changes)
    && (forall i, j :: 0 <= i < j < |changes| ==> changes[i].id != changes[j].id)
  }

  /** Every changed identifier exactly once, with what happened to it. */
  method DiffSignatures(current: map<string, string>, next: map<string, string>) returns (changes: seq<Change>)
    ensures ListsChanges(changes, current, next, current.Keys + next.Keys)
    ensures Patch(current, changes, next) == next
  {
    changes := [];
    var todo := next.Keys;
    while todo != {}
      invariant todo <= next.Keys && ListsChanges(changes, current, next, next.Keys - todo)
      decreases todo
    {
      var id :| id in todo;
      if id !in current {
        changes := changes + [Change(id, Create)];
      } else if current[id] != next[id] {
        changes := changes + [Change(id, Update)];
      }
      todo := todo - {id};
    }
    todo := current.Keys;
    while todo != {}
      invariant todo <= current.Keys && ListsChanges(changes, current, next, next.Keys + (current.Keys - todo))
      decreases todo
    {
      var id :| id in todo;
      if id !in next {
        changes := changes + [Change(id, Delete)];
      }
      todo := todo - {id};
    }
    assert next.Keys + (current.Keys - {}) == current.Keys + next.Keys;
    PatchGivesNext(current, changes, next);
  }

  /** Replaying changes on the old signatures, taking new values from the next ones. */
  function Patch(current: map<string, string>, changes: seq<Change>, next: map<string, string>): map<string, string> {
    if changes == [] then current else
      var m, c := Patch(current, changes[..|changes| - 1], next), changes[|changes| - 1];
      if c.operation == Delete then m - {c.id} else if c.id in next then m[c.id := next[c.id]] else m
  }

  ghost predicate Mentioned(changes: seq<Change>, id: string) {
    exists i :: 0 <= i < |changes| && changes[i].id == id
  }

  lemma MentionedSnoc(changes: seq<Change>, c: Change, id: string)
    ensures Mentioned(changes + [c], id) <==> Mentioned(changes, id) || c.id == id
  {
    var all := changes + [c];
    if Mentioned(changes, id) {
      var i :| 0 <= i < |changes| && changes[i].id == id;
      assert all[i].id == id;
    }
    if c.id == id {
      assert all[|changes|].id == id;
    }
  }

  lemma {:induction false} PatchLookup(current: map<string, string>, changes: seq<Change>, next: map<string, string>,
                                       id: string)
    requires forall i :: 0 <= i < |changes| ==> Difference(current, next, changes[i].id) == Some(changes[i].operation)
    requires forall i, j :: 0 <= i < j < |changes| ==> changes[i].id != changes[j].id
    ensures var m := Patch(current, changes, next);
            if Mentioned(changes, id)
            then (id in m <==> id in next) && (id in m ==> m[id] == next[id])
            else (id in m <==> id in current) && (id in m ==> m[id] == current[id])
  {
    if changes != [] {
      var init, c := changes[..|changes| - 1], changes[|changes| - 1];
      assert changes == init + [c];
      PatchLookup(current, init, next, id);
      MentionedSnoc(init, c, id);
    }
  }

  lemma PatchGivesNext(current: map<string, string>, changes: seq<Change>, next: map<string, string>)
    requires ListsChanges(changes, current, next, current.Keys + next.Keys)
    ensures Patch(current, changes, next) == next
  {
    var m := Patch(current, changes, next);
    forall id ensures (id in m <==> id in next) && (id in m ==> m[id] == next[id]) {
      PatchLookup(current, changes, next, id);
      if Difference(current, next, id).Some? {
        assert Change(id, Difference(current, next, id).value) in changes;
      }
    }
  }
}
