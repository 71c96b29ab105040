/** The key under which the event bus coalesces events of one stream. */
module CoalescingKeys {
  import opened Wrappers

  datatype Kind = LocationEvent | ProximityEvent | MotionEvent | FenceEvent | CollisionEvent | MetadataEvent

  datatype Payload =
    | LocationEnvelope(locationProvider: string, source: string)
    | MotionEnvelope(motionProvider: string, trackable: string)
    | OtherEnvelope

  datatype Event = Event(kind: Kind, scope: string, payload: Payload)

  function StreamKey(prefix: string, scope: string, provider: string, id: string): string {
    prefix + "|" + scope + "|" + provider + "|" + id
  }

  function CoalescingKey(e: Event): Option<string> {
    match e.kind
    case LocationEvent =>
      if e.payload.LocationEnvelope?
      then Some(StreamKey("location", e.scope, e.payload.locationProvider, e.payload.source)) else None
    case MotionEvent =>
      if e.payload.MotionEnvelope?
      then Some(StreamKey("trackable_motion", e.scope, e.payload.motionProvider, e.payload.trackable)) else None
    case _ => None
  }

  // ---------------------------------------------------------------------------
  // Which events share a key
  // ---------------------------------------------------------------------------

  /** The separator moves from one provider into the other's identifier. */
  ghost predicate Shifted(provider: string, id: string, provider': string, id': string) {
    exists r :: provider' == provider + "|" + r && id == r + "|" + id'
  }

  lemma ShiftFromShorter(p: string, i: string, p': string, i': string)
    requires p + "|" + i == p' + "|" + i' && |p| < |p'|
    ensures Shifted(p, i, p', i')
  {
    var whole := p + "|" + i;
    assert whole[..|p|] == p && whole[..|p'|] == p';
    assert whole[|p|] == '|' && whole[|p'|] == '|';
    var r := p'[|p| + 1..];
    assert p' == p'[..|p|] + [p'[|p|]] + r;
    assert p'[..|p|] == whole[..|p'|][..|p|] == p;
    assert p'[|p|] == whole[..|p'|][|p|] == '|';
    assert p' == p + "|" + r;
    assert i == whole[|p| + 1..];
    assert whole == p + "|" + (r + "|" + i');
  }

  lemma ShiftedJoins(p: string, i: string, p': string, i': string)
    requires Shifted(p, i, p', i')
    ensures p + "|" + i == p' + "|" + i'
  {
    var r :| p' == p + "|" + r && i == r + "|" + i';
    assert p + "|" + i == p + "|" + r + "|" + i' == p' + "|" + i';
  }

  /** Joining two identifiers is ambiguous exactly by shifting a separator. */
  lemma JoinedIff(p: string, i: string, p': string, i': string)
    ensures p + "|" + i == p' + "|" + i' <==>
            (p == p' && i == i') || Shifted(p, i, p', i') || Shifted(p', i', p, i)
  {
    var a, b := p + "|" + i, p' + "|" + i';
    if a == b {
      if |p| < |p'| {
        ShiftFromShorter(p, i, p', i');
      } else if |p'| < |p| {
        ShiftFromShorter(p', i', p, i);
      } else {
        assert p == a[..|p|] == p' && i == a[|p| + 1..] == i';
      }
    }
    if Shifted(p, i, p', i') {
      ShiftedJoins(p, i, p', i');
    }
    if Shifted(p', i', p, i) {
      ShiftedJoins(p', i', p, i);
    }
  }

  /** A part without separators can be split off in one way only. */
  lemma SplitPlain(a: string, b: string, c: string, d: string)
    requires '|' !in a && '|' !in c
    ensures a + "|" + b == c + "|" + d <==> a == c && b == d
  {
    var x, y := a + "|" + b, c + "|" + d;
    if x == y {
      assert x[|a|] == '|' && y[|c|] == '|';
      assert forall k :: 0 <= k < |a| ==> x[k] == a[k];
      assert forall k :: 0 <= k < |c| ==> y[k] == c[k];
      assert |a| == |c|;
      assert a == x[..|a|] && c == y[..|c|] && b == x[|a| + 1..] && d == y[|c| + 1..];
    }
  }

  lemma KeyParts(prefix: string, scope: string, p: string, i: string)
    ensures StreamKey(prefix, scope, p, i) == prefix + "|" + (scope + "|" + (p + "|" + i))
  {
  }

  /** The provider and identifier that an event is keyed by. */
  function Identity(e: Event): (string, string) {
    match e.payload
    case LocationEnvelope(p, s) => (p, s)
    case MotionEnvelope(p, t) => (p, t)
    case OtherEnvelope => ("", "")
  }

  function KindText(k: Kind): string {
    if k == LocationEvent then "location" else "trackable_motion"
  }

  /**
   Two keyed events share a key exactly when kind and scope agree and their identities are
   equal or one separator apart.
   */
  lemma SameKeyIff(e: Event, f: Event)
    requires '|' !in e.scope && '|' !in f.scope && CoalescingKey(e).Some? && CoalescingKey(f).Some?
    ensures var (p, i) := Identity(e);
            var (p', i') := Identity(f);
            CoalescingKey(e) == CoalescingKey(f) <==>
            e.kind == f.kind && e.scope == f.scope &&
            ((p == p' && i == i') || Shifted(p, i, p', i') || Shifted(p', i', p, i))
  {
    var (p, i) := Identity(e);
    var (p', i') := Identity(f);
    KeyParts(KindText(e.kind), e.scope, p, i);
    KeyParts(KindText(f.kind), f.scope, p', i');
    SplitPlain(KindText(e.kind), e.scope + "|" + (p + "|" + i), KindText(f.kind), f.scope + "|" + (p' + "|" + i'));
    SplitPlain(e.scope, p + "|" + i, f.scope, p' + "|" + i');
    JoinedIff(p, i, p', i');
    assert KindText(e.kind) == KindText(f.kind) <==> e.kind == f.kind;
  }

  /** Location and motion events with their own envelope are coalesced, and no other events. */
  lemma KeyedIff(e: Event)
    ensures CoalescingKey(e).Some? <==>
            || (e.kind == LocationEvent && e.payload.LocationEnvelope?)
            || (e.kind == MotionEvent && e.payload.MotionEnvelope?)
  {
  }

  /** Two streams of different providers that coalesce into one. */
  lemma StreamsCoalesce()
    ensures var e := Event(LocationEvent, "local", LocationEnvelope("a", "b|c"));
            var f := Event(LocationEvent, "local", LocationEnvelope("a|b", "c"));
            Identity(e) != Identity(f) && CoalescingKey(e).Some? && CoalescingKey(e) == CoalescingKey(f)
  {
    assert "a" + "|" + "b|c" == "a|b" + "|" + "c";
    KeyParts("location", "local", "a", "b|c");
    KeyParts("location", "local", "a|b", "c");
  }
}
