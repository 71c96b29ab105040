/**
 One key's view of a subscriber: the events sent and accepted for it, its pending value and
 what the flusher holds of it. Every step of the bus is one of a few moves of this view.
 */
module KeyMoves {
  import opened Wrappers
  import opened Sequences
  import opened EventBus

  datatype KeyFlight = NoFlight | PeekedFor(event: Event) | GoneFor(event: Event)

  /** What happened to one key: sent and accepted events, the pending value and the flight. */
  datatype View = View(sent: seq<Event>, accepted: seq<Event>, pending: Option<Event>, flight: KeyFlight)

  /** The moves a key can see. */
  datatype Move = Nothing | Hold(held: Event) | Direct(direct: Event) | Clear | Peek | Send | Abort | Remove

  predicate Enabled(v: View, m: Move) {
    match m
    case Peek => v.pending.Some? && v.flight.NoFlight?
    case Send => v.flight.PeekedFor?
    case Abort => v.flight.PeekedFor?
    case Remove => v.flight.GoneFor?
    case _ => true
  }

  function Moved(v: View, m: Move): View
    requires Enabled(v, m)
  {
    match m
    case Nothing => v
    case Hold(e) => v.(accepted := v.accepted + [e], pending := Some(e))
    case Direct(e) => v.(accepted := v.accepted + [e], sent := v.sent + [e])
    case Clear => v.(pending := None)
    case Peek => v.(flight := PeekedFor(v.pending.value))
    case Send => v.(sent := v.sent + [v.flight.event], flight := GoneFor(v.flight.event))
    case Abort => v.(flight := NoFlight)
    case Remove => v.(pending := None, flight := NoFlight)
  }

  // ---------------------------------------------------------------------------
  // Moves and order
  // ---------------------------------------------------------------------------

  predicate InFlight(v: View, e: Event) {
    !v.flight.NoFlight? && v.flight.event == e
  }

  function Newer(v: View, e: Event): seq<Event> {
    if v.pending.Some? && v.pending.value != e then [v.pending.value] else []
  }

  /** The part of a key's line that a new pending value does not replace. */
  function Base(v: View): seq<Event> {
    if v.flight.PeekedFor? then v.sent + [v.flight.event] else v.sent
  }

  /** What reached the channel for a key, followed by what is still on its way. */
  function Line(v: View): seq<Event> {
    match v.flight
    case NoFlight => if v.pending.Some? then v.sent + [v.pending.value] else v.sent
    case PeekedFor(e) => Base(v) + Newer(v, e)
    case GoneFor(e) => Base(v) + Newer(v, e)
  }

  function Last(s: seq<Event>): Option<Event> {
    if s == [] then None else Some(s[|s| - 1])
  }

  /** The line is a subsequence of the accepted events. */
  ghost predicate InOrder(v: View) {
    Subsequence(Line(v), v.accepted)
  }

  /** A direct send while an earlier event is still on its way. */
  predicate Overtakes(v: View, m: Move) {
    m.Direct? && Line(v) != v.sent
  }

  lemma BaseOrdered(v: View)
    requires InOrder(v)
    ensures Subsequence(Base(v), v.accepted)
  {
    var line, base := Line(v), Base(v);
    if line != base {
      assert line[..|line| - 1] == base;
      SubsequenceInit(line, v.accepted);
    }
  }

  /** A held event ends the line, unless it is the very event in flight. */
  lemma HoldLine(v: View, e: Event)
    ensures Line(Moved(v, Hold(e))) == if InFlight(v, e) then Base(v) else Base(v) + [e]
  {
    assert Base(v) + [] == Base(v);
  }

  /** A direct send slips in behind what was sent. */
  lemma DirectLine(v: View, e: Event)
    ensures v.sent <= Line(v) && Line(Moved(v, Direct(e))) == v.sent + [e] + Line(v)[|v.sent|..]
  {
  }

  /** Every other move but a hold keeps the line or takes something from behind what was sent. */
  lemma LaterLine(v: View, m: Move)
    requires Enabled(v, m) && !m.Hold? && !m.Direct?
    ensures var line := Line(Moved(v, m));
            line == Line(v) || line == Base(v) || line == v.sent ||
            (m.Abort? && v.pending.Some? && Line(v) == v.sent + [v.flight.event, v.pending.value] &&
             line == v.sent + [v.pending.value])
  {
  }

  lemma SentOrdered(v: View)
    requires InOrder(v)
    ensures Subsequence(v.sent, v.accepted)
  {
    BaseOrdered(v);
    if v.flight.PeekedFor? {
      assert Base(v)[..|Base(v)| - 1] == v.sent;
      SubsequenceInit(Base(v), v.accepted);
    }
  }

  lemma SkipOne(a: seq<Event>, e: Event, p: Event, accepted: seq<Event>)
    requires Subsequence(a + [e, p], accepted)
    ensures Subsequence(a + [p], accepted)
  {
    SubsequenceReflexive(a);
    SubsequenceGrow(a, a, e);
    SubsequenceGrow(a, a + [e], p);
    assert a + [e] + [p] == a + [e, p];
    SubsequenceTransitive(a + [p], a + [e, p], accepted);
  }

  /** A move keeps the line a subsequence of what was accepted, unless it overtakes. */
  lemma MoveKeepsOrder(v: View, m: Move)
    requires Enabled(v, m) && InOrder(v) && !Overtakes(v, m)
    ensures InOrder(Moved(v, m))
  {
    BaseOrdered(v);
    SentOrdered(v);
    if m.Hold? {
      HoldLine(v, m.held);
      SubsequenceGrow(Base(v), v.accepted, m.held);
    } else if m.Direct? {
      DirectLine(v, m.direct);
      SubsequenceGrow(v.sent, v.accepted, m.direct);
      assert v.sent + [m.direct] + [] == v.sent + [m.direct];
    } else {
      LaterLine(v, m);
      if m.Abort? && v.pending.Some? && Line(v) == v.sent + [v.flight.event, v.pending.value] {
        SkipOne(v.sent, v.flight.event, v.pending.value, v.accepted);
      }
    }
  }

  lemma {:induction false} SubsequenceMember(a: seq<Event>, b: seq<Event>, x: Event)
    requires Subsequence(a, b) && x in a
    ensures x in b
    decreases |a| + |b|
  {
    var last := a[|a| - 1];
    if last == b[|b| - 1] && Subsequence(a[..|a| - 1], b[..|b| - 1]) {
      if x != last {
        SubsequenceMember(a[..|a| - 1], b[..|b| - 1], x);
      }
    } else {
      SubsequenceMember(a, b[..|b| - 1], x);
    }
  }

  /** A new event that overtakes breaks the order. */
  lemma OvertakingBreaks(v: View, e: Event)
    requires InOrder(v) && Line(v) != v.sent && e !in v.accepted
    ensures !InOrder(Moved(v, Direct(e)))
  {
    DirectLine(v, e);
    var line, rest := Line(Moved(v, Direct(e))), Line(v)[|v.sent|..];
    var last := rest[|rest| - 1];
    assert last in Line(v) && line[|line| - 1] == last;
    SubsequenceMember(Line(v), v.accepted, last);
    assert (v.accepted + [e])[..|v.accepted|] == v.accepted;
    if Subsequence(line, v.accepted + [e]) {
      assert e in line;
      SubsequenceMember(line, v.accepted, e);
    }
  }

  // ---------------------------------------------------------------------------
  // Moves and the latest value
  // ---------------------------------------------------------------------------

  /** The line ends in the event accepted last. */
  ghost predicate EndsInLatest(v: View) {
    v.accepted != [] ==> Last(Line(v)) == Last(v.accepted)
  }

  /** A clear or remove that deletes a pending value other than the one in flight. */
  predicate TakesAway(v: View, m: Move) {
    (m.Clear? || m.Remove?) && v.pending.Some? && !InFlight(v, v.pending.value)
  }

  /** A send that finds no room after its event was cleared from the backlog. */
  predicate Strands(v: View, m: Move) {
    m.Abort? && v.pending.None?
  }

  predicate Loses(v: View, m: Move) {
    Overtakes(v, m) || TakesAway(v, m) || Strands(v, m)
  }

  /** The move does not confuse equal events. */
  ghost predicate Clean(v: View, m: Move) {
    && (v.accepted == [] ==> Line(v) == [])
    && (m.Hold? && v.flight.GoneFor? && v.flight.event == m.held ==> Last(v.sent) == Some(m.held))
    && (TakesAway(v, m) ==> Last(v.sent) != v.pending)
    && (Strands(v, m) && v.flight.PeekedFor? ==> Last(v.sent) != Some(v.flight.event))
    && (Overtakes(v, m) ==> Last(Line(v)) != Some(m.direct))
  }

  lemma AcceptLatestIff(v: View, m: Move)
    requires (m.Hold? || m.Direct?) && Clean(v, m)
    ensures EndsInLatest(Moved(v, m)) <==> !Loses(v, m)
  {
    if m.Hold? {
      HoldLine(v, m.held);
    } else {
      DirectLine(v, m.direct);
      var rest := Line(v)[|v.sent|..];
      assert v.sent + [m.direct] + [] == v.sent + [m.direct];
      assert Line(v) == v.sent + rest;
    }
  }

  /** A move keeps the latest value at the end of the line exactly if it does not lose. */
  lemma MoveLatestIff(v: View, m: Move)
    requires Enabled(v, m) && EndsInLatest(v) && Clean(v, m)
    ensures EndsInLatest(Moved(v, m)) <==> !Loses(v, m)
  {
    if m.Hold? || m.Direct? {
      AcceptLatestIff(v, m);
    }
  }

  // ---------------------------------------------------------------------------
  // Moves of distinct events
  // ---------------------------------------------------------------------------

  ghost predicate Within(s: seq<Event>, accepted: seq<Event>) {
    forall x :: x in s ==> x in accepted
  }

  /** No event is twice on the line, and everything known was accepted. */
  ghost predicate Tidy(v: View) {
    && NoDuplicates(Line(v)) && Within(Line(v), v.accepted)
    && (!v.flight.NoFlight? ==> v.flight.event in v.accepted)
  }

  predicate Fresh(v: View, m: Move) {
    (m.Hold? ==> m.held !in v.accepted) && (m.Direct? ==> m.direct !in v.accepted)
  }

  /** The last event sent is not on its way again. */
  lemma SentOnce(v: View, j: nat)
    requires NoDuplicates(Line(v)) && |v.sent| <= j < |Line(v)|
    ensures Last(v.sent) != Some(Line(v)[j])
  {
    if v.sent != [] {
      assert Line(v)[|v.sent| - 1] == v.sent[|v.sent| - 1];
    }
  }

  lemma LastWithin(v: View)
    requires Within(Line(v), v.accepted)
    ensures v.accepted == [] ==> Line(v) == []
    ensures Line(v) != [] ==> Last(Line(v)).value in v.accepted
  {
    if Line(v) != [] {
      assert Line(v)[|Line(v)| - 1] in Line(v);
    }
  }

  lemma TidyIsClean(v: View, m: Move)
    requires Enabled(v, m) && Tidy(v) && Fresh(v, m)
    ensures Clean(v, m)
  {
    LastWithin(v);
    if TakesAway(v, m) {
      SentOnce(v, |Line(v)| - 1);
      assert Line(v)[|Line(v)| - 1] == v.pending.value;
    } else if Strands(v, m) {
      SentOnce(v, |v.sent|);
    }
  }

  lemma SnocTidy(s: seq<Event>, e: Event, accepted: seq<Event>)
    requires NoDuplicates(s) && e !in accepted && Within(s, accepted)
    ensures NoDuplicates(s + [e]) && Within(s + [e], accepted + [e])
  {
  }

  lemma TidyPrefix(line: seq<Event>, part: seq<Event>, accepted: seq<Event>)
    requires part <= line && NoDuplicates(line) && Within(line, accepted)
    ensures NoDuplicates(part) && Within(part, accepted)
  {
    assert forall i :: 0 <= i < |part| ==> part[i] == line[i] && part[i] in line;
  }

  lemma TidyInsert(line: seq<Event>, n: nat, e: Event, accepted: seq<Event>)
    requires n <= |line| && NoDuplicates(line) && e !in accepted && Within(line, accepted)
    ensures var grown := line[..n] + [e] + line[n..]; NoDuplicates(grown) && Within(grown, accepted + [e])
  {
    var grown := line[..n] + [e] + line[n..];
    assert forall i :: 0 <= i < |grown| ==> grown[i] == if i < n then line[i] else if i == n then e else line[i - 1];
    assert forall i :: 0 <= i < |line| ==> line[i] in line;
  }

  lemma TidySkip(s: seq<Event>, e: Event, p: Event)
    requires NoDuplicates(s + [e, p])
    ensures NoDuplicates(s + [p])
  {
    var line, less := s + [e, p], s + [p];
    forall i, j | 0 <= i < j < |less| ensures less[i] != less[j] {
      assert less[i] == line[i] && less[j] == line[if j < |s| then j else j + 1];
    }
  }

  lemma TidyAccept(v: View, m: Move)
    requires (m.Hold? || m.Direct?) && Tidy(v) && Fresh(v, m)
    ensures Tidy(Moved(v, m))
  {
    if m.Hold? {
      HoldLine(v, m.held);
      TidyPrefix(Line(v), Base(v), v.accepted);
      SnocTidy(Base(v), m.held, v.accepted);
    } else {
      DirectLine(v, m.direct);
      assert Line(v)[..|v.sent|] == v.sent;
      TidyInsert(Line(v), |v.sent|, m.direct, v.accepted);
    }
  }

  lemma TidyMove(v: View, m: Move)
    requires Enabled(v, m) && Tidy(v) && Fresh(v, m)
    ensures Tidy(Moved(v, m))
  {
    if m.Hold? || m.Direct? {
      TidyAccept(v, m);
    } else {
      LaterLine(v, m);
      TidyPrefix(Line(v), Base(v), v.accepted);
      TidyPrefix(Line(v), v.sent, v.accepted);
      if m.Abort? && v.pending.Some? && Line(v) == v.sent + [v.flight.event, v.pending.value] {
        TidySkip(v.sent, v.flight.event, v.pending.value);
      }
      if m.Peek? {
        assert Line(v)[|v.sent|] == v.pending.value;
      }
    }
  }

  // ---------------------------------------------------------------------------
  // Moves with one emitter
  // ---------------------------------------------------------------------------

  /** With one emitter a direct send meets nothing on its way, and nothing is cleared or cleared away in flight. */
  predicate Strict(v: View, m: Move) {
    match m
    case Direct(_) => v.pending.None? && v.flight.NoFlight?
    case Clear => v.pending.None?
    case Send => v.pending.Some?
    case Abort => v.pending.Some?
    case Remove => v.pending.Some?
    case _ => true
  }

  /** A gone event is the last one sent. */
  ghost predicate Settled(v: View) {
    v.flight.GoneFor? ==> Last(v.sent) == Some(v.flight.event)
  }

  lemma StrictMove(v: View, m: Move)
    requires Enabled(v, m) && Strict(v, m) && Settled(v)
    ensures Settled(Moved(v, m)) && !Overtakes(v, m)
    ensures InOrder(v) ==> Clean(v, m)
    ensures Loses(v, m) <==> m.Remove? && v.pending.value != v.flight.event
  {
  }

  /** While nothing is delivered for k between a peek and its remove, the flight carries the pending value. */
  ghost predicate FlightIsPending(v: View) {
    !v.flight.NoFlight? ==> v.pending == Some(v.flight.event)
  }

  lemma UndisturbedMove(v: View, m: Move)
    requires Enabled(v, m) && Strict(v, m) && FlightIsPending(v) && (m.Hold? ==> v.flight.NoFlight?)
    ensures FlightIsPending(Moved(v, m))
  {
  }
}
