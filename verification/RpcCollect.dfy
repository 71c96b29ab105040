/**
 Aggregating the responses to one JSON-RPC request: responses are received until the mode
 is satisfied or the time is up.
 */
module RpcCollect {
  import opened Wrappers
  import opened Sequences

  type Payload = string

  datatype Mode = AllWithinTimeout | ReturnFirstError | ReturnFirstSuccess | Unknown

  /** The request's aggregation parameter is optional. */
  function ModeOf(aggregation: Option<Mode>): Mode {
    if aggregation.Some? then aggregation.value else AllWithinTimeout
  }

  datatype Reply = Responses(all: seq<Payload>) | Single(payload: Payload) | TimedOut | NoSuccess

  /** Which payloads carry a JSON-RPC error member. */
  type ErrorTest = Payload -> bool

  function Arrived(): Payload -> bool {
    (p: Payload) => p != ""
  }

  function Errors(isError: ErrorTest): Payload -> bool {
    (p: Payload) => p != "" && isError(p)
  }

  function Successes(isError: ErrorTest): Payload -> bool {
    (p: Payload) => p != "" && !isError(p)
  }

  function First(ps: seq<Payload>, test: Payload -> bool): Option<Payload> {
    if Filter(ps, test) == [] then None else Some(Filter(ps, test)[0])
  }

  function Prefer(a: Option<Payload>, b: Option<Payload>): Reply {
    if a.Some? then Single(a.value) else if b.Some? then Single(b.value) else TimedOut
  }

  /** The answer a request deserves for everything that arrives in time. */
  function Answer(mode: Mode, isError: ErrorTest, arrivals: seq<Payload>): Reply {
    var success, error := First(arrivals, Successes(isError)), First(arrivals, Errors(isError));
    match mode
    case AllWithinTimeout => Responses(Filter(arrivals, Arrived()))
    case ReturnFirstError => Prefer(error, success)
    case _ => Prefer(success, error)
  }

  /** The payloads that end the wait early. */
  function Decisive(mode: Mode, isError: ErrorTest): Payload -> bool {
    (p: Payload) => p != "" && ((mode == ReturnFirstError && isError(p)) || (mode == ReturnFirstSuccess && !isError(p)))
  }

  /** The first match so far, kept as an empty payload while there is none. */
  ghost predicate Holds(kept: Payload, ps: seq<Payload>, test: Payload -> bool) {
    First(ps, test) == if kept == "" then None else Some(kept)
  }

  lemma {:induction false} FirstStable(ps: seq<Payload>, more: seq<Payload>, test: Payload -> bool)
    requires First(ps, test).Some?
    ensures First(ps + more, test) == First(ps, test)
  {
    FilterConcat(ps, more, test);
  }

  /** A decisive response settles the answer, whatever arrives later. */
  lemma DecisiveSettles(mode: Mode, isError: ErrorTest, ps: seq<Payload>, p: Payload, more: seq<Payload>)
    requires Decisive(mode, isError)(p) && forall i :: 0 <= i < |ps| ==> !Decisive(mode, isError)(ps[i])
    ensures Answer(mode, isError, ps + [p] + more) == Single(p)
  {
    var test := if mode == ReturnFirstError then Errors(isError) else Successes(isError);
    forall q | q in ps ensures !test(q) {
      var i :| 0 <= i < |ps| && ps[i] == q;
      assert !Decisive(mode, isError)(ps[i]);
    }
    FilterNone(ps, test);
    FilterSnoc(ps, p, test);
    FirstStable(ps + [p], more, test);
  }

  /** Nothing that arrived is neither a success nor an error. */
  lemma {:induction false} NothingFirst(ps: seq<Payload>, isError: ErrorTest)
    ensures Filter(ps, Arrived()) == [] <==> First(ps, Errors(isError)).None? && First(ps, Successes(isError)).None?
  {
    if ps != [] {
      NothingFirst(ps[..|ps| - 1], isError);
    }
  }

  /** The request times out exactly when nothing arrived and not every response was asked for. */
  lemma TimedOutIff(mode: Mode, isError: ErrorTest, arrivals: seq<Payload>)
    ensures Answer(mode, isError, arrivals) == TimedOut <==>
            mode != AllWithinTimeout && forall p :: p in arrivals ==> p == ""
  {
    NothingFirst(arrivals, isError);
    if Filter(arrivals, Arrived()) == [] {
      forall p | p in arrivals ensures p == "" {
        FilterMember(arrivals, Arrived(), p);
      }
    } else {
      FilterMember(arrivals, Arrived(), Filter(arrivals, Arrived())[0]);
    }
  }

  /**
   A single response that is returned is one that arrived, and it is of the other kind only
   if none of the wanted kind came.
   */
  lemma SingleIsWanted(mode: Mode, isError: ErrorTest, arrivals: seq<Payload>)
    requires Answer(mode, isError, arrivals).Single?
    ensures var p := Answer(mode, isError, arrivals).payload;
            && p in arrivals && p != ""
            && (isError(p) == (mode == ReturnFirstError) ||
                forall q :: q in arrivals && q != "" ==> isError(q) != (mode == ReturnFirstError))
  {
    var wanted := if mode == ReturnFirstError then Errors(isError) else Successes(isError);
    var other := if mode == ReturnFirstError then Successes(isError) else Errors(isError);
    var p := Answer(mode, isError, arrivals).payload;
    if First(arrivals, wanted).Some? {
      FilterMember(arrivals, wanted, p);
    } else {
      FilterMember(arrivals, other, p);
      forall q | q in arrivals && q != "" ensures isError(q) != (mode == ReturnFirstError) {
        FilterMember(arrivals, wanted, q);
      }
    }
  }

  /** A filter keeps what passes, as often as it came, and nothing else. */
  lemma {:induction false} FilterCounts(ps: seq<Payload>, test: Payload -> bool, p: Payload)
    ensures multiset(Filter(ps, test))[p] == if test(p) then multiset(ps)[p] else 0
  {
    if ps != [] {
      var init, last := ps[..|ps| - 1], ps[|ps| - 1];
      assert ps == init + [last];
      FilterCounts(init, test, p);
      FilterSnoc(init, last, test);
    }
  }

  lemma {:induction false} FilterInOrder(ps: seq<Payload>, test: Payload -> bool)
    ensures Subsequence(Filter(ps, test), ps)
  {
    if ps != [] {
      var init, last := ps[..|ps| - 1], ps[|ps| - 1];
      assert ps == init + [last];
      FilterInOrder(init, test);
      FilterSnoc(init, last, test);
      SubsequenceGrow(Filter(init, test), init, last);
    }
  }

  /** All responses: every arrival that is not empty as often as it came, in the order of arrival, and no other. */
  lemma AllListed(isError: ErrorTest, arrivals: seq<Payload>)
    ensures var reply := Answer(AllWithinTimeout, isError, arrivals);
            && reply.Responses? && Subsequence(reply.all, arrivals)
            && forall p :: multiset(reply.all)[p] == if p == "" then 0 else multiset(arrivals)[p]
  {
    FilterInOrder(arrivals, Arrived());
    var all := Answer(AllWithinTimeout, isError, arrivals).all;
    forall p ensures multiset(all)[p] == if p == "" then 0 else multiset(arrivals)[p] {
      FilterCounts(arrivals, Arrived(), p);
    }
  }

  /** The position of the first arrival that passes. */
  lemma {:induction false} FirstAt(ps: seq<Payload>, test: Payload -> bool) returns (i: nat)
    requires First(ps, test).Some?
    ensures i < |ps| && ps[i] == First(ps, test).value && test(ps[i]) && forall j :: 0 <= j < i ==> !test(ps[j])
  {
    var init, last := ps[..|ps| - 1], ps[|ps| - 1];
    assert ps == init + [last];
    FilterSnoc(init, last, test);
    if First(init, test).Some? {
      i := FirstAt(init, test);
    } else {
      i := |ps| - 1;
      forall j | 0 <= j < i ensures !test(ps[j]) {
        FilterMember(init, test, init[j]);
      }
    }
  }

  /** A single response that is returned is the first of its kind to arrive. */
  lemma SingleIsFirst(mode: Mode, isError: ErrorTest, arrivals: seq<Payload>) returns (i: nat)
    requires Answer(mode, isError, arrivals).Single?
    ensures i < |arrivals| && arrivals[i] == Answer(mode, isError, arrivals).payload
    ensures forall j :: 0 <= j < i ==> arrivals[j] == "" || isError(arrivals[j]) != isError(arrivals[i])
  {
    var wanted := if mode == ReturnFirstError then Errors(isError) else Successes(isError);
    var other := if mode == ReturnFirstError then Successes(isError) else Errors(isError);
    i := FirstAt(arrivals, if First(arrivals, wanted).Some? then wanted else other);
  }

  /** What the three variables hold after some arrivals. */
  ghost predicate Kept(ps: seq<Payload>, isError: ErrorTest, all: seq<Payload>, firstSuccess: Payload,
                       firstError: Payload) {
    && all == Filter(ps, Arrived())
    && Holds(firstSuccess, ps, Successes(isError))
    && Holds(firstError, ps, Errors(isError))
  }

  lemma KeepNext(ps: seq<Payload>, p: Payload, isError: ErrorTest, all: seq<Payload>, firstSuccess: Payload,
                 firstError: Payload)
    requires Kept(ps, isError, all, firstSuccess, firstError)
    ensures p == "" ==> Kept(ps + [p], isError, all, firstSuccess, firstError)
    ensures p != "" && isError(p) ==>
              Kept(ps + [p], isError, all + [p], firstSuccess, if firstError == "" then p else firstError)
    ensures p != "" && !isError(p) ==>
              Kept(ps + [p], isError, all + [p], if firstSuccess == "" then p else firstSuccess, firstError)
  {
  }

  /** What the bridge makes of its three variables when the time is up. */
  function AtTimeout(mode: Mode, all: seq<Payload>, firstSuccess: Payload, firstError: Payload): Reply {
    if mode == AllWithinTimeout then Responses(all)
    else if mode == ReturnFirstError && firstError != "" then Single(firstError)
    else if mode == ReturnFirstError && firstSuccess != "" then Single(firstSuccess)
    else if mode != ReturnFirstError && firstSuccess != "" then Single(firstSuccess)
    else if mode != ReturnFirstError && firstError != "" then Single(firstError)
    else if all == [] then TimedOut
    else NoSuccess
  }

  lemma TimeoutAnswers(mode: Mode, ps: seq<Payload>, isError: ErrorTest, all: seq<Payload>, firstSuccess: Payload,
                       firstError: Payload)
    requires Kept(ps, isError, all, firstSuccess, firstError)
    ensures AtTimeout(mode, all, firstSuccess, firstError) == Answer(mode, isError, ps)
  {
    NothingFirst(ps, isError);
  }

  /**
   Receives until the mode is satisfied or the arrivals end with the timeout. The answer
   is the one for all arrivals even though it may come before the later ones.
   */
  method CollectResponses(aggregation: Option<Mode>, isError: ErrorTest, arrivals: seq<Payload>)
    returns (reply: Reply, ghost taken: nat)
    ensures reply == Answer(ModeOf(aggregation), isError, arrivals) && reply != NoSuccess
    ensures taken <= |arrivals|
    ensures taken < |arrivals| ==> taken > 0 && Decisive(ModeOf(aggregation), isError)(arrivals[taken - 1])
    ensures forall i :: 0 <= i < |arrivals| && Decisive(ModeOf(aggregation), isError)(arrivals[i]) ==> taken <= i + 1
  {
    var mode := ModeOf(aggregation);
    var firstSuccess: Payload, firstError: Payload, all: seq<Payload> := "", "", [];
    for i := 0 to |arrivals|
      invariant Kept(arrivals[..i], isError, all, firstSuccess, firstError)
      invariant forall n :: 0 <= n < i ==> !Decisive(mode, isError)(arrivals[n])
    {
      var payload := arrivals[i];
      assert arrivals[..i + 1] == arrivals[..i] + [payload];
      assert arrivals == arrivals[..i] + [payload] + arrivals[i + 1..];
      KeepNext(arrivals[..i], payload, isError, all, firstSuccess, firstError);
      if |payload| == 0 {
        continue;
      }
      all := all + [payload];
      if isError(payload) {
        if |firstError| == 0 {
          firstError := payload;
        }
        if mode == ReturnFirstError {
          DecisiveSettles(mode, isError, arrivals[..i], payload, arrivals[i + 1..]);
          return Single(payload), i + 1;
        }
        continue;
      }
      if |firstSuccess| == 0 {
        firstSuccess := payload;
      }
      if mode == ReturnFirstSuccess {
        DecisiveSettles(mode, isError, arrivals[..i], payload, arrivals[i + 1..]);
        return Single(payload), i + 1;
      }
    }
    assert arrivals[..|arrivals|] == arrivals;
    TimeoutAnswers(mode, arrivals, isError, all, firstSuccess, firstError);
    reply, taken := AtTimeout(mode, all, firstSuccess, firstError), |arrivals|;
  }
}
