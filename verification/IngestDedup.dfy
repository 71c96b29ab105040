/** Suppression of repeated locations at ingest: the dedup key and the store together. */
module IngestDedup {
  import opened ProcessingState
  import opened StoreHistory
  import opened DedupEncoding
  import opened DedupLocation

  ghost predicate CollisionFree(digest: Bytes -> string) {
    forall x, y :: digest(x) == digest(y) ==> x == y
  }

  /** Every dedup call of the run was made for the location that `of` names. */
  ghost predicate KeyedByLocation<V>(trace: seq<Call<V>>, of: nat -> Location, digest: Bytes -> string) {
    forall i: nat :: i < |trace| && trace[i].op.Deduplicate? ==> trace[i].op.key == digest(Stream(of(i)))
  }

  /**
   In any run of store operations, sweeps included, a suppressed location equals one that
   was accepted less than its time-to-live ago.
   */
  lemma SuppressedByEqual<V>(trace: seq<Call<V>>, of: nat -> Location, digest: Bytes -> string, n: nat) returns (i: nat)
    requires Chronological(trace) && CollisionFree(digest) && KeyedByLocation(trace, of, digest)
    requires n < |trace| && trace[n].op.Deduplicate?
    requires Answer(ActualAfter(trace, n), trace[n].op, trace[n].at) == Accepted(false)
    ensures i < n && trace[i].op.Deduplicate? && of(i) == of(n)
    ensures Answer(ActualAfter(trace, i), trace[i].op, trace[i].at) == Accepted(true)
    ensures trace[i].at <= trace[n].at < trace[i].at + trace[i].op.ttl
  {
    i := RefusedHasWitness(trace, n);
    StoreRefinesIdeal(trace, i);
    assert digest(Stream(of(i))) == trace[i].op.key == trace[n].op.key == digest(Stream(of(n)));
    StreamInjective(of(i), of(n));
  }

  /**
   A location is suppressed exactly if an equal one was accepted less than its time-to-live
   ago: a repetition never comes through earlier, and nothing else is held back.
   */
  lemma SuppressedIff<V>(trace: seq<Call<V>>, of: nat -> Location, digest: Bytes -> string, n: nat)
    requires Chronological(trace) && CollisionFree(digest) && KeyedByLocation(trace, of, digest)
    requires n < |trace| && trace[n].op.Deduplicate?
    ensures Answer(ActualAfter(trace, n), trace[n].op, trace[n].at) == Accepted(false) <==>
            exists i: nat :: i < n && trace[i].op.Deduplicate? && of(i) == of(n) &&
                             AnsweredNew(trace, i, trace[i].op.key) && trace[n].at < trace[i].at + trace[i].op.ttl
  {
    RefusedIff(trace, n);
    if Answer(ActualAfter(trace, n), trace[n].op, trace[n].at) == Accepted(false) {
      var i := SuppressedByEqual(trace, of, digest, n);
      assert AnsweredNew(trace, i, trace[i].op.key);
    }
    if i: nat :| i < n && trace[i].op.Deduplicate? && of(i) == of(n) &&
                 AnsweredNew(trace, i, trace[i].op.key) && trace[n].at < trace[i].at + trace[i].op.ttl {
      assert trace[i].op.key == digest(Stream(of(i))) == trace[n].op.key;
    }
  }
}
