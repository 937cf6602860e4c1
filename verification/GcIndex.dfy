/** The index itself, with its buckets, its sorted array and its counter, over whole runs. */
module GcIndex {
  import opened Wrappers
  import opened Decimal
  import opened Lfru
  import opened LeaseIndex
  import opened Sums
  import opened GcProtocol
  import opened GcSafety

  /** What one step does to the index: an addition or a removal where a thread is in one, as the
      program performs it, and otherwise nothing. */
  ghost predicate Follows(s: Sys, s': Sys, v: Index, v': Index) {
    exists t, a :: Step(s, t, a) == Some(s') && Performs(s, s', t, a, v, v')
  }

  ghost predicate Performs(s: Sys, s': Sys, t: Tid, a: Action, v: Index, v': Index) {
    var p := s.At(t);
    if a.Proceed? && p.Adding? then
      Added(v, p.d, Itoa(p.c)) == Some(v')
    else if a.Proceed? && p.Removing? then
      && v.cachesIndex != [] && Itoa(v.cachesIndex[0]) in v.caches && s'.At(t).Dropping?
      && Popped(v) == Some((s'.At(t).d, v'))
    else
      v' == v
  }

  /** An index that stands for the queue of a state. */
  ghost predicate Stands(s: Sys, v: Index) {
    WellFormed(v) && QueueOf(v) == s.queue
  }

  lemma {:induction false} AddingPerforms(s: Sys, t: Tid, s': Sys, v: Index) returns (v': Index)
    requires Inv(s) && s.At(t).Adding? && Step(s, t, Proceed) == Some(s') && Stands(s, v)
    ensures Performs(s, s', t, Proceed, v, v') && Stands(s', v')
  {
    hide Inv, WellFormed, QueueOf, Added, Insert, Delete, HasKey;
    var p := s.At(t);
    AdditionIsLegal(s, t);
    AddRefines(v, p.d, p.c);
    v' := Added(v, p.d, Itoa(p.c)).value;
  }

  lemma {:induction false} RemovingPerforms(s: Sys, t: Tid, s': Sys, v: Index) returns (v': Index)
    requires Inv(s) && s.At(t).Removing? && Step(s, t, Proceed) == Some(s') && Stands(s, v)
    ensures Performs(s, s', t, Proceed, v, v') && Stands(s', v')
  {
    hide Locks, Indexed, LeasesOk, BlobsOk, ThreadsOk, Total, Bytes, WellFormed, QueueOf, Popped;
    RemovingHasKey(s, t);
    SizeOfQueue(v);
    PopRefines(v);
    v' := Popped(v).value.1;
  }

  lemma {:induction false} RemovingHasKey(s: Sys, t: Tid)
    requires Inv(s) && s.At(t).Removing?
    ensures s.queue != []
  {
    hide Locks, Indexed, LeasesOk, BlobsOk;
    assert ThreadOk(s, t);
  }

  lemma {:induction false} SizeOfQueue(v: Index)
    requires WellFormed(v)
    ensures v.size == |QueueOf(v)|
  {
  }

  /** Steps that are in no method of the index leave the queue alone. */
  lemma {:induction false} OtherStepsKeepQueue(s: Sys, t: Tid, a: Action, s': Sys)
    requires Step(s, t, a) == Some(s')
    requires !(a.Proceed? && s.At(t).Indexing())
    ensures s'.queue == s.queue
  {
    hide Insert, Delete, Total;
  }

  lemma {:induction false} StepPerforms(s: Sys, s': Sys, v: Index) returns (v': Index)
    requires Inv(s) && Next(s, s') && Stands(s, v)
    ensures Follows(s, s', v, v') && Stands(s', v')
  {
    hide Inv, Step, Stands;
    var t, a :| Step(s, t, a) == Some(s');
    if a.Proceed? && s.At(t).Adding? {
      v' := AddingPerforms(s, t, s', v);
    } else if a.Proceed? && s.At(t).Removing? {
      v' := RemovingPerforms(s, t, s', v);
    } else {
      v' := v;
      OtherStepsKeepQueue(s, t, a, s');
      StandsStill(s, s', v);
    }
  }

  lemma {:induction false} StandsStill(s: Sys, s': Sys, v: Index)
    requires Stands(s, v) && s'.queue == s.queue
    ensures Stands(s', v)
  {
  }

  /** The index goes along with every run: started well formed, it stays so through all additions and
      removals, in the order in which the threads perform them, and stands for the queue throughout. */
  lemma {:induction false} IndexFollows(r: seq<Sys>, v: Index) returns (vs: seq<Index>)
    requires Run(r) && Stands(r[0], v)
    ensures |vs| == |r| && vs[0] == v
    ensures forall i | 0 <= i < |r| :: Stands(r[i], vs[i])
    ensures forall i | 0 <= i < |r| - 1 :: Follows(r[i], r[i + 1], vs[i], vs[i + 1])
  {
    hide Inv, Stands, Follows, Next, Starts;
    vs := [v];
    while |vs| < |r|
      invariant 0 < |vs| <= |r| && vs[0] == v
      invariant forall i | 0 <= i < |vs| :: Stands(r[i], vs[i])
      invariant forall i | 0 <= i < |vs| - 1 :: Follows(r[i], r[i + 1], vs[i], vs[i + 1])
    {
      var n := |vs| - 1;
      RunKeeps(r, n);
      assert Next(r[n], r[n + 1]);
      var v' := StepPerforms(r[n], r[n + 1], vs[n]);
      vs := vs + [v'];
    }
  }

  /** So, outside transactions and collections, a lease labelled c is in bucket c of the index and in
      no other, and whatever is in a bucket is leased. */
  lemma {:induction false} BucketsAgreeWithLabels(r: seq<Sys>, i: nat, v: Index, d: string, c: int)
    requires Run(r) && i < |r| && r[i].transaction == None && r[i].writer == None && Stands(r[i], v)
    ensures d in r[i].leases && r[i].leases[d].use.Some? ==>
              (d in Bucket(v.caches, c) <==> c == r[i].leases[d].use.value.count)
    ensures d in Bucket(v.caches, c) ==> d in r[i].leases
  {
    hide Run, Recorded, Tracks, QueueOf;
    IndexAgreesWithLabels(r, i);
    BucketIsInQueue(v, d, c);
    assert Entry(d, c).key == d;
  }
}
