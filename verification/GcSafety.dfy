/** What holds in every run of conversions and collections, however they are interleaved. */
module GcSafety {
  import opened Wrappers
  import opened Lfru
  import opened Sums
  import opened GcProtocol

  /** No two threads are ever inside the lease index: additions are serialised by the write
      transaction, removals by the write lock. */
  lemma {:induction false} IndexIsNeverShared(r: seq<Sys>, i: nat, t: Tid, u: Tid)
    requires Run(r) && i < |r|
    requires r[i].At(t).Indexing() && r[i].At(u).Indexing()
    ensures t == u
  {
    hide Indexed, LeasesOk, BlobsOk, ThreadsOk, Next;
    RunKeeps(r, i);
    if r[i].At(t).Removing? {
      WriterAlone(r[i], t);
    } else {
      ReaderAlone(r[i], t);
      assert r[i].transaction == Some(t);
    }
  }

  /** Collection bodies never overlap, and none overlaps a conversion. */
  lemma {:induction false} CollectionsRunAlone(r: seq<Sys>, i: nat, t: Tid, u: Tid)
    requires Run(r) && i < |r|
    requires r[i].At(t).Writing()
    ensures !r[i].At(u).Reading() && (r[i].At(u).Writing() ==> t == u)
  {
    hide Indexed, LeasesOk, BlobsOk, ThreadsOk, Next;
    RunKeeps(r, i);
    WriterAlone(r[i], t);
  }

  ghost predicate Keeps(s: Sys, s': Sys) {
    && s.leases.Keys <= s'.leases.Keys
    && (forall d | d in s.blobs :: d in s'.blobs && s'.blobs[d] == s.blobs[d])
  }

  lemma {:induction false} StepWhileReading(s: Sys, s': Sys, t: Tid)
    requires Inv(s) && Next(s, s') && s.At(t).Reading()
    ensures Keeps(s, s')
  {
    hide Indexed, LeasesOk, BlobsOk, ConversionStep, CollectionStep, Total;
    var u, a :| Step(s, u, a) == Some(s');
    if a.Proceed? && s.At(u).Reading() {
      assert ThreadOk(s, u);
      ConversionBlobs(s, u, s');
    } else {
      ReaderAlone(s, t);
      assert !s.At(u).Writing();
      assert SameData(s, s');
    }
  }

  /** While a conversion holds the read lock, no lease and no blob is deleted by anyone. */
  lemma {:induction false} ConversionKeepsItsBlobs(r: seq<Sys>, i: nat, j: nat, t: Tid)
    requires Run(r) && i <= j < |r|
    requires forall k | i <= k < j :: r[k].At(t).Reading()
    ensures Keeps(r[i], r[j])
  {
    hide Inv, Step;
    if i < j {
      ConversionKeepsItsBlobs(r, i, j - 1, t);
      RunKeeps(r, j - 1);
      assert Next(r[j - 1], r[j - 1 + 1]);
      StepWhileReading(r[j - 1], r[j], t);
    }
  }

  /** While a collection sweeps, the bytes still to be freed are among the keys still indexed. */
  lemma {:induction false} SweepIsCovered(r: seq<Sys>, i: nat, t: Tid)
    requires Run(r) && i < |r| && r[i].At(t).Sweeping?
    ensures r[i].At(t).left <= Bytes(r[i].queue, r[i].blobs)
    ensures r[i].At(t).left > 0 ==> r[i].queue != []
  {
    hide Locks, Indexed, LeasesOk, BlobsOk, Next;
    RunKeeps(r, i);
    assert ThreadOk(r[i], t);
  }

  /** No collection fails, and when one ends the store is down to its limit. */
  lemma {:induction false} CollectionReachesLimit(r: seq<Sys>, i: nat, t: Tid)
    requires Run(r) && i < |r| && r[i].At(t).Finishing?
    ensures r[i].At(t).ok && Total(r[i].blobs) <= r[i].At(t).limit
  {
    hide Locks, Indexed, LeasesOk, BlobsOk, Next;
    RunKeeps(r, i);
    assert ThreadOk(r[i], t);
  }

  /** Outside transactions and collections the index says what the labels say, in the order of
      (use count, last use): a lease labelled with count c is at c and nowhere else, the index
      holds no key without a lease, and every stored blob is leased. */
  lemma {:induction false} IndexAgreesWithLabels(r: seq<Sys>, i: nat)
    requires Run(r) && i < |r| && r[i].transaction == None && r[i].writer == None
    ensures Tracks(r[i].queue, Recorded(r[i].leases))
    ensures forall d, c | d in r[i].leases && r[i].leases[d].use.Some? ::
              Entry(d, c) in r[i].queue <==> c == r[i].leases[d].use.value.count
    ensures forall e | e in r[i].queue :: e.key in r[i].leases
    ensures r[i].blobs.Keys <= r[i].leases.Keys
  {
    hide Locks, LeasesOk, ThreadsOk, Next, Step;
    RunKeeps(r, i);
    KnownIsUses(r[i]);
    var q, uses := r[i].queue, Recorded(r[i].leases);
    assert forall e | e in q :: e.key in uses && e.count == uses[e.key].count;
    assert forall d | d in uses :: Entry(d, uses[d].count) in q;
    forall d, c | d in r[i].leases && r[i].leases[d].use.Some?
      ensures Entry(d, c) in q <==> c == r[i].leases[d].use.value.count
    {
      assert d in uses && uses[d] == r[i].leases[d].use.value;
      assert Entry(d, c) in q ==> Entry(d, c).key == d && Entry(d, c).count == c;
    }
  }

  /** Once no conversion is under way, every lease protects its blob and is indexed. */
  lemma {:induction false} NoLeaseLeftUnfinished(r: seq<Sys>, i: nat, d: string)
    requires Run(r) && i < |r| && r[i].readers == {} && d in r[i].leases
    ensures r[i].leases[d].attached && r[i].leases[d].use.Some?
  {
    hide Indexed, BlobsOk, ThreadsOk, Next, Step;
    RunKeeps(r, i);
    assert LeaseOk(r[i], d);
    assert !r[i].At(r[i].leases[d].creator).Reading();
  }

  lemma {:induction false} AdditionIsLegal(s: Sys, t: Tid)
    requires Inv(s) && s.At(t).Adding?
    ensures var d, c := s.At(t).d, s.At(t).c;
            c >= 1 && (!HasKey(s.queue, d) || Entry(d, c - 1) in s.queue)
  {
    hide LeasesOk, BlobsOk, Next, Step;
    ReaderAlone(s, t);
    assert s.transaction == Some(t);
    assert ThreadOk(s, t);
    KnownIsUses(s);
    TracksSorted(s.queue, Recorded(s.leases));
    if HasKey(s.queue, s.At(t).d) {
      assert s.At(t).d in Recorded(s.leases);
    }
  }

  /** Each addition to the index meets the condition under which it keeps the index well formed. */
  lemma {:induction false} AdditionsAreLegal(r: seq<Sys>, i: nat, t: Tid)
    requires Run(r) && i < |r| && r[i].At(t).Adding?
    ensures var d, c := r[i].At(t).d, r[i].At(t).c;
            c >= 1 && (!HasKey(r[i].queue, d) || Entry(d, c - 1) in r[i].queue)
  {
    hide Inv;
    RunKeeps(r, i);
    AdditionIsLegal(r[i], t);
  }

  lemma {:induction false} StepCountsUses(s: Sys, t: Tid, a: Action, s': Sys, d: string)
    requires Inv(s) && Step(s, t, a) == Some(s') && d in s'.leases
    ensures var was, now := if d in s.leases then s.leases[d].use else None, s'.leases[d].use;
            now == was || now == Some(Use(if was.Some? then was.value.count + 1 else 1, s.clock))
  {
    hide Locks, Indexed, LeasesOk, BlobsOk, Total, Bytes;
    assert ThreadOk(s, t);
  }

  /** In every run the count in a label is that of the uses: the first use of a lease has count 1,
      each later one is counted one up, dated by the clock, and nothing else changes a label. */
  lemma {:induction false} UsesAreCounted(r: seq<Sys>, i: nat, d: string)
    requires Run(r) && i + 1 < |r| && d in r[i + 1].leases
    ensures var was, now := if d in r[i].leases then r[i].leases[d].use else None, r[i + 1].leases[d].use;
            now == was || now == Some(Use(if was.Some? then was.value.count + 1 else 1, r[i].clock))
  {
    hide Inv, Step;
    RunKeeps(r, i);
    assert Next(r[i], r[i + 1]);
    var t, a :| Step(r[i], t, a) == Some(r[i + 1]);
    StepCountsUses(r[i], t, a, r[i + 1], d);
  }

  /** The most steps that a thread in the body of a collection still has before it. */
  ghost function Remaining(s: Sys, t: Tid): nat {
    match s.At(t)
    case Locked(_) => 3 * |s.queue| + 4
    case Sweeping(_, _) => 3 * |s.queue| + 3
    case Removing(_, _) => 3 * |s.queue| + 2
    case Dropping(_, _, _) => 3 * |s.queue| + 4
    case Collecting(_) => 2
    case Finishing(_, _) => 1
    case _ => 0
  }

  /** In the body of a collection a thread is never kept waiting, and each of its steps brings it
      nearer to the end. */
  lemma {:induction false} WriterProceeds(s: Sys, t: Tid)
    requires Inv(s) && s.At(t).Writing()
    ensures Step(s, t, Proceed).Some?
    ensures var s' := Step(s, t, Proceed).value;
            Remaining(s', t) < Remaining(s, t) && (s.At(t).Finishing? || s'.At(t).Writing())
  {
    hide Indexed, LeasesOk, BlobsOk, Total, Bytes;
    WriterAlone(s, t);
    assert ThreadOk(s, t);
  }

  /** And no step of another thread brings it further away. */
  lemma {:induction false} OthersDoNotDelay(s: Sys, u: Tid, a: Action, s': Sys, t: Tid)
    requires Inv(s) && s.At(t).Writing() && u != t && Step(s, u, a) == Some(s')
    ensures s'.At(t) == s.At(t) && Remaining(s', t) == Remaining(s, t)
  {
    hide Indexed, LeasesOk, BlobsOk, ThreadsOk, Total, CollectionStep, ConversionStep;
    WriterAlone(s, t);
  }

  /** So every collection that got the lock finishes, after no more of its own steps than this. */
  lemma {:induction false} CollectionFinishes(r: seq<Sys>, t: Tid) returns (r': seq<Sys>)
    requires Run(r) && r[|r| - 1].At(t).Writing()
    ensures Run(r') && r <= r' && |r'| <= |r| + Remaining(r[|r| - 1], t)
    ensures r'[|r'| - 1].At(t).Finishing?
    ensures forall i | |r| <= i < |r'| :: Step(r'[i - 1], t, Proceed) == Some(r'[i])
    decreases Remaining(r[|r| - 1], t)
  {
    hide Inv, Step, Remaining;
    var s := r[|r| - 1];
    if s.At(t).Finishing? {
      return r;
    }
    RunKeeps(r, |r| - 1);
    WriterProceeds(s, t);
    var s' := Step(s, t, Proceed).value;
    assert Next(s, s');
    var q := r + [s'];
    forall i | 0 <= i < |q| - 1
      ensures Next(q[i], q[i + 1])
    {
      assert q[i] == r[i] && (i + 1 < |r| ==> q[i + 1] == r[i + 1]);
    }
    r' := CollectionFinishes(q, t);
    assert r <= r' && r'[|r|] == q[|r|] == s' && r'[|r| - 1] == s;
  }
}
