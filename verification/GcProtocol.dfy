/** Conversions and garbage collections of any number of threads, interleaved at every step at
    which one of them touches the database, the lease index or a lock. */
module GcProtocol {
  import opened Wrappers
  import opened Lfru
  import opened Sums

  type Tid = nat

  /** A lease protects its blob once the blob is attached to it. The use is what its labels
      record; a new lease has none. `creator` is a history variable: the creating thread. */
  datatype LeaseState = LeaseState(creator: Tid, attached: bool, use: Option<Use>)

  /** Where a thread stands. `store` is the size of the blob to commit after the lease is updated,
      if the lease is updated for a commit. */
  datatype Phase =
    | Idle
    | Converting
    | Creating(d: string, store: Option<nat>)
    | Attaching(d: string, store: Option<nat>)
    | Starting(d: string, store: Option<nat>)
    | Adding(d: string, c: int, store: Option<nat>)
    | Labelling(d: string, c: int, store: Option<nat>)
    | Storing(d: string, size: nat)
    | Checking(limit: nat)
    | Calling(limit: nat)
    | Waiting
    | Leading(limit: nat)
    | Locked(limit: nat)
    | Sweeping(limit: nat, left: int)
    | Removing(limit: nat, left: int)
    | Dropping(limit: nat, left: int, d: string)
    | Collecting(limit: nat)
    | Finishing(limit: nat, ok: bool)
  {
    /** Inside a conversion, which holds the read lock. */
    predicate Reading() {
      Converting? || Creating? || Attaching? || Starting? || Adding? || Labelling? || Storing?
    }

    /** Inside the body of a collection, which holds the write lock. */
    predicate Writing() {
      Locked? || Sweeping? || Removing? || Dropping? || Collecting? || Finishing?
    }

    predicate Flying() {
      Leading? || Writing()
    }

    predicate InTransaction() {
      Adding? || Labelling?
    }

    /** Inside a method of the lease index. */
    predicate Indexing() {
      Adding? || Removing?
    }

    /** Leases were given up whose blobs are still stored. */
    predicate Unswept() {
      Sweeping? || Removing? || Dropping? || Collecting?
    }

    /** Committed to labelling the lease of `digest` that it created. */
    predicate WillLabel(digest: string) {
      (Attaching? || Starting? || Adding? || Labelling?) && d == digest
    }
  }

  datatype Sys = Sys(
    leases: map<string, LeaseState>, queue: Queue, blobs: map<string, nat>, clock: int,
    readers: set<Tid>, writer: Option<Tid>, transaction: Option<Tid>, flight: Option<Tid>,
    phases: map<Tid, Phase>)
  {
    function At(t: Tid): Phase {
      if t in phases then phases[t] else Idle
    }

    function Go(t: Tid, p: Phase): Sys {
      this.(phases := phases[t := p])
    }
  }

  /** What a thread does next, where it has a choice. */
  datatype Action = Convert | Collect(limit: nat) | UseBlob(d: string, store: Option<nat>) | Leave | Proceed

  ghost function Recorded(leases: map<string, LeaseState>): map<string, Use> {
    map d | d in leases && leases[d].use.Some? :: leases[d].use.value
  }

  ghost function CountAfter(leases: map<string, LeaseState>, d: string): int {
    if d in leases && leases[d].use.Some? then leases[d].use.value.count + 1 else 1
  }

  function AfterUse(d: string, store: Option<nat>): Phase {
    match store
    case None => Converting
    case Some(size) => Storing(d, size)
  }

  /** One step of a conversion; None where the thread has to wait. */
  ghost function ConversionStep(s: Sys, t: Tid): Option<Sys> {
    match s.At(t)
    case Creating(d, store) =>
      if s.transaction != None then None
      else if d in s.leases then Some(s.Go(t, AfterUse(d, store)))
      else Some(s.Go(t, Attaching(d, store)).(leases := s.leases[d := LeaseState(t, false, None)]))
    case Attaching(d, store) =>
      if s.transaction != None || d !in s.leases then None
      else Some(s.Go(t, Starting(d, store)).(leases := s.leases[d := s.leases[d].(attached := true)]))
    case Starting(d, store) =>
      if s.transaction != None then None
      else if d !in s.leases then Some(s.Go(t, AfterUse(d, store)))
      else Some(s.Go(t, Adding(d, CountAfter(s.leases, d), store)).(transaction := Some(t)))
    case Adding(d, c, store) =>
      Some(s.Go(t, Labelling(d, c, store)).(queue := Insert(Delete(s.queue, d), Entry(d, c))))
    case Labelling(d, c, store) =>
      if d !in s.leases then None
      else Some(s.Go(t, AfterUse(d, store)).(
                  leases := s.leases[d := s.leases[d].(use := Some(Use(c, s.clock)))],
                  clock := s.clock + 1, transaction := None))
    case Storing(d, size) =>
      if s.transaction != None then None
      else Some(s.Go(t, Converting).(blobs := if d in s.blobs then s.blobs else s.blobs[d := size]))
    case _ => None
  }

  /** One step of a caller of the collector up to the write lock, and of giving the lock back. */
  ghost function CallerStep(s: Sys, t: Tid): Option<Sys> {
    match s.At(t)
    case Checking(limit) => Some(s.Go(t, if Total(s.blobs) > limit then Calling(limit) else Idle))
    case Calling(limit) =>
      Some(if s.flight == None then s.Go(t, Leading(limit)).(flight := Some(t)) else s.Go(t, Waiting))
    case Waiting => Some(s.Go(t, Idle))
    case Leading(limit) =>
      if s.readers != {} || s.writer != None then None
      else Some(s.Go(t, Locked(limit)).(writer := Some(t)))
    case Finishing(_, _) => Some(s.Go(t, Idle).(writer := None, flight := None))
    case _ => None
  }

  /** One step of the body of a collection, which runs under the write lock. */
  ghost function CollectionStep(s: Sys, t: Tid): Option<Sys> {
    match s.At(t)
    case Locked(limit) => Some(s.Go(t, Sweeping(limit, Total(s.blobs) - limit)))
    case Sweeping(limit, left) =>
      Some(s.Go(t, if left <= 0 then Collecting(limit)
                   else if s.queue == [] then Finishing(limit, false)
                   else Removing(limit, left)))
    case Removing(limit, left) =>
      if s.queue == [] then None
      else
        var d := s.queue[0].key;
        var size := if d in s.blobs then s.blobs[d] else 0;
        Some(s.Go(t, Dropping(limit, left - size, d)).(queue := s.queue[1..]))
    case Dropping(limit, left, d) =>
      if s.transaction != None then None
      else if d !in s.leases then Some(s.Go(t, Finishing(limit, false)))
      else Some(s.Go(t, Sweeping(limit, left)).(leases := s.leases - {d}))
    case Collecting(limit) =>
      if s.transaction != None then None
      else Some(s.Go(t, Finishing(limit, true)).(
                  blobs := map d | d in s.blobs && d in s.leases && s.leases[d].attached :: s.blobs[d]))
    case _ => None
  }

  /** One step of one thread; None where the thread has to wait or the action does not apply. */
  ghost function Step(s: Sys, t: Tid, a: Action): Option<Sys> {
    match a
    case Convert =>
      if !s.At(t).Idle? || s.writer != None then None
      else Some(s.Go(t, Converting).(readers := s.readers + {t}))
    case Collect(limit) => if s.At(t).Idle? then Some(s.Go(t, Checking(limit))) else None
    case UseBlob(d, store) =>
      if !s.At(t).Converting? then None
      else Some(s.Go(t, if d in s.leases then Starting(d, store) else Creating(d, store)))
    case Leave =>
      if s.At(t).Converting? then Some(s.Go(t, Idle).(readers := s.readers - {t})) else None
    case Proceed =>
      if s.At(t).Reading() then ConversionStep(s, t)
      else if s.At(t).Writing() && !s.At(t).Finishing? then CollectionStep(s, t)
      else CallerStep(s, t)
  }

  ghost predicate Next(s: Sys, s': Sys) {
    exists t, a :: Step(s, t, a) == Some(s')
  }

  /** A store as a process finds it when it starts, with nothing under way: every lease has been
      used, the index has been built from the leases, and every blob is leased. */
  ghost predicate Starts(s: Sys) {
    && s.readers == {} && s.writer == None && s.transaction == None && s.flight == None && s.phases == map[]
    && (forall d | d in s.leases :: s.leases[d].attached && s.leases[d].use.Some?)
    && (forall d | d in Recorded(s.leases) :: Recorded(s.leases)[d].at < s.clock && Recorded(s.leases)[d].count >= 1)
    && Tracks(s.queue, Recorded(s.leases))
    && s.blobs.Keys <= s.leases.Keys
  }

  ghost predicate Run(r: seq<Sys>) {
    r != [] && Starts(r[0]) && forall i | 0 <= i < |r| - 1 :: Next(r[i], r[i + 1])
  }

  // ----- The invariant -----

  ghost predicate Locks(s: Sys) {
    && (forall t: Tid :: t in s.readers <==> s.At(t).Reading())
    && (forall t: Tid :: s.writer == Some(t) <==> s.At(t).Writing())
    && (forall t: Tid :: s.transaction == Some(t) <==> s.At(t).InTransaction())
    && (forall t: Tid :: s.flight == Some(t) <==> s.At(t).Flying())
    && (s.writer != None ==> s.readers == {})
  }

  /** The uses the index already knows: a use being labelled counts, a lease being dropped does not. */
  ghost function Known(s: Sys): map<string, Use> {
    if s.transaction.Some? && s.At(s.transaction.value).Labelling? then
      var p := s.At(s.transaction.value);
      Recorded(s.leases)[p.d := Use(p.c, s.clock)]
    else if s.writer.Some? && s.At(s.writer.value).Dropping? then
      Recorded(s.leases) - {s.At(s.writer.value).d}
    else
      Recorded(s.leases)
  }

  ghost predicate Indexed(s: Sys) {
    && Tracks(s.queue, Known(s))
    && (forall d | d in Recorded(s.leases) :: Recorded(s.leases)[d].at < s.clock && Recorded(s.leases)[d].count >= 1)
  }

  /** An unfinished lease is being finished by its creator. */
  ghost predicate LeaseOk(s: Sys, d: string)
    requires d in s.leases
  {
    var l := s.leases[d];
    && (!l.attached ==> s.At(l.creator).Attaching? && s.At(l.creator).d == d)
    && (l.use == None ==> s.At(l.creator).WillLabel(d))
  }

  ghost predicate LeasesOk(s: Sys) {
    forall d | d in s.leases :: LeaseOk(s, d)
  }

  ghost predicate BlobsOk(s: Sys) {
    (s.writer.Some? && s.At(s.writer.value).Unswept()) || s.blobs.Keys <= s.leases.Keys
  }

  ghost predicate ThreadOk(s: Sys, t: Tid) {
    match s.At(t)
    case Attaching(d, _) => d in s.leases
    case Starting(d, _) => d in s.leases
    case Adding(d, c, _) => d in s.leases && c == CountAfter(s.leases, d)
    case Labelling(d, c, _) => d in s.leases && c == CountAfter(s.leases, d)
    case Storing(d, _) => d in s.leases
    case Sweeping(limit, left) => left == Bytes(s.queue, s.blobs) - limit
    case Removing(limit, left) => left == Bytes(s.queue, s.blobs) - limit && s.queue != []
    case Dropping(limit, left, d) => left == Bytes(s.queue, s.blobs) - limit && d in Recorded(s.leases)
    case Collecting(limit) => Bytes(s.queue, s.blobs) <= limit
    case Finishing(limit, ok) => ok && Total(s.blobs) <= limit
    case _ => true
  }

  ghost predicate ThreadsOk(s: Sys) {
    forall t: Tid :: ThreadOk(s, t)
  }

  ghost predicate Inv(s: Sys) {
    Locks(s) && Indexed(s) && LeasesOk(s) && BlobsOk(s) && ThreadsOk(s)
  }

  lemma {:induction false} StartInv(s: Sys)
    requires Starts(s)
    ensures Inv(s)
  {
    assert Known(s) == Recorded(s.leases);
  }

  function Moved(holder: Option<Tid>, t: Tid, was: bool, now: bool): Option<Tid> {
    if now then Some(t) else if was then None else holder
  }

  /** The locks follow the phase of the thread that steps, and are taken only when free. */
  ghost predicate LockMove(s: Sys, s': Sys, t: Tid) {
    var p, p' := s.At(t), s'.At(t);
    && (forall u: Tid | u != t :: s'.At(u) == s.At(u))
    && s'.readers == (if p'.Reading() then s.readers + {t} else s.readers - {t})
    && s'.writer == Moved(s.writer, t, p.Writing(), p'.Writing())
    && s'.transaction == Moved(s.transaction, t, p.InTransaction(), p'.InTransaction())
    && s'.flight == Moved(s.flight, t, p.Flying(), p'.Flying())
    && (p'.Reading() && !p.Reading() ==> s.writer == None)
    && (p'.Writing() && !p.Writing() ==> s.writer == None && s.readers == {})
    && (p'.InTransaction() && !p.InTransaction() ==> s.transaction == None)
    && (p'.Flying() && !p.Flying() ==> s.flight == None)
  }

  /** The locks a thread holds are those of its phase. */
  lemma {:induction false} Holdings(s: Sys, t: Tid)
    requires Locks(s)
    ensures t in s.readers <==> s.At(t).Reading()
    ensures s.writer == Some(t) <==> s.At(t).Writing()
    ensures s.transaction == Some(t) <==> s.At(t).InTransaction()
    ensures s.flight == Some(t) <==> s.At(t).Flying()
    ensures if s.At(t).Reading() then s.readers + {t} == s.readers else s.readers - {t} == s.readers
  {
  }

  lemma {:induction false} TransactionMoves(s: Sys, t: Tid, s': Sys)
    requires Locks(s) && (s.At(t).Starting? || s.At(t).InTransaction()) && ConversionStep(s, t) == Some(s')
    ensures LockMove(s, s', t)
  {
    hide Locks, Insert, Delete, CountAfter;
    Holdings(s, t);
  }

  lemma {:induction false} ConversionMoves(s: Sys, t: Tid, s': Sys)
    requires Locks(s) && s.At(t).Reading() && ConversionStep(s, t) == Some(s')
    ensures LockMove(s, s', t)
  {
    hide Locks, Insert, Delete, CountAfter;
    if s.At(t).Starting? || s.At(t).InTransaction() {
      TransactionMoves(s, t, s');
    } else {
      Holdings(s, t);
    }
  }

  lemma {:induction false} LockingMoves(s: Sys, t: Tid, s': Sys)
    requires Locks(s) && (s.At(t).Leading? || s.At(t).Finishing?) && CallerStep(s, t) == Some(s')
    ensures LockMove(s, s', t)
  {
    hide Locks, Total;
    Holdings(s, t);
  }

  lemma {:induction false} CallerMoves(s: Sys, t: Tid, s': Sys)
    requires Locks(s) && !s.At(t).Reading() && CallerStep(s, t) == Some(s')
    ensures LockMove(s, s', t)
  {
    hide Locks, Total;
    if s.At(t).Leading? || s.At(t).Finishing? {
      LockingMoves(s, t, s');
    } else {
      Holdings(s, t);
    }
  }

  lemma {:induction false} CollectionMoves(s: Sys, t: Tid, s': Sys)
    requires Locks(s) && s.At(t).Writing() && CollectionStep(s, t) == Some(s')
    ensures LockMove(s, s', t)
  {
    hide Locks, Total;
    Holdings(s, t);
  }

  lemma {:induction false} StepMoves(s: Sys, t: Tid, a: Action, s': Sys)
    requires Locks(s) && Step(s, t, a) == Some(s')
    ensures LockMove(s, s', t)
  {
    hide ConversionStep, CallerStep, CollectionStep;
    match a
    case Proceed =>
      hide LockMove, Locks;
      if s.At(t).Reading() {
        ConversionMoves(s, t, s');
      } else if s.At(t).Writing() && !s.At(t).Finishing? {
        CollectionMoves(s, t, s');
      } else {
        CallerMoves(s, t, s');
      }
    case _ =>
      assert t in s.readers <==> s.At(t).Reading();
      assert s.At(t).Idle? ==> s.writer != Some(t) && s.transaction != Some(t) && s.flight != Some(t);
      assert s.At(t).Converting? ==> s.writer != Some(t) && s.transaction != Some(t) && s.flight != Some(t);
  }

  lemma {:induction false} LocksStep(s: Sys, s': Sys, t: Tid)
    requires Locks(s) && LockMove(s, s', t)
    ensures Locks(s')
  {
  }

  // ----- Conversions: the write lock is free, leases and blobs only grow -----

  lemma {:induction false} ReaderAlone(s: Sys, t: Tid)
    requires Locks(s) && s.At(t).Reading()
    ensures s.writer == None
    ensures forall u: Tid :: !s.At(u).Writing()
    ensures forall u: Tid | u != t && s.At(t).InTransaction() :: !s.At(u).InTransaction()
    ensures s.transaction == None ==> forall u: Tid :: !s.At(u).InTransaction()
  {
    assert t in s.readers;
  }

  /** While nothing is being labelled or dropped, the index knows just the labels. */
  lemma {:induction false} KnownIsUses(s: Sys)
    requires s.transaction.Some? ==> !s.At(s.transaction.value).Labelling?
    requires s.writer.Some? ==> !s.At(s.writer.value).Dropping?
    ensures Known(s) == Recorded(s.leases)
  {
  }

  lemma {:induction false} ConversionIndexed(s: Sys, t: Tid, s': Sys)
    requires Locks(s) && Indexed(s) && ThreadOk(s, t)
    requires s.At(t).Reading() && ConversionStep(s, t) == Some(s')
    ensures Indexed(s')
  {
    hide Tracks, Insert, Delete;
    ReaderAlone(s, t);
    assert s.transaction == Some(t) <==> s.At(t).InTransaction();
    var p := s.At(t);
    if p.Adding? {
      assert s'.transaction == Some(t) && s'.At(t) == Labelling(p.d, p.c, p.store);
      assert Known(s) == Recorded(s.leases) && Known(s') == Recorded(s.leases)[p.d := Use(p.c, s.clock)];
      TouchTracks(s.queue, Recorded(s.leases), p.d, Use(p.c, s.clock));
    } else if p.Labelling? {
      assert p.c >= 1 by {
        assert p.d in Recorded(s.leases) ==> Recorded(s.leases)[p.d].count >= 1;
      }
      assert Recorded(s'.leases) == Recorded(s.leases)[p.d := Use(p.c, s.clock)];
      assert Known(s') == Recorded(s'.leases) == Known(s);
      assert forall d | d in Recorded(s'.leases) && d != p.d ::
          d in Recorded(s.leases) && Recorded(s'.leases)[d] == Recorded(s.leases)[d];
    } else {
      assert Recorded(s'.leases) == Recorded(s.leases);
      assert Known(s') == Known(s);
    }
  }

  lemma {:induction false} ConversionLeases(s: Sys, t: Tid, s': Sys)
    requires LeasesOk(s) && LockMove(s, s', t)
    requires s.At(t).Reading() && ConversionStep(s, t) == Some(s')
    ensures LeasesOk(s')
  {
    hide LockMove, Insert, Delete, CountAfter;
    assert forall u: Tid | u != t :: s'.At(u) == s.At(u);
    forall d | d in s'.leases ensures LeaseOk(s', d) {
      assert d in s.leases ==> LeaseOk(s, d);
    }
  }

  lemma {:induction false} ConversionThreads(s: Sys, t: Tid, s': Sys)
    requires Locks(s) && ThreadsOk(s)
    requires s.At(t).Reading() && ConversionStep(s, t) == Some(s')
    ensures ThreadsOk(s')
  {
    hide Insert, Delete, Total, Bytes, Recorded;
    ReaderAlone(s, t);
    assert ThreadOk(s, t);
    forall u: Tid ensures ThreadOk(s', u) {
      assert u != t ==> s'.At(u) == s.At(u);
      assert ThreadOk(s, u);
    }
  }

  lemma {:induction false} ConversionBlobs(s: Sys, t: Tid, s': Sys)
    requires Locks(s) && BlobsOk(s) && ThreadOk(s, t)
    requires s.At(t).Reading() && ConversionStep(s, t) == Some(s')
    ensures BlobsOk(s')
    ensures s.leases.Keys <= s'.leases.Keys
    ensures forall d | d in s.blobs :: d in s'.blobs && s'.blobs[d] == s.blobs[d]
  {
    hide Insert, Delete;
    ReaderAlone(s, t);
  }

  // ----- Collections: no conversion is under way, so every lease is finished -----

  lemma {:induction false} WriterAlone(s: Sys, t: Tid)
    requires Locks(s) && s.At(t).Writing()
    ensures s.writer == Some(t) && s.transaction == None
    ensures forall u: Tid :: !s.At(u).Reading()
    ensures forall u: Tid | u != t :: !s.At(u).Writing()
  {
    assert forall u: Tid :: u in s.readers <==> s.At(u).Reading();
    assert s.transaction.Some? ==> s.At(s.transaction.value).InTransaction();
  }

  /** Under the write lock the index holds just the leased keys, each in its place. */
  lemma {:induction false} AllFinished(s: Sys, t: Tid)
    requires Locks(s) && LeasesOk(s) && s.At(t).Writing()
    ensures forall d | d in s.leases :: s.leases[d].attached && s.leases[d].use.Some?
    ensures Recorded(s.leases).Keys == s.leases.Keys
  {
    WriterAlone(s, t);
    forall d | d in s.leases ensures s.leases[d].attached && s.leases[d].use.Some? {
      assert LeaseOk(s, d);
      assert !s.At(s.leases[d].creator).Reading();
    }
  }

  lemma {:induction false} CoveredQueue(q: Queue, uses: map<string, Use>, blobs: map<string, nat>)
    requires Tracks(q, uses)
    ensures NoDuplicates(q) && Keys(q) == uses.Keys
    ensures Bytes(q, blobs) == Total(Within(blobs, uses.Keys))
    ensures blobs.Keys <= uses.Keys ==> Bytes(q, blobs) == Total(blobs)
  {
    TracksSorted(q, uses);
    assert Keys(q) == uses.Keys by {
      assert forall k | k in uses :: Entry(k, uses[k].count).key == k;
    }
    BytesAreTotal(q, blobs);
    if blobs.Keys <= uses.Keys {
      assert Within(blobs, uses.Keys) == blobs;
    }
  }

  lemma {:induction false} NextVictim(q: Queue, uses: map<string, Use>)
    requires Tracks(q, uses) && q != []
    ensures q[0].key in uses && Tracks(q[1..], uses - {q[0].key})
  {
    PrefixTracks(q, uses, 1);
    assert q[..1] == [q[0]] && Keys([q[0]]) == {q[0].key};
  }

  lemma {:induction false} CollectionIndexed(s: Sys, t: Tid, s': Sys)
    requires Locks(s) && Indexed(s) && ThreadOk(s, t)
    requires s.At(t).Writing() && CollectionStep(s, t) == Some(s')
    ensures Indexed(s')
  {
    hide Tracks, Total, Bytes;
    WriterAlone(s, t);
    var p := s.At(t);
    if p.Removing? {
      NextVictim(s.queue, Recorded(s.leases));
    } else if p.Dropping? && p.d in s.leases {
      assert Recorded(s'.leases) == Recorded(s.leases) - {p.d};
    } else {
      assert Known(s') == Known(s);
    }
  }

  lemma {:induction false} CollectionLeases(s: Sys, t: Tid, s': Sys)
    requires Locks(s) && LeasesOk(s) && LockMove(s, s', t)
    requires s.At(t).Writing() && CollectionStep(s, t) == Some(s')
    ensures LeasesOk(s')
  {
    hide LockMove, Total, Bytes;
    AllFinished(s, t);
    forall d | d in s'.leases ensures LeaseOk(s', d) {
      assert s'.leases[d] == s.leases[d];
    }
  }

  lemma {:induction false} CollectionOthers(s: Sys, t: Tid, s': Sys)
    requires Locks(s) && ThreadsOk(s)
    requires s.At(t).Writing() && CollectionStep(s, t) == Some(s') && ThreadOk(s', t)
    ensures ThreadsOk(s')
  {
    hide Total, Bytes, Recorded;
    WriterAlone(s, t);
    forall u: Tid ensures ThreadOk(s', u) {
      assert u != t ==> s'.At(u) == s.At(u) && !s.At(u).Reading() && !s.At(u).Writing();
    }
  }

  /** What the index holds under the write lock, while no lease is half dropped. */
  lemma {:induction false} WriterCovers(s: Sys, t: Tid)
    requires Inv(s) && s.At(t).Writing() && !s.At(t).Dropping?
    ensures Tracks(s.queue, Recorded(s.leases)) && Recorded(s.leases).Keys == s.leases.Keys
    ensures Bytes(s.queue, s.blobs) == Total(Within(s.blobs, s.leases.Keys))
    ensures s.blobs.Keys <= s.leases.Keys ==> Bytes(s.queue, s.blobs) == Total(s.blobs)
  {
    hide Tracks, Total, Bytes, LeasesOk, BlobsOk, ThreadsOk;
    WriterAlone(s, t);
    AllFinished(s, t);
    KnownIsUses(s);
    CoveredQueue(s.queue, Recorded(s.leases), s.blobs);
  }

  lemma {:induction false} CollectingFinishes(s: Sys, t: Tid, s': Sys)
    requires Inv(s) && s.At(t).Collecting? && CollectionStep(s, t) == Some(s')
    ensures ThreadOk(s', t) && BlobsOk(s')
  {
    hide Tracks, Total, Bytes, LeasesOk, LeaseOk, Locks, Indexed, Recorded;
    WriterCovers(s, t);
    WriterAlone(s, t);
    AllFinished(s, t);
    assert ThreadOk(s, t);
    assert s'.blobs == Within(s.blobs, s.leases.Keys);
  }

  lemma {:induction false} SweepingGoesOn(s: Sys, t: Tid, s': Sys)
    requires Inv(s) && (s.At(t).Locked? || s.At(t).Sweeping?) && CollectionStep(s, t) == Some(s')
    requires s'.writer == Some(t)
    ensures ThreadOk(s', t) && BlobsOk(s')
  {
    hide Tracks, Total, Bytes, LeasesOk, Locks, Indexed, Recorded;
    WriterCovers(s, t);
    WriterAlone(s, t);
    BytesStep(s.queue, s.blobs);
    assert ThreadOk(s, t);
  }

  lemma {:induction false} RemovingDropping(s: Sys, t: Tid, s': Sys)
    requires Inv(s) && (s.At(t).Removing? || s.At(t).Dropping?) && CollectionStep(s, t) == Some(s')
    requires s'.writer == Some(t)
    ensures ThreadOk(s', t) && BlobsOk(s')
  {
    hide Tracks, Total, Bytes, LeasesOk, Locks, Indexed;
    WriterAlone(s, t);
    BytesStep(s.queue, s.blobs);
    assert ThreadOk(s, t);
    if s.At(t).Removing? {
      WriterCovers(s, t);
      NextVictim(s.queue, Recorded(s.leases));
    }
  }

  lemma {:induction false} CollectionThread(s: Sys, t: Tid, s': Sys)
    requires Inv(s) && s.At(t).Writing() && CollectionStep(s, t) == Some(s')
    ensures ThreadOk(s', t) && BlobsOk(s')
  {
    hide Inv, ThreadOk, BlobsOk, Total, Bytes;
    assert s.writer == Some(t) by {
      HeldByWriter(s, t);
    }
    if s.At(t).Collecting? {
      CollectingFinishes(s, t, s');
    } else if s.At(t).Removing? || s.At(t).Dropping? {
      RemovingDropping(s, t, s');
    } else if s.At(t).Locked? || s.At(t).Sweeping? {
      SweepingGoesOn(s, t, s');
    }
  }

  lemma {:induction false} HeldByWriter(s: Sys, t: Tid)
    requires Inv(s) && s.At(t).Writing()
    ensures s.writer == Some(t)
  {
    hide Indexed, LeasesOk, BlobsOk, ThreadsOk;
    WriterAlone(s, t);
  }

  lemma {:induction false} CollectionKeeps(s: Sys, t: Tid, s': Sys)
    requires Inv(s) && s.At(t).Writing() && CollectionStep(s, t) == Some(s')
    ensures Inv(s')
  {
    hide Indexed, LeasesOk, LeaseOk, BlobsOk, CollectionStep;
    CollectionMoves(s, t, s');
    LocksStep(s, s', t);
    CollectionIndexed(s, t, s');
    CollectionLeases(s, t, s');
    CollectionThread(s, t, s');
    CollectionOthers(s, t, s');
  }

  lemma {:induction false} ConversionKeeps(s: Sys, t: Tid, s': Sys)
    requires Inv(s) && s.At(t).Reading() && ConversionStep(s, t) == Some(s')
    ensures Inv(s')
  {
    hide Indexed, LeasesOk, LeaseOk, BlobsOk, ConversionStep, ThreadOk;
    ConversionMoves(s, t, s');
    LocksStep(s, s', t);
    assert ThreadOk(s, t);
    ConversionIndexed(s, t, s');
    ConversionLeases(s, t, s');
    ConversionBlobs(s, t, s');
    ConversionThreads(s, t, s');
  }

  // ----- Steps that touch neither the database nor the index -----

  ghost predicate SameData(s: Sys, s': Sys) {
    s'.leases == s.leases && s'.queue == s.queue && s'.blobs == s.blobs && s'.clock == s.clock
  }

  /** A phase in which a thread has nothing of its own to keep: before, after or outside any work. */
  predicate Free(p: Phase) {
    p.Idle? || p.Converting? || p.Creating? || p.Checking? || p.Calling? || p.Waiting? || p.Leading? || p.Locked?
  }

  /** A step that leaves the database and the index alone, from one such phase to another, or to the
      start of a use of a lease that exists. */
  ghost predicate FreeMove(s: Sys, s': Sys, t: Tid) {
    && SameData(s, s') && (forall u: Tid | u != t :: s'.At(u) == s.At(u))
    && (Free(s.At(t)) || s.At(t).Finishing?)
    && (Free(s'.At(t)) || (s'.At(t).Starting? && s'.At(t).d in s.leases))
  }

  lemma {:induction false} FreeThreads(s: Sys, t: Tid, s': Sys)
    requires ThreadsOk(s) && FreeMove(s, s', t)
    ensures ThreadsOk(s')
  {
    hide Tracks, Total, Bytes, Recorded, CountAfter;
    forall u: Tid ensures ThreadOk(s', u) {
      assert ThreadOk(s, u);
    }
  }

  lemma {:induction false} FreeLeases(s: Sys, t: Tid, s': Sys)
    requires LeasesOk(s) && FreeMove(s, s', t)
    ensures LeasesOk(s')
  {
    forall d | d in s'.leases ensures LeaseOk(s', d) {
      assert LeaseOk(s, d);
    }
  }

  /** Nobody is inside a transaction or a sweep because of such a step, or stops being so. */
  lemma {:induction false} FreeHolders(s: Sys, t: Tid, s': Sys)
    requires Locks(s) && Locks(s') && FreeMove(s, s', t)
    ensures s'.transaction == s.transaction
    ensures s.writer.Some? && s.writer != Some(t) ==> s'.writer == s.writer
    ensures s.writer == Some(t) ==> s'.writer == None || s'.writer == Some(t)
    ensures s.writer == None ==> s'.writer == None || s'.writer == Some(t)
  {
    assert forall u: Tid :: s'.transaction == Some(u) <==> s.transaction == Some(u);
    assert s'.transaction.Some? ==> s.transaction == s'.transaction;
    assert s.transaction.Some? ==> s.transaction == s'.transaction;
    assert forall u: Tid | u != t :: s'.writer == Some(u) <==> s.writer == Some(u);
  }

  lemma {:induction false} FreeIndexed(s: Sys, t: Tid, s': Sys)
    requires Locks(s) && Locks(s') && Indexed(s) && FreeMove(s, s', t)
    ensures Indexed(s')
  {
    hide Tracks, Locks, Recorded;
    FreeHolders(s, t, s');
    assert s.transaction.Some? && s.transaction.value == t ==> !s.At(t).Labelling?;
    assert Known(s') == Known(s);
  }

  lemma {:induction false} FreeBlobs(s: Sys, t: Tid, s': Sys)
    requires Locks(s) && Locks(s') && BlobsOk(s) && FreeMove(s, s', t)
    ensures BlobsOk(s')
  {
    hide Locks;
    FreeHolders(s, t, s');
  }

  lemma {:induction false} FreeKeeps(s: Sys, t: Tid, s': Sys)
    requires Inv(s) && LockMove(s, s', t) && FreeMove(s, s', t)
    ensures Inv(s')
  {
    hide Locks, Indexed, LeasesOk, BlobsOk, ThreadsOk, LockMove, FreeMove;
    LocksStep(s, s', t);
    FreeThreads(s, t, s');
    FreeLeases(s, t, s');
    FreeIndexed(s, t, s');
    FreeBlobs(s, t, s');
  }

  lemma {:induction false} StepKeeps(s: Sys, t: Tid, a: Action, s': Sys)
    requires Inv(s) && Step(s, t, a) == Some(s')
    ensures Inv(s')
  {
    hide ConversionStep, CollectionStep, Indexed, LeasesOk, BlobsOk, ThreadsOk, LockMove, Total;
    StepMoves(s, t, a, s');
    if a.Proceed? && s.At(t).Reading() {
      ConversionKeeps(s, t, s');
    } else if a.Proceed? && s.At(t).Writing() && !s.At(t).Finishing? {
      CollectionKeeps(s, t, s');
    } else {
      FreeKeeps(s, t, s');
    }
  }

  lemma {:induction false} RunKeeps(r: seq<Sys>, i: nat)
    requires Run(r) && i < |r|
    ensures Inv(r[i])
  {
    hide Inv, Step;
    if i == 0 {
      StartInv(r[0]);
    } else {
      RunKeeps(r, i - 1);
      assert Next(r[i - 1], r[i - 1 + 1]);
      var t, a :| Step(r[i - 1], t, a) == Some(r[i]);
      StepKeeps(r[i - 1], t, a, r[i]);
    }
  }
}
