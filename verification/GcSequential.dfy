/** The methods of the content store and the interleaved protocol describe the same thing: what a
    method does is what a thread of the protocol does if it is not interrupted. */
module GcSequential {
  import opened Wrappers
  import opened Lfru
  import opened Sums
  import opened GcProtocol
  import C = ContentStore

  /** A state of the protocol that has this queue, these leases and these blobs. */
  ghost predicate Represents(s: Sys, q: Queue, leases: map<string, C.Lease>, blobs: map<string, nat>, clock: int) {
    && C.Labelled(leases)
    && s.queue == q && s.blobs == blobs && s.clock == clock && s.leases.Keys == leases.Keys
    && (forall k | k in leases :: s.leases[k].attached && s.leases[k].use == Some(C.Uses(leases)[k]))
  }

  ghost predicate StepOf(s: Sys, t: Tid, s': Sys) {
    exists a :: Step(s, t, a) == Some(s')
  }

  /** All the steps are those of one thread. */
  ghost predicate Uninterrupted(r: seq<Sys>, t: Tid) {
    r != [] && forall i | 0 <= i < |r| - 1 :: StepOf(r[i], t, r[i + 1])
  }

  lemma {:induction false} OneMore(r: seq<Sys>, t: Tid, a: Action, s: Sys)
    requires Uninterrupted(r, t) && Step(r[|r| - 1], t, a) == Some(s)
    ensures Uninterrupted(r + [s], t)
  {
    hide Step;
    var q := r + [s];
    assert StepOf(r[|r| - 1], t, s);
    forall i | 0 <= i < |q| - 1
      ensures StepOf(q[i], t, q[i + 1])
    {
      assert i < |r| - 1 ==> StepOf(r[i], t, r[i + 1]);
    }
  }

  lemma {:induction false} Joined(a: seq<Sys>, b: seq<Sys>, t: Tid)
    requires Uninterrupted(a, t) && Uninterrupted(b, t) && a[|a| - 1] == b[0]
    ensures Uninterrupted(a + b[1..], t)
    ensures (a + b[1..])[0] == a[0] && (a + b[1..])[|a + b[1..]| - 1] == b[|b| - 1]
  {
    hide StepOf;
    var q := a + b[1..];
    forall i | 0 <= i < |q| - 1
      ensures StepOf(q[i], t, q[i + 1])
    {
      if i < |a| - 1 {
        assert StepOf(a[i], t, a[i + 1]);
      } else {
        assert q[i] == b[i - |a| + 1];
        assert StepOf(b[i - |a| + 1], t, b[i - |a| + 1 + 1]);
      }
    }
  }

  ghost predicate SameLocks(s: Sys, s': Sys) {
    s'.readers == s.readers && s'.writer == s.writer && s'.transaction == s.transaction && s'.flight == s.flight
  }

  /** Up to the transaction that counts a use, the lease exists and protects its blob. */
  lemma {:induction false} ToStarting(s: Sys, t: Tid, d: string, store: Option<nat>) returns (r: seq<Sys>)
    requires s.At(t).Converting? && s.transaction == None
    ensures r != [] && Uninterrupted(r, t) && r[0] == s
    ensures var s' := r[|r| - 1];
            && s'.At(t) == Starting(d, store) && SameLocks(s, s')
            && s'.queue == s.queue && s'.blobs == s.blobs && s'.clock == s.clock
            && s'.leases == if d in s.leases then s.leases else s.leases[d := LeaseState(t, true, None)]
  {
    hide Uninterrupted;
    var s1 := Step(s, t, UseBlob(d, store)).value;
    Begun(s, t);
    OneMore([s], t, UseBlob(d, store), s1);
    r := [s] + [s1];
    if d !in s.leases {
      var s2 := Step(s1, t, Proceed).value;
      OneMore(r, t, Proceed, s2);
      r := r + [s2];
      var s3 := Step(s2, t, Proceed).value;
      OneMore(r, t, Proceed, s3);
      r := r + [s3];
    }
  }

  lemma {:induction false} Begun(s: Sys, t: Tid)
    ensures Uninterrupted([s], t)
  {
  }

  /** The transaction itself. */
  lemma {:induction false} ToLabelled(s: Sys, t: Tid, d: string, store: Option<nat>) returns (r: seq<Sys>)
    requires s.At(t) == Starting(d, store) && s.transaction == None && d in s.leases
    ensures r != [] && Uninterrupted(r, t) && r[0] == s
    ensures var s', c := r[|r| - 1], CountAfter(s.leases, d);
            && s'.At(t) == AfterUse(d, store) && SameLocks(s, s')
            && s'.queue == Insert(Delete(s.queue, d), Entry(d, c)) && s'.blobs == s.blobs && s'.clock == s.clock + 1
            && s'.leases == s.leases[d := s.leases[d].(use := Some(Use(c, s.clock)))]
  {
    hide Uninterrupted, Insert, Delete;
    Begun(s, t);
    var s1 := Step(s, t, Proceed).value;
    OneMore([s], t, Proceed, s1);
    var s2 := Step(s1, t, Proceed).value;
    OneMore([s] + [s1], t, Proceed, s2);
    var s3 := Step(s2, t, Proceed).value;
    OneMore([s] + [s1] + [s2], t, Proceed, s3);
    r := [s] + [s1] + [s2] + [s3];
  }

  lemma {:induction false} ToStored(s: Sys, t: Tid, d: string, store: Option<nat>) returns (r: seq<Sys>)
    requires s.At(t) == AfterUse(d, store) && s.transaction == None
    ensures r != [] && Uninterrupted(r, t) && r[0] == s
    ensures var s' := r[|r| - 1];
            && s'.At(t).Converting? && SameLocks(s, s')
            && s'.queue == s.queue && s'.leases == s.leases && s'.clock == s.clock
            && s'.blobs == if store.None? || d in s.blobs then s.blobs else s.blobs[d := store.value]
  {
    hide Uninterrupted;
    Begun(s, t);
    r := [s];
    if store.Some? {
      var s1 := Step(s, t, Proceed).value;
      OneMore(r, t, Proceed, s1);
      r := r + [s1];
    }
  }

  lemma {:induction false} CountedAlike(s: Sys, t: Tid, d: string, q: Queue, leases: map<string, C.Lease>,
                                        blobs: map<string, nat>, clock: int)
    requires Represents(s, q, leases, blobs, clock)
    ensures CountAfter(s.leases, d) == C.NextUse(leases, d, clock).count
    ensures d !in s.leases ==>
              CountAfter(s.leases[d := LeaseState(t, true, None)], d) == C.NextUse(leases, d, clock).count
    ensures C.NextUse(leases, d, clock).at == clock && C.NextUse(leases, d, clock).count >= 1
  {
    C.NextUseCounts(leases, d, clock);
  }

  lemma {:induction false} LabelledAlike(s: Sys, t: Tid, d: string, q: Queue, leases: map<string, C.Lease>,
                                         blobs: map<string, nat>, clock: int, mid: map<string, LeaseState>)
    requires Represents(s, q, leases, blobs, clock)
    requires mid == if d in s.leases then s.leases else s.leases[d := LeaseState(t, true, None)]
    ensures var use := C.NextUse(leases, d, clock);
            && CountAfter(mid, d) == use.count && use.at == clock
            && var now, labelled := mid[d := mid[d].(use := Some(use))], leases[d := C.Label(use)];
            && C.Labelled(labelled) && now.Keys == labelled.Keys
            && forall k | k in labelled :: now[k].attached && now[k].use == Some(C.Uses(labelled)[k])
  {
    hide C.Label, C.Labelled, C.NextUse, CountAfter;
    var use := C.NextUse(leases, d, clock);
    CountedAlike(s, t, d, q, leases, blobs, clock);
    C.LabelUses(leases, d, use);
  }

  /** An uninterrupted use of a blob, and a commit, are what UpdateLease and Commit say. */
  lemma {:induction false} UseIsUninterrupted(s: Sys, t: Tid, d: string, store: Option<nat>, q: Queue,
                                              leases: map<string, C.Lease>, blobs: map<string, nat>, clock: int)
    returns (r: seq<Sys>)
    requires s.At(t).Converting? && s.transaction == None && Represents(s, q, leases, blobs, clock)
    ensures r != [] && Uninterrupted(r, t) && r[0] == s
    ensures var s', use := r[|r| - 1], C.NextUse(leases, d, clock);
            && s'.At(t).Converting? && SameLocks(s, s')
            && Represents(s', Insert(Delete(q, d), Entry(d, use.count)), leases[d := C.Label(use)],
                          if store.None? || d in blobs then blobs else blobs[d := store.value], clock + 1)
  {
    hide Uninterrupted, Step, Insert, Delete, C.NextUse, C.Label, CountAfter;
    var a := ToStarting(s, t, d, store);
    var s1 := a[|a| - 1];
    LabelledAlike(s, t, d, q, leases, blobs, clock, s1.leases);
    var b := ToLabelled(s1, t, d, store);
    Joined(a, b, t);
    var c := ToStored(b[|b| - 1], t, d, store);
    Joined(a + b[1..], c, t);
    r := a + b[1..] + c[1..];
  }

  lemma {:induction false} DroppedAlike(s: Sys, s': Sys, q: Queue, leases: map<string, C.Lease>,
                                        blobs: map<string, nat>, clock: int)
    requires Represents(s, q, leases, blobs, clock) && C.Agrees(q, leases) && q != []
    requires s'.queue == q[1..] && s'.blobs == blobs && s'.clock == clock && s'.leases == s.leases - {q[0].key}
    ensures Represents(s', q[1..], leases - {q[0].key}, blobs, clock)
    ensures q[0].key in leases && C.Agrees(q[1..], leases - {q[0].key})
  {
    hide C.Agrees;
    C.DropKeepsAgreement(q, leases);
  }

  lemma {:induction false} PrefixStep(q: Queue, leases: map<string, C.Lease>, blobs: map<string, nat>, left: int,
                                      n: nat)
    requires q != [] && n < |q|
    ensures var size := if q[0].key in blobs then blobs[q[0].key] else 0;
            && q[1..][n..] == q[n + 1..]
            && leases - {q[0].key} - Keys(q[1..][..n]) == leases - Keys(q[..n + 1])
            && Bytes(q, blobs) == size + Bytes(q[1..], blobs)
            && (left > 0 && C.ShortestPrefix(q[1..], blobs, left - size, n) ==>
                C.ShortestPrefix(q, blobs, left, n + 1))
  {
    hide Bytes;
    var rest := q[1..];
    BytesStep(q, blobs);
    BytesStep(q[..n + 1], blobs);
    assert q[..n + 1][1..] == rest[..n];
    assert q[..n + 1] == [q[0]] + rest[..n];
    assert Keys(q[..n + 1]) == {q[0].key} + Keys(rest[..n]);
    if n > 0 {
      BytesStep(q[..n], blobs);
      assert q[..n][1..] == rest[..n - 1];
    } else {
      BytesStep(q[..0], blobs);
    }
  }

  /** One victim: out of the index, then out of the database. */
  lemma {:induction false} GivingUp(s: Sys, t: Tid, limit: nat, left: int) returns (r: seq<Sys>)
    requires s.At(t) == Sweeping(limit, left) && s.transaction == None && left > 0
    requires s.queue != [] && s.queue[0].key in s.leases
    ensures r != [] && Uninterrupted(r, t) && r[0] == s
    ensures var s', d := r[|r| - 1], s.queue[0].key;
            && s'.At(t) == Sweeping(limit, left - if d in s.blobs then s.blobs[d] else 0) && SameLocks(s, s')
            && s'.queue == s.queue[1..] && s'.blobs == s.blobs && s'.clock == s.clock && s'.leases == s.leases - {d}
  {
    hide Uninterrupted;
    Begun(s, t);
    var s1 := Step(s, t, Proceed).value;
    OneMore([s], t, Proceed, s1);
    var s2 := Step(s1, t, Proceed).value;
    OneMore([s] + [s1], t, Proceed, s2);
    var s3 := Step(s2, t, Proceed).value;
    OneMore([s] + [s1] + [s2], t, Proceed, s3);
    r := [s] + [s1] + [s2] + [s3];
  }

  lemma {:induction false} SweepEnds(s: Sys, t: Tid, limit: nat, left: int, leases: map<string, C.Lease>)
    returns (r: seq<Sys>)
    requires s.At(t) == Sweeping(limit, left) && (left <= 0 || s.queue == [])
    ensures r != [] && Uninterrupted(r, t) && r[0] == s
    ensures var s' := r[|r| - 1];
            && s'.At(t) == (if left <= Bytes(s.queue, s.blobs) then Collecting(limit) else Finishing(limit, false))
            && SameLocks(s, s') && SameData(s, s')
    ensures left <= Bytes(s.queue, s.blobs) ==> C.ShortestPrefix(s.queue, s.blobs, left, 0)
    ensures leases - Keys(s.queue[..0]) == leases
  {
    hide Uninterrupted;
    Begun(s, t);
    var s1 := Step(s, t, Proceed).value;
    OneMore([s], t, Proceed, s1);
    r := [s] + [s1];
    assert s.queue[..0] == [];
    C.NoKeys(leases);
  }

  /** The sweep is CleanLeases. */
  lemma {:induction false} SweepIsUninterrupted(s: Sys, t: Tid, limit: nat, left: int, q: Queue,
                                                leases: map<string, C.Lease>, blobs: map<string, nat>, clock: int)
    returns (r: seq<Sys>, n: nat)
    requires s.At(t) == Sweeping(limit, left) && s.transaction == None
    requires Represents(s, q, leases, blobs, clock) && C.Agrees(q, leases)
    ensures r != [] && Uninterrupted(r, t) && r[0] == s && n <= |q|
    ensures var s' := r[|r| - 1];
            && s'.At(t) == (if left <= Bytes(q, blobs) then Collecting(limit) else Finishing(limit, false))
            && SameLocks(s, s') && Represents(s', q[n..], leases - Keys(q[..n]), blobs, clock)
    ensures left <= Bytes(q, blobs) ==> C.ShortestPrefix(q, blobs, left, n)
    ensures left > Bytes(q, blobs) ==> n == |q|
    decreases |q|
  {
    hide Uninterrupted, Step, Bytes, C.Agrees, C.ShortestPrefix, Keys, C.Labelled, C.Uses;
    if left <= 0 || q == [] {
      n := 0;
      r := SweepEnds(s, t, limit, left, leases);
      assert q[0..] == q;
      NothingLeft(q, blobs, left);
    } else {
      C.DropKeepsAgreement(q, leases);
      var a := GivingUp(s, t, limit, left);
      var s1, d := a[|a| - 1], q[0].key;
      DroppedAlike(s, s1, q, leases, blobs, clock);
      var size := if d in blobs then blobs[d] else 0;
      var b, m := SweepIsUninterrupted(s1, t, limit, left - size, q[1..], leases - {d}, blobs, clock);
      Joined(a, b, t);
      PrefixStep(q, leases, blobs, left, if m < |q| then m else 0);
      r, n := a + b[1..], m + 1;
    }
  }

  lemma {:induction false} NothingLeft(q: Queue, blobs: map<string, nat>, left: int)
    ensures (left <= 0 || q == []) && left > Bytes(q, blobs) ==> |q| == 0
  {
  }

  /** From a call to the one flight that collects. */
  lemma {:induction false} ToLeading(s: Sys, t: Tid, limit: nat) returns (r: seq<Sys>)
    requires s.At(t).Idle? && s.flight == None && Total(s.blobs) > limit
    ensures r != [] && Uninterrupted(r, t) && r[0] == s
    ensures var s' := r[|r| - 1];
            && s'.At(t) == Leading(limit) && SameData(s, s') && s'.transaction == s.transaction
            && s'.readers == s.readers && s'.writer == s.writer && s'.flight == Some(t)
  {
    hide Uninterrupted, Total;
    Begun(s, t);
    var s1 := Step(s, t, Collect(limit)).value;
    OneMore([s], t, Collect(limit), s1);
    var s2 := Step(s1, t, Proceed).value;
    OneMore([s] + [s1], t, Proceed, s2);
    var s3 := Step(s2, t, Proceed).value;
    OneMore([s] + [s1] + [s2], t, Proceed, s3);
    r := [s] + [s1] + [s2] + [s3];
  }

  /** From there to the sweep, where nothing is under way. */
  lemma {:induction false} ToSweeping(s: Sys, t: Tid, limit: nat) returns (r: seq<Sys>)
    requires s.At(t) == Leading(limit) && s.readers == {} && s.writer == None
    ensures r != [] && Uninterrupted(r, t) && r[0] == s
    ensures var s' := r[|r| - 1];
            && s'.At(t) == Sweeping(limit, Total(s.blobs) - limit) && SameData(s, s') && s'.transaction == s.transaction
            && s'.readers == {}
  {
    hide Uninterrupted, Total;
    Begun(s, t);
    var s1 := Step(s, t, Proceed).value;
    OneMore([s], t, Proceed, s1);
    var s2 := Step(s1, t, Proceed).value;
    OneMore([s] + [s1], t, Proceed, s2);
    r := [s] + [s1] + [s2];
  }

  /** From the end of the sweep to the end of the call. */
  lemma {:induction false} ToIdle(s: Sys, t: Tid, q: Queue, leases: map<string, C.Lease>, blobs: map<string, nat>,
                                  clock: int)
    returns (r: seq<Sys>)
    requires s.At(t).Collecting? || s.At(t).Finishing?
    requires s.transaction == None && s.readers == {} && Represents(s, q, leases, blobs, clock)
    ensures r != [] && Uninterrupted(r, t) && r[0] == s
    ensures var s' := r[|r| - 1];
            && s'.At(t).Idle? && s'.readers == {} && s'.writer == None && s'.transaction == None && s'.flight == None
            && Represents(s', q, leases, if s.At(t).Collecting? then Within(blobs, leases.Keys) else blobs, clock)
  {
    hide Uninterrupted, C.Labelled, C.Uses;
    Begun(s, t);
    r := [s];
    var last := s;
    if s.At(t).Collecting? {
      var s1 := Step(s, t, Proceed).value;
      OneMore(r, t, Proceed, s1);
      assert s1.blobs == Within(blobs, leases.Keys);
      r, last := r + [s1], s1;
    }
    var s2 := Step(last, t, Proceed).value;
    OneMore(r, t, Proceed, s2);
    r := r + [s2];
  }

  lemma {:induction false} NothingToDo(s: Sys, t: Tid, limit: nat) returns (r: seq<Sys>)
    requires s.At(t).Idle? && Total(s.blobs) <= limit
    ensures r != [] && Uninterrupted(r, t) && r[0] == s
    ensures var s' := r[|r| - 1]; s'.At(t).Idle? && SameLocks(s, s') && SameData(s, s')
  {
    hide Uninterrupted, Total;
    Begun(s, t);
    var s1 := Step(s, t, Collect(limit)).value;
    OneMore([s], t, Collect(limit), s1);
    var s2 := Step(s1, t, Proceed).value;
    OneMore([s] + [s1], t, Proceed, s2);
    r := [s] + [s1] + [s2];
  }

  /** An uninterrupted collection ends as GC says: idle within the limit, else with a shortest prefix of
      the queue given up and the blobs of the rest, or, where the unleased blobs exceed the limit, with
      every lease given up and no blob removed. */
  lemma {:induction false} CollectionIsUninterrupted(s: Sys, t: Tid, limit: nat, q: Queue,
                                                     leases: map<string, C.Lease>, blobs: map<string, nat>, clock: int)
    returns (r: seq<Sys>, n: nat)
    requires s.At(t).Idle? && s.readers == {} && s.writer == None && s.transaction == None && s.flight == None
    requires Represents(s, q, leases, blobs, clock) && C.Agrees(q, leases)
    ensures r != [] && Uninterrupted(r, t) && r[0] == s && n <= |q|
    ensures var s' := r[|r| - 1];
            && s'.At(t).Idle? && SameLocks(s, s')
            && if Total(blobs) <= limit then Represents(s', q, leases, blobs, clock)
               else if Total(C.Unleased(blobs, leases)) <= limit then
                 && C.ShortestPrefix(q, blobs, Total(blobs) - limit, n)
                 && Represents(s', q[n..], leases - Keys(q[..n]), Within(blobs, leases.Keys) - Keys(q[..n]), clock)
               else Represents(s', [], map[], blobs, clock)
  {
    hide Uninterrupted, Step, Bytes, Total, C.Agrees, C.ShortestPrefix, Keys, C.Labelled, C.Uses, C.Unleased, Within;
    n := 0;
    if Total(blobs) <= limit {
      r := NothingToDo(s, t, limit);
      return;
    }
    C.LeasedBytes(q, leases, blobs);
    var l := ToLeading(s, t, limit);
    var a := ToSweeping(l[|l| - 1], t, limit);
    Joined(l, a, t);
    a := l + a[1..];
    var s1 := a[|a| - 1];
    var b;
    b, n := SweepIsUninterrupted(s1, t, limit, Total(blobs) - limit, q, leases, blobs, clock);
    Joined(a, b, t);
    var s2 := b[|b| - 1];
    var c := ToIdle(s2, t, q[n..], leases - Keys(q[..n]), blobs, clock);
    Joined(a + b[1..], c, t);
    r := a + b[1..] + c[1..];
    if Total(C.Unleased(blobs, leases)) <= limit {
      C.VictimBlobs(q, leases, blobs, n, limit);
    } else {
      C.AllGivenUp(q, leases);
      assert q[|q|..] == [];
    }
  }
}
