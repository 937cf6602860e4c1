/** The local content store: blobs held by leases, the persisted lease labels, and the garbage
    collector that gives leases up until the store is small enough. Each method here runs alone;
    GcProtocol interleaves their steps. */
module ContentStore {
  import opened Wrappers
  import opened Decimal
  import opened Int64
  import opened Lfru
  import opened LeaseIndex
  import opened LeaseCaches
  import opened LeaseRestart
  import opened Sums

  const GC_PERCENT := 80

  /** A stored lease; it has no labels until it is used for the first time. */
  datatype Lease = Lease(usedCount: Option<string>, usedAt: int)

  datatype GcError = EmptyIndex | BrokenIndex | LeaseNotFound

  datatype GcOutcome = Idle | Collected | Failed(error: GcError)

  /** Division truncated towards zero. */
  function Quotient(n: int, d: int): int
    requires d > 0
  {
    if n >= 0 then n / d else -((-n) / d)
  }

  /** The size above which a collection starts and to which it reduces the store. */
  function Limit(threshold: int): int {
    Quotient(Wrap64(threshold * GC_PERCENT), 100)
  }

  /** For the thresholds a configuration can hold, the limit is four fifths of the threshold just
      when the multiplication does not overflow. */
  lemma {:induction false} LimitIsFourFifths(threshold: int)
    requires 0 <= threshold < TWO_63
    ensures Limit(threshold) == threshold * 4 / 5 <==> threshold <= (TWO_63 - 1) / 80
  {
    var p := threshold * GC_PERCENT;
    assert p == 80 * threshold;
    if p < TWO_63 {
      assert Wrap64(p) == p;
      assert p / 100 == threshold * 4 / 5;
    } else {
      assert Wrap64(p) < TWO_63 <= p;
      if Wrap64(p) >= 0 {
        assert p - Wrap64(p) >= 2 * TWO_63 by {
          assert p - Wrap64(p) == 2 * TWO_63 * ((p + TWO_63) / (2 * TWO_63));
        }
        assert Wrap64(p) / 100 < p / 100;
      }
    }
  }

  ghost predicate Labelled(leases: map<string, Lease>) {
    forall k | k in leases :: leases[k].usedCount.Some? && IsUseCount(leases[k].usedCount.value)
  }

  /** The uses that the stored labels record. */
  ghost function Uses(leases: map<string, Lease>): map<string, Use>
    requires Labelled(leases)
  {
    map k | k in leases :: Use(Atoi(leases[k].usedCount.value).value, leases[k].usedAt)
  }

  /** The use counts in the stored labels. */
  ghost function Counts(leases: map<string, Lease>): map<string, int>
    requires Labelled(leases)
  {
    map k | k in leases :: Atoi(leases[k].usedCount.value).value
  }

  /** Index and labels agree: the index holds exactly the leased keys, each under the count of its
      label. */
  ghost predicate Agrees(q: Queue, leases: map<string, Lease>) {
    Labelled(leases) && Lists(q, Counts(leases))
  }

  /** Moreover the keys of one count are in the order of the times in their labels. A restart does
      not keep this, as LeaseRestart shows; everything else does. */
  ghost predicate InUseOrder(q: Queue, leases: map<string, Lease>, clock: int) {
    && Labelled(leases)
    && Tracks(q, Uses(leases))
    && (forall k | k in leases :: leases[k].usedAt < clock)
  }

  /** What one use makes of a use count. */
  ghost function NextUse(leases: map<string, Lease>, digest: string, clock: int): Use
    requires Labelled(leases)
  {
    Use(if digest in leases then Counts(leases)[digest] + 1 else 1, clock)
  }

  /** The labels written for a use. */
  ghost function Label(use: Use): Lease {
    Lease(Some(Itoa(use.count)), use.at)
  }

  /** The count that the next use of a digest writes into its lease, if the old label is a number. */
  function NextCount(leases: map<string, Lease>, digest: string): Option<int> {
    if digest !in leases then None
    else
      match leases[digest].usedCount
      case None => Some(1)
      case Some(text) =>
        match Atoi(text)
        case None => None
        case Some(count) => Some(count + 1)
  }

  /** Leasing a digest leaves alone what is leased already; a new lease has no count yet. */
  ghost predicate LeasedToo(leases: map<string, Lease>, leases': map<string, Lease>, digest: string) {
    && leases'.Keys == leases.Keys + {digest}
    && (forall k | k in leases :: leases'[k] == leases[k])
    && (digest !in leases ==> leases'[digest].usedCount == None)
  }

  lemma {:induction false} LeasedTooCount(leases: map<string, Lease>, leases': map<string, Lease>, digest: string,
                                          clock: int)
    requires Labelled(leases) && LeasedToo(leases, leases', digest)
    ensures NextCount(leases', digest) == Some(NextUse(leases, digest, clock).count)
    ensures NextUse(leases, digest, clock).at == clock
    ensures var l := Label(NextUse(leases, digest, clock)); leases'[digest := l] == leases[digest := l]
  {
  }

  lemma {:induction false} LabelUses(leases: map<string, Lease>, digest: string, use: Use)
    requires Labelled(leases) && use.count >= 1
    ensures Labelled(leases[digest := Label(use)])
    ensures Uses(leases[digest := Label(use)]) == Uses(leases)[digest := use]
    ensures Counts(leases[digest := Label(use)]) == Counts(leases)[digest := use.count]
  {
    hide Itoa, Atoi;
    AtoiItoa(use.count);
    assert IsUseCount(Itoa(use.count));
  }

  /** The first use of a digest has count 1, every other one more than its label says. */
  lemma {:induction false} NextUseLabels(leases: map<string, Lease>, digest: string, clock: int)
    requires Labelled(leases)
    ensures var use := NextUse(leases, digest, clock);
            && use.at == clock && Label(use) == Lease(Some(Itoa(use.count)), clock)
            && (digest !in leases ==> use.count == 1)
            && (digest in leases ==> leases[digest].usedCount.Some? &&
                                     Atoi(leases[digest].usedCount.value) == Some(use.count - 1))
  {
  }

  lemma {:induction false} NextUseCounts(leases: map<string, Lease>, digest: string, clock: int)
    requires Labelled(leases)
    ensures NextUse(leases, digest, clock).count >= 1
  {
  }

  /** Adding a use to the index and writing its labels keeps the two in agreement. */
  lemma {:induction false} UseKeepsAgreement(q: Queue, leases: map<string, Lease>, clock: int, digest: string)
    requires Agrees(q, leases)
    ensures var use := NextUse(leases, digest, clock);
            Agrees(Insert(Delete(q, digest), Entry(digest, use.count)), leases[digest := Label(use)])
  {
    hide Lists, Itoa, Atoi, Insert, Delete, Label, Uses, NextUse;
    var use := NextUse(leases, digest, clock);
    NextUseCounts(leases, digest, clock);
    LabelUses(leases, digest, use);
    TouchLists(q, Counts(leases), digest, use.count);
  }

  /** Within a count it also keeps the order of the times. */
  lemma {:induction false} UseKeepsOrder(q: Queue, leases: map<string, Lease>, clock: int, digest: string)
    requires InUseOrder(q, leases, clock)
    ensures var use := NextUse(leases, digest, clock);
            && InUseOrder(Insert(Delete(q, digest), Entry(digest, use.count)), leases[digest := Label(use)], clock + 1)
            && Uses(leases[digest := Label(use)]) == Uses(leases)[digest := use]
  {
    hide Tracks, Itoa, Atoi, Insert, Delete;
    var use := NextUse(leases, digest, clock);
    NextUseCounts(leases, digest, clock);
    LabelUses(leases, digest, use);
    TouchTracks(q, Uses(leases), digest, use);
  }

  /** The index meets the condition under which adding a use keeps it well formed. */
  lemma {:induction false} UseIsNext(q: Queue, leases: map<string, Lease>, clock: int, digest: string)
    requires Agrees(q, leases)
    ensures HasKey(q, digest) <==> digest in leases
    ensures digest in leases ==> Entry(digest, NextUse(leases, digest, clock).count - 1) in q
  {
    ListsKeys(q, Counts(leases));
  }

  /** Taking the next victim out of the index and deleting its lease keeps them in agreement. */
  lemma {:induction false} DropKeepsAgreement(q: Queue, leases: map<string, Lease>)
    requires Agrees(q, leases) && q != []
    ensures q[0].key in leases && Agrees(q[1..], leases - {q[0].key})
  {
    hide Lists, Atoi, Canonical;
    PopLists(q, Counts(leases));
    assert Counts(leases - {q[0].key}) == Counts(leases) - {q[0].key};
  }

  lemma {:induction false} DropKeepsOrder(q: Queue, leases: map<string, Lease>, clock: int)
    requires InUseOrder(q, leases, clock) && q != []
    ensures InUseOrder(q[1..], leases - {q[0].key}, clock)
  {
    assert Uses(leases - {q[0].key}) == Uses(leases) - {q[0].key};
    hide Tracks, Uses, CountSorted, NoDuplicates, Keys;
    PrefixTracks(q, Uses(leases), 1);
    assert q[..1] == [q[0]];
    SingleKey(q[0]);
  }

  /** Where the index is in the order of the times, every victim comes before every survivor by
      (use count, last use). */
  lemma {:induction false} VictimsComeFirst(q: Queue, leases: map<string, Lease>, clock: int, n: nat)
    requires InUseOrder(q, leases, clock) && n <= |q|
    ensures forall v, s | v in Keys(q[..n]) && s in leases && s !in Keys(q[..n]) ::
              v in leases && Before(Uses(leases)[v], Uses(leases)[s])
  {
    hide Tracks, Keys, Before;
    PrefixTracks(q, Uses(leases), n);
  }

  lemma {:induction false} AgreedLabels(q: Queue, leases: map<string, Lease>)
    requires Agrees(q, leases)
    ensures Labelled(leases) && Keys(q) == leases.Keys && NoDuplicates(q)
  {
    ListsKeys(q, Counts(leases));
  }

  lemma {:induction false} SingleKey(e: Entry)
    ensures Keys([e]) == {e.key}
  {
  }

  /** No blob is stored without a lease. */
  ghost predicate AllLeased(blobs: map<string, nat>, leases: map<string, Lease>) {
    blobs.Keys <= leases.Keys
  }

  /** The shortest run of victims, in the order of the queue, that frees the bytes asked for. */
  ghost predicate ShortestPrefix(q: Queue, blobs: map<string, nat>, size: int, n: nat) {
    && n <= |q|
    && size <= Bytes(q[..n], blobs)
    && (n > 0 ==> Bytes(q[..n - 1], blobs) < size)
  }

  /** The look-ups of `Remove` succeed on every index that still holds a key. */
  lemma {:induction false} HeadLookUp(v: Index)
    requires WellFormed(v) && QueueOf(v) != []
    ensures v.cachesIndex != [] && Itoa(v.cachesIndex[0]) in v.caches
  {
    PopRefines(v);
  }

  /** The lease has a use count that is a number. */
  predicate IsNumbered(lease: Lease) {
    lease.usedCount.Some? && Atoi(lease.usedCount.value).Some?
  }

  /** The id and the labels of a stored lease, as a list of leases gives them; a missing count
      reads as empty. */
  function Listed(id: string, lease: Lease): LabelledLease {
    LabelledLease(id, if lease.usedCount.Some? then lease.usedCount.value else "", lease.usedAt)
  }

  /** A list of all the leases, each once. */
  ghost predicate Lines(ls: seq<LabelledLease>, leases: map<string, Lease>) {
    && (forall i, j | 0 <= i < j < |ls| :: ls[i].id != ls[j].id)
    && (forall l | l in ls :: l.id in leases && l == Listed(l.id, leases[l.id]))
    && (forall k | k in leases :: Listed(k, leases[k]) in ls)
  }

  /** Of two keys with one use count, the one given up first was used last, or at the same time. */
  ghost predicate NewestWithinCounts(q: Queue, leases: map<string, Lease>) {
    forall i, j | 0 <= i < j < |q| && q[i].count == q[j].count ::
      q[i].key in leases && q[j].key in leases && leases[q[i].key].usedAt >= leases[q[j].key].usedAt
  }

  /** The times of the leases themselves are newest first in a list of them that is. */
  lemma {:induction false} LinesNewest(ls: seq<LabelledLease>, leases: map<string, Lease>)
    requires Lines(ls, leases) && NewestFirst(ls)
    ensures forall i | 0 <= i < |ls| :: ls[i].id in leases
    ensures forall i, j | 0 <= i < j < |ls| :: leases[ls[i].id].usedAt >= leases[ls[j].id].usedAt
  {
    assert forall i | 0 <= i < |ls| :: ls[i] in ls;
  }

  lemma {:induction false} IdsAtNewest(ls: seq<LabelledLease>, leases: map<string, Lease>, c: int)
    requires forall i | 0 <= i < |ls| :: ls[i].id in leases
    requires forall i, j | 0 <= i < j < |ls| :: leases[ls[i].id].usedAt >= leases[ls[j].id].usedAt
    ensures forall i | 0 <= i < |IdsAt(ls, c)| :: IdsAt(ls, c)[i] in leases
    ensures forall i, j | 0 <= i < j < |IdsAt(ls, c)| ::
              leases[IdsAt(ls, c)[i]].usedAt >= leases[IdsAt(ls, c)[j]].usedAt
  {
    if ls != [] {
      var init, last := ls[..|ls| - 1], ls[|ls| - 1];
      assert forall i | 0 <= i < |init| :: init[i] == ls[i];
      IdsAtNewest(init, leases, c);
      IdsAtMembers(init, c);
      var ids := IdsAt(init, c);
      forall i | 0 <= i < |ids|
        ensures leases[ids[i]].usedAt >= leases[last.id].usedAt
      {
        assert ids[i] in ids;
        var j :| 0 <= j < |init| && init[j].id == ids[i] && init[j].usedCount == Itoa(c);
        assert ls[j].id == ids[i];
      }
    }
  }

  /** An index whose buckets are those of a newest-first list has the newest first in each count. */
  lemma {:induction false} BucketsNewest(q: Queue, ls: seq<LabelledLease>, leases: map<string, Lease>)
    requires Lines(ls, leases) && NewestFirst(ls)
    requires forall d :: KeysAt(q, d) == IdsAt(ls, d)
    ensures NewestWithinCounts(q, leases)
  {
    hide KeysAt, IdsAt, Lines, NewestFirst;
    LinesNewest(ls, leases);
    forall i, j | 0 <= i < j < |q| && q[i].count == q[j].count
      ensures q[i].key in leases && q[j].key in leases && leases[q[i].key].usedAt >= leases[q[j].key].usedAt
    {
      IdsAtNewest(ls, leases, q[i].count);
      var a, b := InBucketOrder(q, i, j);
    }
  }

  /** Entries of one count stand in its bucket in the order of the queue. */
  lemma {:induction false} InBucketOrder(q: Queue, i: nat, j: nat) returns (a: nat, b: nat)
    requires i < j < |q| && q[i].count == q[j].count
    ensures a < b < |KeysAt(q, q[i].count)|
    ensures KeysAt(q, q[i].count)[a] == q[i].key && KeysAt(q, q[i].count)[b] == q[j].key
  {
    var c := q[i].count;
    assert q == q[..j] + q[j..];
    KeysAtConcat(q[..j], q[j..], c);
    KeysAtMembers(q[..j], c);
    assert q[..j][i] == Entry(q[i].key, c);
    a :| 0 <= a < |KeysAt(q[..j], c)| && KeysAt(q[..j], c)[a] == q[i].key;
    b := |KeysAt(q[..j], c)|;
    assert KeysAt(q[j..], c)[0] == q[j].key;
  }

  lemma {:induction false} RearrangedLines(ls: seq<LabelledLease>, ms: seq<LabelledLease>, leases: map<string, Lease>)
    requires Lines(ls, leases) && multiset(ms) == multiset(ls)
    ensures Lines(ms, leases)
  {
    assert forall l :: l in ms <==> l in multiset(ms);
    assert forall l :: l in ls <==> l in multiset(ls);
    forall i, j | 0 <= i < j < |ms|
      ensures ms[i].id != ms[j].id
    {
      assert ms[i] in ls && ms[j] in ls;
      if ms[i] == ms[j] {
        Repeated(ms, i, j);
        Once(ls, ms[i]);
      }
    }
  }

  lemma {:induction false} Repeated(ms: seq<LabelledLease>, i: nat, j: nat)
    requires i < j < |ms| && ms[i] == ms[j]
    ensures multiset(ms)[ms[i]] >= 2
  {
    assert ms == ms[..i] + [ms[i]] + ms[i + 1..j] + [ms[j]] + ms[j + 1..];
  }

  lemma {:induction false} Once(ls: seq<LabelledLease>, l: LabelledLease)
    requires forall i, j | 0 <= i < j < |ls| :: ls[i].id != ls[j].id
    ensures multiset(ls)[l] <= 1
  {
    if ls != [] {
      var n := |ls| - 1;
      Once(ls[..n], l);
      assert ls == ls[..n] + [ls[n]];
      assert forall i | 0 <= i < n :: ls[..n][i].id != ls[n].id;
    }
  }

  /** An index rebuilt from the listed leases agrees with their labels, whatever their order. */
  lemma {:induction false} RebuiltAgrees(ls: seq<LabelledLease>, leases: map<string, Lease>)
    requires Lines(ls, leases) && Labelled(leases)
    ensures Stored(ls) && AddedAll(EMPTY, ls).Some?
    ensures var v := AddedAll(EMPTY, ls).value; WellFormed(v) && Agrees(QueueOf(v), leases)
    ensures forall d :: KeysAt(QueueOf(AddedAll(EMPTY, ls).value), d) == IdsAt(ls, d)
  {
    hide AddedAll, QueueOf, WellFormed, KeysAt, IdsAt, Canonical, Itoa, Atoi, CountSorted;
    assert Stored(ls) by {
      assert forall i | 0 <= i < |ls| :: ls[i] in ls;
    }
    RebuiltQueue(ls);
    var v := AddedAll(EMPTY, ls).value;
    var q, counts := QueueOf(v), Counts(leases);
    SizeIsLength(v);
    WellFormedDistinct(v);
    forall i | 0 <= i < |q|
      ensures q[i].key in counts && q[i].count == counts[q[i].key]
    {
      KeysAtMembers(q, q[i].count);
      IdsAtMembers(ls, q[i].count);
      assert q[i] == Entry(q[i].key, q[i].count);
      assert q[i].key in IdsAt(ls, q[i].count);
      var j :| 0 <= j < |ls| && ls[j].id == q[i].key && ls[j].usedCount == Itoa(q[i].count);
      assert ls[j] in ls;
      AtoiItoa(q[i].count);
    }
    forall k | k in counts
      ensures Entry(k, counts[k]) in q
    {
      var l := Listed(k, leases[k]);
      var j :| 0 <= j < |ls| && ls[j] == l;
      UseCountText(l.usedCount);
      KeysAtMembers(q, counts[k]);
      IdsAtMembers(ls, counts[k]);
    }
  }

  lemma {:induction false} UseCountText(text: string)
    requires IsUseCount(text)
    ensures Itoa(Atoi(text).value) == text
  {
  }

  lemma {:induction false} WellFormedDistinct(v: Index)
    requires WellFormed(v)
    ensures NoDuplicates(QueueOf(v))
  {
  }

  lemma {:induction false} LinesGrow(ls: seq<LabelledLease>, leases: map<string, Lease>, todo: set<string>, k: string)
    requires todo <= leases.Keys && k in todo && Lines(ls, leases - todo)
    ensures Lines(ls + [Listed(k, leases[k])], leases - (todo - {k}))
  {
    assert forall l | l in ls :: l.id in leases - todo;
    assert forall i | 0 <= i < |ls| :: ls[i] in ls;
    var more := leases - (todo - {k});
    forall j | j in more
      ensures Listed(j, more[j]) in ls + [Listed(k, leases[k])]
    {
      assert j != k ==> j in leases - todo;
    }
  }

  lemma {:induction false} LinesParse(ls: seq<LabelledLease>, leases: map<string, Lease>)
    requires Lines(ls, leases)
    ensures (forall l | l in ls :: Atoi(l.usedCount).Some?) <==> forall k | k in leases :: IsNumbered(leases[k])
  {
    assert Atoi("").None?;
    hide Atoi;
    if k :| k in leases && !IsNumbered(leases[k]) {
      assert Listed(k, leases[k]) in ls;
    }
    if l :| l in ls && Atoi(l.usedCount).None? {
      assert !IsNumbered(leases[l.id]);
    }
  }

  class Content {
    const lc: LeaseCache
    var leases: map<string, Lease>
    var blobs: map<string, nat>
    var clock: int

    /** Outside transactions and collections the index agrees with the labels. */
    ghost predicate Agreed()
      reads this, lc
    {
      lc.Valid() && Agrees(lc.order, leases)
    }

    ghost predicate InOrder()
      reads this, lc
    {
      InUseOrder(lc.order, leases, clock)
    }

    ghost predicate Valid()
      reads this, lc
    {
      Agreed() && AllLeased(blobs, leases)
    }

    constructor (lc: LeaseCache, leases: map<string, Lease>, blobs: map<string, nat>, clock: int)
      ensures this.lc == lc && this.leases == leases && this.blobs == blobs && this.clock == clock
    {
      this.lc, this.leases, this.blobs, this.clock := lc, leases, blobs, clock;
    }

    /** Starts on whatever is stored. It fails just when some lease has no number for a use count;
        else the index is built from the leases newest first, and within a count it gives up first
        the lease whose label has the latest time. */
    static method NewContent(leases: map<string, Lease>, blobs: map<string, nat>, clock: int)
      returns (r: Option<Content>, ghost sorted: seq<LabelledLease>)
      ensures r.None? <==> exists k | k in leases :: !IsNumbered(leases[k])
      ensures r.Some? ==>
                fresh(r.value) && fresh(r.value.lc) && r.value.leases == leases && r.value.blobs == blobs &&
                r.value.clock == clock
      ensures r.Some? ==>
                && Lines(sorted, leases) && (forall i | 0 <= i < |sorted| :: sorted[i].id in leases)
                && (forall i, j | 0 <= i < j < |sorted| ::
                      leases[sorted[i].id].usedAt >= leases[sorted[j].id].usedAt)
      ensures r.Some? && Labelled(leases) ==>
                && r.value.Agreed() && NewestWithinCounts(r.value.lc.order, leases)
                && forall d :: KeysAt(r.value.lc.order, d) == IdsAt(sorted, d)
    {
      hide AddedAll, WellFormed, QueueOf, Agrees, KeysAt, IdsAt, Atoi, IsUseCount, Stored, IsNumbered,
           NewestWithinCounts;
      var ls := [];
      var todo := leases.Keys;
      while todo != {}
        invariant todo <= leases.Keys
        invariant Lines(ls, leases - todo)
      {
        var k :| k in todo;
        LinesGrow(ls, leases, todo, k);
        ls := ls + [Listed(k, leases[k])];
        todo := todo - {k};
      }
      assert leases - {} == leases;
      var lc := new LeaseCache();
      var ok;
      ok, sorted := lc.Init(ls);
      RearrangedLines(ls, sorted, leases);
      LinesNewest(sorted, leases);
      LinesParse(ls, leases);
      if !ok {
        return None, sorted;
      }
      var content := new Content(lc, leases, blobs, clock);
      if Labelled(leases) {
        RebuiltAgrees(sorted, leases);
        BucketsNewest(lc.order, sorted, leases);
      }
      return Some(content), sorted;
    }

    /** The total size of the stored blobs. */
    method Size() returns (size: int)
      ensures size == Total(blobs)
    {
      size := 0;
      var todo := blobs;
      while todo != map[]
        invariant size + Total(todo) == Total(blobs)
        decreases |todo|
      {
        var key :| key in todo;
        TotalRemove(todo, key);
        size := size + todo[key];
        todo := todo - {key};
      }
    }

    /** Makes sure that a digest is leased. An existing lease keeps its labels, a new one has none,
        and no other lease changes. */
    method EnsureLease(digest: string)
      modifies this`leases
      ensures digest in leases && leases.Keys == old(leases).Keys + {digest}
      ensures forall k | k in old(leases) :: leases[k] == old(leases)[k]
      ensures digest !in old(leases) ==> leases[digest].usedCount == None
    {
      if digest !in leases {
        leases := leases[digest := Lease(None, 0)];
      }
    }

    /** The transaction that counts one use of a leased digest: index first, then labels. */
    method CountUse(digest: string, ghost c: int) returns (ok: bool)
      requires NextCount(leases, digest) == Some(c) && c >= 1
      requires lc.Valid() && (!HasKey(lc.order, digest) || Entry(digest, c - 1) in lc.order)
      modifies this`leases, this`clock, lc
      ensures ok && lc.Valid()
      ensures match old(leases[digest].usedCount)
              case None => c == 1
              case Some(text) => Atoi(text) == Some(c - 1)
      ensures leases == old(leases)[digest := Label(Use(c, old(clock)))] && clock == old(clock) + 1
      ensures lc.order == Insert(Delete(old(lc.order), digest), Entry(digest, c))
    {
      hide WellFormed, QueueOf, Insert, Delete, Added, HasKey;
      var usedCount := 1;
      if leases[digest].usedCount.Some? {
        var count := Atoi(leases[digest].usedCount.value);
        if count == None {
          return false;
        }
        usedCount := count.value + 1;
      }
      AtoiItoa(usedCount);
      ok := lc.Add(digest, Itoa(usedCount));
      if ok {
        leases := leases[digest := Lease(Some(Itoa(usedCount)), clock)];
        clock := clock + 1;
      }
    }

    /** Records one use of a digest: creates its lease if need be, then counts the use. */
    method UpdateLease(digest: string) returns (ok: bool, ghost use: Use)
      requires Agreed()
      modifies this`leases, this`clock, lc
      ensures ok && Agreed() && clock == old(clock) + 1
      ensures use == NextUse(old(leases), digest, old(clock)) && use.at == old(clock)
      ensures digest !in old(leases) ==> use.count == 1
      ensures digest in old(leases) ==>
                old(leases)[digest].usedCount.Some? && Atoi(old(leases)[digest].usedCount.value) == Some(use.count - 1)
      ensures digest in leases && leases[digest] == Lease(Some(Itoa(use.count)), use.at)
      ensures leases == old(leases)[digest := Label(use)]
      ensures lc.order == Insert(Delete(old(lc.order), digest), Entry(digest, use.count))
      ensures old(InOrder()) ==> InOrder()
    {
      hide WellFormed, QueueOf, Agrees, InUseOrder, Insert, Delete, NextCount, HasKey, NextUse, Label, Added, Keys,
           NoDuplicates;
      ghost var q, before, now := lc.order, leases, clock;
      AgreedLabels(q, before);
      use := NextUse(before, digest, now);
      NextUseCounts(before, digest, now);
      NextUseLabels(before, digest, now);
      UseIsNext(q, before, now, digest);
      UseKeepsAgreement(q, before, now, digest);
      if InUseOrder(q, before, now) {
        UseKeepsOrder(q, before, now, digest);
      }
      EnsureLease(digest);
      LeasedTooCount(before, leases, digest, now);
      assert lc.Valid() && lc.order == q;
      ok := CountUse(digest, use.count);
      assert leases == before[digest := Label(use)];
    }

    /** Stores a blob. It is leased first, so it is never stored without a lease. */
    method Commit(digest: string, size: nat)
      requires Agreed()
      modifies this, lc
      ensures Agreed() && digest in leases
      ensures old(Valid()) ==> Valid()
      ensures old(InOrder()) ==> InOrder()
      ensures blobs == if digest in old(blobs) then old(blobs) else old(blobs)[digest := size]
      ensures leases == old(leases)[digest := Label(NextUse(old(leases), digest, old(clock)))]
      ensures clock == old(clock) + 1
    {
      hide Agrees, InUseOrder, NextUse, Label, Insert, Delete;
      var _, _ := UpdateLease(digest);
      if digest !in blobs {
        blobs := blobs[digest := size];
      }
    }

    /** Gives up the next lease: takes it out of the index, then deletes it from the database. */
    method GiveUpNext() returns (r: Result<string, GcError>)
      requires Agreed() && lc.order != []
      modifies this`leases, lc
      ensures Agreed() && (old(InOrder()) ==> InOrder())
      ensures r == Ok(old(lc.order)[0].key)
      ensures lc.order == old(lc.order)[1..]
      ensures leases == old(leases) - {old(lc.order)[0].key}
    {
      hide WellFormed, QueueOf, Agrees, InUseOrder, Popped, Dropped;
      HeadLookUp(lc.View());
      DropKeepsAgreement(lc.order, leases);
      if InUseOrder(lc.order, leases, clock) {
        DropKeepsOrder(lc.order, leases, clock);
      }
      var removed := lc.Remove();
      if removed == None {
        return Err(BrokenIndex);
      }
      if removed.value !in leases {
        return Err(LeaseNotFound);
      }
      leases := leases - {removed.value};
      return Ok(removed.value);
    }

    /** Gives leases up, next victim first, until `size` bytes are accounted for. It fails just
        when all the leases together do not hold as much, and only once all are given up. */
    method CleanLeases(size: int) returns (r: Result<(), GcError>, ghost n: nat)
      requires Agreed()
      modifies this`leases, lc
      ensures Agreed() && (old(InOrder()) ==> InOrder())
      ensures Drained(old(lc.order), old(leases), n, lc.order, leases)
      ensures r.Ok? <==> size <= Bytes(old(lc.order), blobs)
      ensures r.Ok? ==> ShortestPrefix(old(lc.order), blobs, size, n)
      ensures r.Err? ==> r.error == EmptyIndex && lc.order == [] && n == |old(lc.order)|
    {
      hide WellFormed, QueueOf, Agrees, InUseOrder, Total, Drained, Pending, ShortestPrefix, AllLeased;
      ghost var q, before := lc.order, leases;
      DrainStarts(q, leases, blobs, size);
      var left := size;
      n := 0;
      while left > 0
        invariant Agreed() && (old(InOrder()) ==> InOrder())
        invariant Drained(q, before, n, lc.order, leases) && Pending(q, blobs, size, n, left)
        decreases |lc.order|
      {
        var length := lc.Len();
        if length == 0 {
          DrainFails(q, before, n, leases, blobs, size, left);
          return Err(EmptyIndex), n;
        }
        DrainStep(q, before, n, lc.order, leases, blobs, size, left);
        var given := GiveUpNext();
        match given
        case Err(error) => return Err(error), n;
        case Ok(digest) =>
          if digest in blobs {
            left := left - blobs[digest];
          }
          n := n + 1;
      }
      DrainEnds(q, n, blobs, size, left);
      return Ok(()), n;
    }

    /** The database's own collection, which keeps exactly the leased blobs. */
    method CollectUnleased()
      modifies this`blobs
      ensures blobs == Within(old(blobs), leases.Keys)
    {
      blobs := map d | d in blobs && d in leases.Keys :: blobs[d];
    }

    /** Reduces the store to the limit if it exceeds it. Leases of just the first keys of the
        queue are given up, as few as free enough, and their blobs are removed, together with any
        blob that has no lease. The pass fails just when the blobs without a lease alone exceed the
        limit, as they can after a crash in the middle of an earlier pass; it then has given every
        lease up and removed no blob. Where every blob is leased, only a negative limit, which an
        overflow gives, makes it fail. */
    method GC(threshold: int) returns (outcome: GcOutcome, ghost n: nat)
      requires Agreed()
      modifies this`leases, this`blobs, lc
      ensures Agreed() && (old(InOrder()) ==> InOrder())
      ensures outcome == Idle <==> Total(old(blobs)) <= Limit(threshold)
      ensures outcome == Idle ==> leases == old(leases) && blobs == old(blobs) && lc.order == old(lc.order)
      ensures outcome == Collected <==>
                Total(Unleased(old(blobs), old(leases))) <= Limit(threshold) < Total(old(blobs))
      ensures outcome == Collected ==>
                && Valid() && Total(blobs) <= Limit(threshold)
                && ShortestPrefix(old(lc.order), old(blobs), Total(old(blobs)) - Limit(threshold), n)
                && lc.order == old(lc.order)[n..]
                && leases == old(leases) - Keys(old(lc.order)[..n])
                && blobs == Within(old(blobs), old(leases).Keys) - Keys(old(lc.order)[..n])
      ensures outcome.Failed? ==>
                outcome.error == EmptyIndex && lc.order == [] && leases == map[] && blobs == old(blobs)
    {
      hide WellFormed, QueueOf, Agrees, InUseOrder, Total, Bytes, Drained, ShortestPrefix, AllLeased, Limit, Within,
           Keys, Unleased;
      ghost var q, before, stored := lc.order, leases, blobs;
      LeasedBytes(q, before, stored);
      n := 0;
      var limit := Limit(threshold);
      var size := Size();
      if size <= limit {
        return Idle, n;
      }
      size := Size();
      var r;
      r, n := CleanLeases(size - limit);
      DrainedParts(q, before, n, lc.order, leases);
      match r
      case Err(error) =>
        AllGivenUp(q, before);
        return Failed(error), n;
      case Ok(_) =>
        VictimBlobs(q, before, stored, n, limit);
        CollectUnleased();
        return Collected, n;
    }
  }

  /** The blobs that no lease holds. */
  ghost function Unleased(blobs: map<string, nat>, leases: map<string, Lease>): map<string, nat> {
    blobs - leases.Keys
  }

  lemma {:induction false} LeasedBytes(q: Queue, leases: map<string, Lease>, blobs: map<string, nat>)
    requires Agrees(q, leases)
    ensures Total(blobs) == Bytes(q, blobs) + Total(Unleased(blobs, leases))
    ensures AllLeased(blobs, leases) ==> Unleased(blobs, leases) == map[] && Total(Unleased(blobs, leases)) == 0
  {
    hide Agrees, NoDuplicates, Keys;
    AgreedLabels(q, leases);
    BytesAreTotal(q, blobs);
    TotalSplit(blobs, leases.Keys);
  }

  lemma {:induction false} AllGivenUp(q: Queue, leases: map<string, Lease>)
    requires Agrees(q, leases)
    ensures leases - Keys(q[..|q|]) == map[]
  {
    hide Agrees, NoDuplicates, Keys;
    AgreedLabels(q, leases);
    assert q[..|q|] == q;
  }

  lemma {:induction false} DrainedParts(q: Queue, leases: map<string, Lease>, n: nat, rest: Queue,
                                        left: map<string, Lease>)
    requires Drained(q, leases, n, rest, left)
    ensures n <= |q| && rest == q[n..] && left == leases - Keys(q[..n])
  {
  }

  lemma {:induction false} VictimsDistinct(q: Queue, leases: map<string, Lease>, n: nat)
    requires Agrees(q, leases) && n <= |q|
    ensures NoDuplicates(q[..n])
  {
    hide Agrees, Keys;
    AgreedLabels(q, leases);
  }

  /** Collecting after the victims' leases are gone removes the blobs of the victims, and those
      that had no lease, and brings the store down to the limit. */
  lemma {:induction false} VictimBlobs(q: Queue, leases: map<string, Lease>, blobs: map<string, nat>,
                                       n: nat, limit: int)
    requires Agrees(q, leases)
    requires ShortestPrefix(q, blobs, Total(blobs) - limit, n)
    ensures var left := leases - Keys(q[..n]);
            && Within(blobs, left.Keys) == Within(blobs, leases.Keys) - Keys(q[..n])
            && AllLeased(Within(blobs, left.Keys), left)
            && Total(Within(blobs, left.Keys)) <= limit
  {
    hide Agrees, NoDuplicates, Total, Bytes, Keys;
    VictimsDistinct(q, leases, n);
    FreedBytes(q[..n], blobs);
    var rest, left := blobs - Keys(q[..n]), leases - Keys(q[..n]);
    TotalSplit(rest, left.Keys);
    assert Within(rest, left.Keys) == Within(blobs, left.Keys);
  }

  /** The first `n` victims are gone from the queue and from the leases, and nothing else is. */
  ghost predicate Drained(q: Queue, leases: map<string, Lease>, n: nat, rest: Queue, left: map<string, Lease>) {
    n <= |q| && rest == q[n..] && left == leases - Keys(q[..n])
  }

  /** The bytes still to be found after `n` victims; all but the last were not enough. */
  ghost predicate Pending(q: Queue, blobs: map<string, nat>, size: int, n: nat, left: int) {
    && n <= |q|
    && left == size - Bytes(q[..n], blobs)
    && (n > 0 ==> Bytes(q[..n - 1], blobs) < size)
  }

  lemma {:induction false} DrainStarts(q: Queue, leases: map<string, Lease>, blobs: map<string, nat>, size: int)
    ensures Drained(q, leases, 0, q, leases) && Pending(q, blobs, size, 0, size)
  {
    assert q[..0] == [];
    NoKeys(leases);
  }

  lemma {:induction false} DrainStep(q: Queue, leases: map<string, Lease>, n: nat, rest: Queue,
                                     kept: map<string, Lease>, blobs: map<string, nat>, size: int, left: int)
    requires Drained(q, leases, n, rest, kept) && rest != []
    requires Pending(q, blobs, size, n, left) && left > 0
    ensures Drained(q, leases, n + 1, rest[1..], kept - {rest[0].key})
    ensures Pending(q, blobs, size, n + 1, if rest[0].key in blobs then left - blobs[rest[0].key] else left)
  {
    VictimStep(q, n, blobs);
    assert q[..n + 1][..n] == q[..n];
  }

  lemma {:induction false} DrainFails(q: Queue, leases: map<string, Lease>, n: nat, kept: map<string, Lease>,
                                      blobs: map<string, nat>, size: int, left: int)
    requires Drained(q, leases, n, [], kept) && Pending(q, blobs, size, n, left) && left > 0
    ensures Bytes(q, blobs) < size && n == |q|
  {
    assert q[..n] == q;
  }

  lemma {:induction false} DrainEnds(q: Queue, n: nat, blobs: map<string, nat>, size: int, left: int)
    requires Pending(q, blobs, size, n, left) && left <= 0
    ensures ShortestPrefix(q, blobs, size, n) && size <= Bytes(q, blobs)
  {
    assert q == q[..n] + q[n..];
    BytesConcat(q[..n], q[n..], blobs);
  }

  lemma {:induction false} NoKeys(leases: map<string, Lease>)
    ensures Keys([]) == {} && leases - Keys([]) == leases
  {
  }

  lemma {:induction false} VictimStep(q: Queue, n: nat, blobs: map<string, nat>)
    requires n < |q|
    ensures q[n..][0] == q[n] && q[n..][1..] == q[n + 1..]
    ensures Bytes(q[..n + 1], blobs) == Bytes(q[..n], blobs) + (if q[n].key in blobs then blobs[q[n].key] else 0)
    ensures Keys(q[..n + 1]) == Keys(q[..n]) + {q[n].key}
  {
    assert q[..n + 1] == q[..n] + [q[n]];
    BytesConcat(q[..n], [q[n]], blobs);
  }
}
