/** What a restart does to the order of the leases. The index is rebuilt by adding the stored
    leases newest first, so within one use count the newest is given up first. */
module LeaseRestart {
  import opened Decimal
  import opened Lfru
  import opened LeaseIndex
  import opened LeaseCaches

  const EMPTY := Index(map[], [], 0)

  /** The ids of the leases used exactly `c` times, in the order they are listed. */
  ghost function IdsAt(ls: seq<LabelledLease>, c: int): seq<string> {
    if ls == [] then []
    else
      var last := ls[|ls| - 1];
      IdsAt(ls[..|ls| - 1], c) + (if last.usedCount == Itoa(c) then [last.id] else [])
  }

  /** Distinct leases with labels as the program writes them. */
  ghost predicate Stored(ls: seq<LabelledLease>) {
    && (forall i, j | 0 <= i < j < |ls| :: ls[i].id != ls[j].id)
    && (forall i | 0 <= i < |ls| :: IsUseCount(ls[i].usedCount))
  }

  ghost function UseOf(l: LabelledLease): Use
    requires IsUseCount(l.usedCount)
  {
    Use(Atoi(l.usedCount).value, l.usedAt)
  }

  /** The uses that the stored leases record. */
  ghost function UsesOf(ls: seq<LabelledLease>): map<string, Use>
    requires Stored(ls)
  {
    if ls == [] then map[]
    else
      var init, last := ls[..|ls| - 1], ls[|ls| - 1];
      assert forall i | 0 <= i < |init| :: init[i] == ls[i];
      UsesOf(init)[last.id := UseOf(last)]
  }

  ghost predicate OldestFirst(ls: seq<LabelledLease>) {
    forall i, j | 0 <= i < j < |ls| :: ls[i].usedAt < ls[j].usedAt
  }

  ghost predicate DistinctTimes(uses: map<string, Use>) {
    forall a, b | a in uses && b in uses && a != b :: uses[a].at != uses[b].at
  }

  ghost predicate DistinctCounts(uses: map<string, Use>) {
    forall a, b | a in uses && b in uses && a != b :: uses[a].count != uses[b].count
  }

  lemma {:induction false} IdsAtMembers(ls: seq<LabelledLease>, c: int)
    ensures forall k :: k in IdsAt(ls, c) <==> exists i :: 0 <= i < |ls| && ls[i].id == k && ls[i].usedCount == Itoa(c)
  {
    hide Itoa;
    if ls != [] {
      var init := ls[..|ls| - 1];
      IdsAtMembers(init, c);
      forall k ensures k in IdsAt(ls, c) <==> exists i :: 0 <= i < |ls| && ls[i].id == k && ls[i].usedCount == Itoa(c) {
        if k in IdsAt(init, c) {
          var i :| 0 <= i < |init| && init[i].id == k && init[i].usedCount == Itoa(c);
          assert ls[i] == init[i];
        }
        if i :| 0 <= i < |ls| && ls[i].id == k && ls[i].usedCount == Itoa(c) {
          assert i < |init| ==> init[i] == ls[i];
        }
      }
    }
  }

  lemma {:induction false} EmptyWellFormed()
    ensures WellFormed(EMPTY) && QueueOf(EMPTY) == []
  {
  }

  lemma {:induction false} FreshKey(q: Queue, ls: seq<LabelledLease>, id: string)
    requires forall d :: KeysAt(q, d) == IdsAt(ls, d)
    requires forall i | 0 <= i < |ls| :: ls[i].id != id
    ensures !HasKey(q, id)
  {
    hide KeysAt, IdsAt, Itoa;
    forall i | 0 <= i < |q| ensures q[i].key != id {
      KeysAtMembers(q, q[i].count);
      IdsAtMembers(ls, q[i].count);
      assert q[i] == Entry(q[i].key, q[i].count);
      assert q[i].key in KeysAt(q, q[i].count);
    }
  }

  lemma {:induction false} IdsAtAppend(ls: seq<LabelledLease>, l: LabelledLease, d: int)
    requires IsUseCount(l.usedCount)
    ensures IdsAt(ls + [l], d) == IdsAt(ls, d) + if d == Atoi(l.usedCount).value then [l.id] else []
  {
    hide Itoa, Atoi;
    AtoiItoa(d);
    assert (ls + [l])[..|ls|] == ls;
  }

  lemma {:induction false} SizeIsLength(v: Index)
    requires WellFormed(v)
    ensures v.size == |QueueOf(v)| && CountSorted(QueueOf(v))
  {
    ShapedQueue(v);
  }

  /** A key that was not listed yet goes behind the others of its count. */
  lemma {:induction false} AddFresh(v: Index, ls: seq<LabelledLease>, l: LabelledLease)
    requires WellFormed(v) && IsUseCount(l.usedCount)
    requires forall d :: KeysAt(QueueOf(v), d) == IdsAt(ls, d)
    requires forall i | 0 <= i < |ls| :: ls[i].id != l.id
    ensures Added(v, l.id, l.usedCount).Some?
    ensures var w := Added(v, l.id, l.usedCount).value;
            && WellFormed(w) && w.size == v.size + 1
            && QueueOf(w) == Insert(QueueOf(v), Entry(l.id, Atoi(l.usedCount).value))
            && !HasKey(QueueOf(v), l.id)
            && (forall d :: KeysAt(QueueOf(w), d) == IdsAt(ls + [l], d))
  {
    hide WellFormed, Added, QueueOf, Insert, Delete, Itoa, Atoi, KeysAt, IdsAt, HasKey, CountSorted;
    var q, c := QueueOf(v), Atoi(l.usedCount).value;
    FreshKey(q, ls, l.id);
    AddRefines(v, l.id, c);
    DeleteAbsent(q, l.id);
    InsertMembers(q, Entry(l.id, c));
    SizeIsLength(v);
    SizeIsLength(Added(v, l.id, l.usedCount).value);
    forall d ensures KeysAt(Insert(q, Entry(l.id, c)), d) == IdsAt(ls + [l], d) {
      KeysAtInsert(q, Entry(l.id, c), d);
      IdsAtAppend(ls, l, d);
    }
  }

  /** Rebuilding keeps every lease under its count: counts leave in ascending order and, within
      a count, the leases leave in the order they were added. */
  lemma {:induction false} RebuiltQueue(ls: seq<LabelledLease>)
    requires Stored(ls)
    ensures AddedAll(EMPTY, ls).Some?
    ensures var w := AddedAll(EMPTY, ls).value;
            && WellFormed(w) && CountSorted(QueueOf(w)) && w.size == |ls|
            && (forall d :: KeysAt(QueueOf(w), d) == IdsAt(ls, d))
  {
    if ls == [] {
      EmptyWellFormed();
      assert CountSorted(QueueOf(EMPTY));
    } else {
      var init, last := ls[..|ls| - 1], ls[|ls| - 1];
      assert ls == init + [last];
      assert forall i | 0 <= i < |init| :: init[i] == ls[i];
      RebuiltQueue(init);
      AddFresh(AddedAll(EMPTY, init).value, init, last);
      ShapedQueue(AddedAll(EMPTY, ls).value);
    }
  }

  lemma {:induction false} UsesOfLookup(ls: seq<LabelledLease>, i: nat)
    requires Stored(ls) && i < |ls|
    ensures ls[i].id in UsesOf(ls) && UsesOf(ls)[ls[i].id] == UseOf(ls[i])
  {
    var init := ls[..|ls| - 1];
    assert forall j | 0 <= j < |init| :: init[j] == ls[j];
    if i < |init| {
      UsesOfLookup(init, i);
    }
  }

  lemma {:induction false} UsesOfKey(ls: seq<LabelledLease>, k: string) returns (i: nat)
    requires Stored(ls) && k in UsesOf(ls)
    ensures i < |ls| && ls[i].id == k
  {
    var init := ls[..|ls| - 1];
    assert forall j | 0 <= j < |init| :: init[j] == ls[j];
    if ls[|ls| - 1].id == k {
      i := |ls| - 1;
    } else {
      i := UsesOfKey(init, k);
    }
  }

  lemma {:induction false} UsesOfMembers(ls: seq<LabelledLease>)
    requires Stored(ls)
    ensures forall i | 0 <= i < |ls| :: ls[i].id in UsesOf(ls) && UsesOf(ls)[ls[i].id] == UseOf(ls[i])
    ensures forall k | k in UsesOf(ls) :: exists i :: 0 <= i < |ls| && ls[i].id == k
  {
    forall i | 0 <= i < |ls| ensures ls[i].id in UsesOf(ls) && UsesOf(ls)[ls[i].id] == UseOf(ls[i]) {
      UsesOfLookup(ls, i);
    }
    forall k | k in UsesOf(ls) ensures exists i :: 0 <= i < |ls| && ls[i].id == k {
      var i := UsesOfKey(ls, k);
    }
  }

  lemma {:induction false} UsesBeforeLast(ls: seq<LabelledLease>)
    requires Stored(ls) && OldestFirst(ls) && ls != []
    ensures var init, last := ls[..|ls| - 1], ls[|ls| - 1];
            && Stored(init) && OldestFirst(init)
            && last.id !in UsesOf(init)
            && (forall k | k in UsesOf(init) :: UsesOf(init)[k].at < last.usedAt)
  {
    var init, last := ls[..|ls| - 1], ls[|ls| - 1];
    assert forall i | 0 <= i < |init| :: init[i] == ls[i];
    UsesOfMembers(init);
    forall k | k in UsesOf(init) ensures UsesOf(init)[k].at < last.usedAt && k != last.id {
      var i :| 0 <= i < |init| && init[i].id == k;
      assert init[i] == ls[i];
    }
  }

  /** Had the leases been added oldest first, the order before the restart would come back. */
  lemma {:induction false} OldestFirstRestores(ls: seq<LabelledLease>)
    requires Stored(ls) && OldestFirst(ls)
    ensures AddedAll(EMPTY, ls).Some? && Tracks(QueueOf(AddedAll(EMPTY, ls).value), UsesOf(ls))
  {
    if ls == [] {
      EmptyWellFormed();
    } else {
      hide Tracks, WellFormed, OldestFirst;
      var init, last := ls[..|ls| - 1], ls[|ls| - 1];
      assert ls == init + [last];
      UsesBeforeLast(ls);
      OldestFirstRestores(init);
      RebuiltQueue(init);
      AddFresh(AddedAll(EMPTY, init).value, init, last);
      InsertTracks(QueueOf(AddedAll(EMPTY, init).value), UsesOf(init), last.id, UseOf(last));
    }
  }

  // ----- Newest first, as the program does it -----

  lemma {:induction false} KeysAtAscending(q: Queue, uses: map<string, Use>, c: int)
    requires Tracks(q, uses)
    ensures forall i | 0 <= i < |KeysAt(q, c)| :: KeysAt(q, c)[i] in uses && uses[KeysAt(q, c)[i]].count == c
    ensures forall i, j | 0 <= i < j < |KeysAt(q, c)| :: uses[KeysAt(q, c)[i]].at < uses[KeysAt(q, c)[j]].at
  {
    if q != [] {
      hide Tracks;
      PrefixTracks(q, uses, 1);
      HeadEntry(q, uses);
      var left := uses - Keys(q[..1]);
      KeysAtAscending(q[1..], left, c);
      assert q[0] in q[..1];
      assert q[0].key in Keys(q[..1]);
    }
  }

  lemma {:induction false} IdsAtDescending(ls: seq<LabelledLease>, uses: map<string, Use>, c: int)
    requires Stored(ls) && NewestFirst(ls) && DistinctTimes(uses)
    requires forall i | 0 <= i < |ls| :: ls[i].id in uses && ls[i].usedAt == uses[ls[i].id].at
    ensures forall i | 0 <= i < |IdsAt(ls, c)| :: IdsAt(ls, c)[i] in uses
    ensures forall i, j | 0 <= i < j < |IdsAt(ls, c)| :: uses[IdsAt(ls, c)[i]].at > uses[IdsAt(ls, c)[j]].at
  {
    if ls != [] {
      var init, last := ls[..|ls| - 1], ls[|ls| - 1];
      assert forall i | 0 <= i < |init| :: init[i] == ls[i];
      IdsAtDescending(init, uses, c);
      IdsAtMembers(init, c);
      var ids := IdsAt(init, c);
      forall i | 0 <= i < |ids| ensures uses[ids[i]].at > uses[last.id].at {
        assert ids[i] in ids;
        var j :| 0 <= j < |init| && init[j].id == ids[i] && init[j].usedCount == Itoa(c);
        assert ls[j].id != last.id;
      }
    }
  }

  /** The order before a restart survives it exactly when no two leases share a use count. */
  lemma {:induction false} RestartKeepsOrder(p: Queue, ls: seq<LabelledLease>)
    requires Stored(ls) && NewestFirst(ls)
    requires Tracks(p, UsesOf(ls)) && DistinctTimes(UsesOf(ls))
    ensures AddedAll(EMPTY, ls).Some?
    ensures QueueOf(AddedAll(EMPTY, ls).value) == p <==> DistinctCounts(UsesOf(ls))
  {
    hide Tracks, WellFormed;
    RebuiltQueue(ls);
    var uses := UsesOf(ls);
    var q := QueueOf(AddedAll(EMPTY, ls).value);
    if DistinctCounts(uses) {
      RebuiltTracks(q, ls);
      TracksUnique(p, q, uses);
    } else {
      var a, b :| a in uses && b in uses && a != b && uses[a].count == uses[b].count;
      SharedCount(p, ls, a, b);
      assert KeysAt(q, uses[a].count) == IdsAt(ls, uses[a].count);
    }
  }

  /** Two leases with one count leave in opposite orders before and after. */
  lemma {:induction false} SharedCount(p: Queue, ls: seq<LabelledLease>, a: string, b: string)
    requires Stored(ls) && NewestFirst(ls)
    requires Tracks(p, UsesOf(ls)) && DistinctTimes(UsesOf(ls))
    requires a in UsesOf(ls) && b in UsesOf(ls) && a != b && UsesOf(ls)[a].count == UsesOf(ls)[b].count
    ensures KeysAt(p, UsesOf(ls)[a].count) != IdsAt(ls, UsesOf(ls)[a].count)
  {
    hide UsesOf, IdsAt, KeysAt, NewestFirst;
    var uses := UsesOf(ls);
    var c := uses[a].count;
    UsesOfMembers(ls);
    KeysAtAscending(p, uses, c);
    IdsAtDescending(ls, uses, c);
    KeysAtMembers(p, c);
    var keys := KeysAt(p, c);
    assert a in keys && b in keys;
    var i :| 0 <= i < |keys| && keys[i] == a;
    var j :| 0 <= j < |keys| && keys[j] == b;
    var x, y := if i < j then i else j, if i < j then j else i;
    assert uses[keys[x]].at < uses[keys[y]].at;
  }

  lemma {:induction false} RebuiltTracks(q: Queue, ls: seq<LabelledLease>)
    requires CountSorted(q) && NoDuplicates(q) && Stored(ls) && DistinctCounts(UsesOf(ls))
    requires forall d :: KeysAt(q, d) == IdsAt(ls, d)
    ensures Tracks(q, UsesOf(ls))
  {
    var uses := UsesOf(ls);
    UsesOfMembers(ls);
    forall e | e in q ensures e.key in uses && e.count == uses[e.key].count {
      KeysAtMembers(q, e.count);
      IdsAtMembers(ls, e.count);
      assert e == Entry(e.key, e.count);
      assert e.key in KeysAt(q, e.count);
      var i :| 0 <= i < |ls| && ls[i].id == e.key && ls[i].usedCount == Itoa(e.count);
      AtoiItoa(e.count);
    }
    forall k | k in uses ensures Entry(k, uses[k].count) in q {
      KeysAtMembers(q, uses[k].count);
      IdsAtMembers(ls, uses[k].count);
      var i :| 0 <= i < |ls| && ls[i].id == k;
      assert KeysAt(q, uses[k].count) == IdsAt(ls, uses[k].count);
    }
    forall i, j | 0 <= i < j < |q| ensures Before(uses[q[i].key], uses[q[j].key]) {
      assert q[i] in q && q[j] in q;
    }
  }

  /** Two leases used once: the one used first left first before the restart and leaves last after. */
  lemma {:induction false} RestartReversesTies(a: LabelledLease, b: LabelledLease)
    requires a.usedCount == b.usedCount == "1" && a.id != b.id && a.usedAt < b.usedAt
    ensures Tracks([Entry(a.id, 1), Entry(b.id, 1)], map[a.id := Use(1, a.usedAt), b.id := Use(1, b.usedAt)])
    ensures AddedAll(EMPTY, [b, a]).Some?
    ensures QueueOf(AddedAll(EMPTY, [b, a]).value) == [Entry(b.id, 1), Entry(a.id, 1)]
  {
    hide WellFormed, QueueOf, Added;
    AtoiItoa(1);
    assert Itoa(1) == "1" && Canonical("1");
    EmptyWellFormed();
    AddFresh(EMPTY, [], b);
    assert [] + [b] == [b];
    assert [b][..0] == [] && [b, a][..1] == [b];
    assert AddedAll(EMPTY, [b]) == Added(EMPTY, b.id, "1");
    AddFresh(Added(EMPTY, b.id, "1").value, [b], a);
    assert AddedAll(EMPTY, [b, a]) == Added(Added(EMPTY, b.id, "1").value, a.id, "1");
  }
}
