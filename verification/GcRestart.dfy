/** A process that starts on an existing store finds it in a state from which runs may start. */
module GcRestart {
  import opened Wrappers
  import opened Lfru
  import opened LeaseIndex
  import opened LeaseCaches
  import opened LeaseRestart
  import P = GcProtocol

  /** The same leases, numbered in the order in which they are added to the index. From then on it
      is this number, and not the time in the label, that decides which of two leases with one use
      count was seen last. */
  ghost function Renumbered(ls: seq<LabelledLease>): seq<LabelledLease> {
    seq(|ls|, i requires 0 <= i < |ls| => LabelledLease(ls[i].id, ls[i].usedCount, i))
  }

  lemma {:induction false} RenumberedStored(ls: seq<LabelledLease>)
    requires Stored(ls)
    ensures Stored(Renumbered(ls)) && OldestFirst(Renumbered(ls))
  {
  }

  lemma {:induction false} RenumberedAdded(v: Index, ls: seq<LabelledLease>, ms: seq<LabelledLease>)
    requires |ls| == |ms|
    requires forall i | 0 <= i < |ls| :: ls[i].id == ms[i].id && ls[i].usedCount == ms[i].usedCount
    ensures AddedAll(v, ls) == AddedAll(v, ms)
  {
    if ls != [] {
      RenumberedAdded(v, ls[..|ls| - 1], ms[..|ms| - 1]);
    }
  }

  /** The state after the index was built from the stored leases, added in the order of ls; those in
      `attached` protect their blobs. */
  ghost function Restarted(ls: seq<LabelledLease>, attached: set<string>, blobs: map<string, nat>): P.Sys
    requires Stored(Renumbered(ls)) && AddedAll(EMPTY, ls).Some?
  {
    var uses := UsesOf(Renumbered(ls));
    P.Sys(map k | k in uses :: P.LeaseState(0, k in attached, Some(uses[k])), QueueOf(AddedAll(EMPTY, ls).value),
          blobs, |ls|, {}, None, None, None, map[])
  }

  ghost function Ids(ls: seq<LabelledLease>): set<string> {
    set i | 0 <= i < |ls| :: ls[i].id
  }

  lemma {:induction false} RenumberedUses(ls: seq<LabelledLease>)
    requires Stored(ls)
    ensures Stored(Renumbered(ls)) && UsesOf(Renumbered(ls)).Keys == Ids(ls)
    ensures forall k | k in UsesOf(Renumbered(ls)) ::
              UsesOf(Renumbered(ls))[k].at < |ls| && UsesOf(Renumbered(ls))[k].count >= 1
  {
    hide IsUseCount, UsesOf;
    var ms := Renumbered(ls);
    RenumberedStored(ls);
    UsesOfMembers(ms);
    forall k | k in UsesOf(ms)
      ensures UsesOf(ms)[k].at < |ls| && UsesOf(ms)[k].count >= 1 && k in Ids(ls)
    {
      var i :| 0 <= i < |ms| && ms[i].id == k;
      CountAtLeastOne(ms[i]);
      assert ls[i].id == k;
    }
    forall k | k in Ids(ls)
      ensures k in UsesOf(ms)
    {
      var i :| 0 <= i < |ls| && ls[i].id == k;
      assert ms[i].id == k;
    }
  }

  lemma {:induction false} RestartedUses(ls: seq<LabelledLease>, attached: set<string>, blobs: map<string, nat>)
    requires Stored(ls)
    ensures Stored(Renumbered(ls)) && AddedAll(EMPTY, ls).Some?
    ensures var s := Restarted(ls, attached, blobs);
            && P.Recorded(s.leases) == UsesOf(Renumbered(ls)) && s.leases.Keys == Ids(ls)
            && (forall k | k in s.leases :: s.leases[k].attached <==> k in attached)
            && Tracks(s.queue, UsesOf(Renumbered(ls)))
  {
    hide Tracks, AddedAll, QueueOf, Stored, OldestFirst, UsesOf, Ids;
    var ms := Renumbered(ls);
    RenumberedUses(ls);
    RenumberedStored(ls);
    OldestFirstRestores(ms);
    RenumberedAdded(EMPTY, ls, ms);
  }

  /** Whatever labelled leases are stored, and in whatever order they are added, a restart gives a
      state from which runs start if and only if every lease protects its blob and every blob is
      leased; then all that holds of runs holds after it. A lease that one thread labelled before
      another attached its blob is not like that after a crash, nor is a blob whose lease a collection
      had given up. */
  lemma {:induction false} RestartStarts(ls: seq<LabelledLease>, attached: set<string>, blobs: map<string, nat>)
    requires Stored(ls)
    ensures Stored(Renumbered(ls)) && AddedAll(EMPTY, ls).Some?
    ensures P.Starts(Restarted(ls, attached, blobs)) <==> Ids(ls) <= attached && blobs.Keys <= Ids(ls)
    ensures var v := AddedAll(EMPTY, ls).value; WellFormed(v) && QueueOf(v) == Restarted(ls, attached, blobs).queue
    ensures P.Recorded(Restarted(ls, attached, blobs).leases).Keys == Ids(ls)
  {
    hide Tracks, AddedAll, QueueOf, WellFormed, IsUseCount, UsesOf, CountSorted, Ids;
    RebuiltQueue(ls);
    RestartedUses(ls, attached, blobs);
    RenumberedUses(ls);
    var s := Restarted(ls, attached, blobs);
    if Ids(ls) <= attached {
      assert forall k | k in s.leases :: s.leases[k].attached && s.leases[k].use.Some?;
    } else {
      var k :| k in Ids(ls) && k !in attached;
      assert k in s.leases && !s.leases[k].attached;
    }
  }

  lemma {:induction false} CountAtLeastOne(l: LabelledLease)
    requires IsUseCount(l.usedCount)
    ensures UseOf(l).count >= 1 && UseOf(l).at == l.usedAt
  {
  }
}
