/** The in-memory index of leases: which lease to give up next. It is not safe for concurrent
    use; GcProtocol shows that its callers never use it concurrently. */
module LeaseCaches {
  import opened Wrappers
  import opened Decimal
  import opened Lfru
  import opened LeaseIndex

  /** A stored lease as the index sees it: its id and its two labels. */
  datatype LabelledLease = LabelledLease(id: string, usedCount: string, usedAt: int)

  /** The texts written as use counts: canonical decimals from 1 on. */
  predicate IsUseCount(usedCount: string) {
    Canonical(usedCount) && Atoi(usedCount).value >= 1
  }

  ghost predicate NewestFirst(ls: seq<LabelledLease>) {
    forall i, j | 0 <= i < j < |ls| :: ls[i].usedAt >= ls[j].usedAt
  }

  /** The index after adding the leases in the order given. */
  ghost function AddedAll(v: Index, ls: seq<LabelledLease>): Option<Index> {
    if ls == [] then Some(v)
    else
      var last := ls[|ls| - 1];
      match AddedAll(v, ls[..|ls| - 1])
      case None => None
      case Some(w) => Added(w, last.id, last.usedCount)
  }

  lemma {:induction false} NewestParts(s: seq<LabelledLease>)
    requires NewestFirst(s) && s != []
    ensures NewestFirst(s[1..]) && multiset(s) == multiset{s[0]} + multiset(s[1..])
    ensures forall x | x in s :: x.usedAt <= s[0].usedAt && (x == s[0] || x in s[1..])
  {
    assert s == [s[0]] + s[1..];
  }

  lemma {:induction false} NewestCons(x: LabelledLease, s: seq<LabelledLease>)
    requires NewestFirst(s) && forall y | y in s :: y.usedAt <= x.usedAt
    ensures NewestFirst([x] + s)
  {
    assert forall i | 0 <= i < |s| :: s[i] in s;
  }

  method InsertNewest(sorted: seq<LabelledLease>, l: LabelledLease) returns (r: seq<LabelledLease>)
    requires NewestFirst(sorted)
    ensures NewestFirst(r) && multiset(r) == multiset(sorted) + multiset{l}
    ensures forall x | x in r :: x == l || x in sorted
  {
    hide NewestFirst;
    if sorted != [] {
      NewestParts(sorted);
    }
    if sorted == [] || sorted[0].usedAt <= l.usedAt {
      r := [l] + sorted;
      NewestCons(l, sorted);
    } else {
      var rest := InsertNewest(sorted[1..], l);
      r := [sorted[0]] + rest;
      NewestCons(sorted[0], rest);
    }
  }

  /** The library sort: some newest-first arrangement, with ties in no particular order. */
  method SortByUsedAt(ls: seq<LabelledLease>) returns (sorted: seq<LabelledLease>)
    ensures NewestFirst(sorted) && multiset(sorted) == multiset(ls)
  {
    sorted := [];
    for i := 0 to |ls|
      invariant NewestFirst(sorted) && multiset(sorted) == multiset(ls[..i])
    {
      sorted := InsertNewest(sorted, ls[i]);
      assert ls[..i + 1] == ls[..i] + [ls[i]];
    }
    assert ls[..|ls|] == ls;
  }

  class LeaseCache {
    var caches: map<string, seq<string>>
    var cachesIndex: seq<int>
    var size: int
    ghost var order: Queue  // the order in which leases will be given up

    ghost function View(): Index
      reads this
    {
      Index(caches, cachesIndex, size)
    }

    ghost predicate Valid()
      reads this
    {
      WellFormed(View()) && order == QueueOf(View())
    }

    constructor ()
      ensures Valid() && order == [] && View() == Index(map[], [], 0)
    {
      caches, cachesIndex, size, order := map[], [], 0, [];
    }

    /** Fails, changing nothing, just when the count is not a number. */
    method Add(key: string, usedCount: string) returns (ok: bool)
      modifies this
      ensures ok <==> Atoi(usedCount).Some?
      ensures if ok then Some(View()) == Added(old(View()), key, usedCount) && order == QueueOf(View())
              else View() == old(View()) && order == old(order)
      ensures old(Valid()) && IsUseCount(usedCount) ==>
                var c := Atoi(usedCount).value;
                && (Valid() <==> (!HasKey(old(order), key) || Entry(key, c - 1) in old(order)))
                && (Valid() ==> order == Insert(Delete(old(order), key), Entry(key, c)))
    {
      hide WellFormed, QueueOf;
      ghost var before := View();
      var parsed := Atoi(usedCount);
      if parsed == None {
        return false;
      }
      var count := parsed.value;
      if usedCount in caches {
        caches := caches[usedCount := LruAdd(caches[usedCount], key)];
      } else {
        caches := caches[usedCount := [key]];
        cachesIndex := SortInts(cachesIndex + [count]);
      }
      if usedCount != "1" {
        var previous := Itoa(count - 1);
        if previous in caches && key in caches[previous] {
          RemoveFrom(key, previous);
          size := size - 1;
        }
      }
      size := size + 1;
      order := QueueOf(View());
      if WellFormed(before) && IsUseCount(usedCount) {
        AddRefines(before, key, count);
      }
      return true;
    }

    /** Takes out the key to be given up next. The look-ups are those the program does. */
    method Remove() returns (key: Option<string>)
      requires cachesIndex != [] && Itoa(cachesIndex[0]) in caches
      modifies this
      ensures match Popped(old(View()))
              case None => key == None && View() == old(View())
              case Some((k, w)) => key == Some(k) && View() == w
      ensures old(Valid()) ==> Valid() && old(order) != [] && key == Some(old(order)[0].key) && order == old(order)[1..]
    {
      ghost var before := View();
      var usedCount := Itoa(cachesIndex[0]);
      if caches[usedCount] == [] {
        key := None;
      } else {
        key := Some(caches[usedCount][0]);
        RemoveFrom(caches[usedCount][0], usedCount);
        size := size - 1;
      }
      order := QueueOf(View());
      if WellFormed(before) {
        PopRefines(before);
        ShapedQueue(before);
        HeadOfQueue(before);
      }
    }

    method RemoveFrom(key: string, usedCount: string)
      requires usedCount in caches
      modifies this`caches, this`cachesIndex
      ensures View() == Dropped(old(View()), key, usedCount)
    {
      caches := caches[usedCount := Without(caches[usedCount], key)];
      if caches[usedCount] == [] {
        caches := caches - {usedCount};
        assert caches == old(caches) - {usedCount};
        var newCachesIndex := [];
        for i := 0 to |cachesIndex|
          invariant newCachesIndex == FilterIndex(cachesIndex[..i], usedCount)
        {
          if usedCount != Itoa(cachesIndex[i]) {
            newCachesIndex := newCachesIndex + [cachesIndex[i]];
          }
          assert cachesIndex[..i + 1][..i] == cachesIndex[..i];
        }
        assert cachesIndex[..|cachesIndex|] == cachesIndex;
        cachesIndex := newCachesIndex;
      }
    }

    method Len() returns (n: int)
      ensures n == size
      ensures Valid() ==> n == |order|
    {
      n := size;
    }

    /** Rebuilds the index from the stored leases, newest first. */
    method Init(ls: seq<LabelledLease>) returns (ok: bool, ghost sorted: seq<LabelledLease>)
      modifies this
      ensures NewestFirst(sorted) && multiset(sorted) == multiset(ls)
      ensures ok <==> forall l | l in ls :: Atoi(l.usedCount).Some?
      ensures ok ==> Some(View()) == AddedAll(old(View()), sorted)
      ensures ok && old(order == QueueOf(View())) ==> order == QueueOf(View())
    {
      var order := SortByUsedAt(ls);
      sorted := order;
      assert forall l :: l in ls <==> l in multiset(ls);
      assert forall l :: l in order <==> l in multiset(order);
      for i := 0 to |order|
        invariant Some(View()) == AddedAll(old(View()), order[..i])
        invariant old(this.order == QueueOf(View())) ==> this.order == QueueOf(View())
        invariant forall j | 0 <= j < i :: Atoi(order[j].usedCount).Some?
      {
        assert order[..i + 1][..i] == order[..i];
        var added := Add(order[i].id, order[i].usedCount);
        if !added {
          assert order[i] in ls;
          return false, sorted;
        }
      }
      assert order[..|order|] == order;
      return true, sorted;
    }
  }
}
