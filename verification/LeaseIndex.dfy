/** The value held by a lease cache: buckets of keys by use count, the sorted array of live
    counts and the size counter; and the conditions under which it is an LFRU queue. */
module LeaseIndex {
  import opened Wrappers
  import opened Decimal
  import opened Lfru

  /** A bucket lists its keys least recently used first. */
  datatype Index = Index(caches: map<string, seq<string>>, cachesIndex: seq<int>, size: int)

  function InsertInt(s: seq<int>, c: int): seq<int> {
    if s == [] || c <= s[0] then [c] + s else [s[0]] + InsertInt(s[1..], c)
  }

  function SortInts(s: seq<int>): seq<int> {
    if s == [] then [] else InsertInt(SortInts(s[..|s| - 1]), s[|s| - 1])
  }

  /** Adding a key to a bucket makes it the most recently used one there. */
  function LruAdd(bucket: seq<string>, key: string): seq<string> {
    Without(bucket, key) + [key]
  }

  function FilterIndex(index: seq<int>, usedCount: string): seq<int> {
    if index == [] then []
    else FilterIndex(index[..|index| - 1], usedCount)
         + (if usedCount != Itoa(index[|index| - 1]) then [index[|index| - 1]] else [])
  }

  /** The effect of the helper `remove`. */
  function Dropped(v: Index, key: string, usedCount: string): Index
    requires usedCount in v.caches
  {
    var bucket := Without(v.caches[usedCount], key);
    if bucket == [] then Index(v.caches - {usedCount}, FilterIndex(v.cachesIndex, usedCount), v.size)
    else v.(caches := v.caches[usedCount := bucket])
  }

  function WithKey(v: Index, key: string, usedCount: string, count: int): Index {
    if usedCount in v.caches then v.(caches := v.caches[usedCount := LruAdd(v.caches[usedCount], key)])
    else v.(caches := v.caches[usedCount := [key]], cachesIndex := SortInts(v.cachesIndex + [count]))
  }

  /** The effect of `Add` on any index, well formed or not. */
  function Added(v: Index, key: string, usedCount: string): Option<Index> {
    match Atoi(usedCount)
    case None => None
    case Some(count) =>
      var w := WithKey(v, key, usedCount, count);
      var previous := Itoa(count - 1);
      var moved := usedCount != "1" && previous in w.caches && key in w.caches[previous];
      Some(if moved then Dropped(w, key, previous) else w.(size := w.size + 1))
  }

  /** The effect of `Remove` where its look-ups succeed. */
  function Popped(v: Index): Option<(string, Index)>
    requires v.cachesIndex != [] && Itoa(v.cachesIndex[0]) in v.caches
  {
    var usedCount := Itoa(v.cachesIndex[0]);
    if v.caches[usedCount] == [] then None
    else
      var key := v.caches[usedCount][0];
      var w := Dropped(v, key, usedCount);
      Some((key, w.(size := w.size - 1)))
  }

  // ----- The queue an index stands for -----

  ghost function Tagged(keys: seq<string>, c: int): Queue {
    if keys == [] then [] else [Entry(keys[0], c)] + Tagged(keys[1..], c)
  }

  ghost function Bucket(caches: map<string, seq<string>>, c: int): seq<string> {
    if Itoa(c) in caches then caches[Itoa(c)] else []
  }

  ghost function Flatten(index: seq<int>, caches: map<string, seq<string>>): Queue {
    if index == [] then [] else Tagged(Bucket(caches, index[0]), index[0]) + Flatten(index[1..], caches)
  }

  /** The order in which the index will give its keys up. */
  ghost function QueueOf(v: Index): Queue {
    Flatten(v.cachesIndex, v.caches)
  }

  ghost predicate StrictlySorted(s: seq<int>) {
    forall i, j | 0 <= i < j < |s| :: s[i] < s[j]
  }

  predicate Canonical(s: string) {
    Atoi(s).Some? && Itoa(Atoi(s).value) == s
  }

  /** The array of counts is strictly sorted, at least 1, and lists exactly the live buckets. */
  ghost predicate Shaped(v: Index) {
    && StrictlySorted(v.cachesIndex)
    && (forall c: int | c in v.cachesIndex :: c >= 1)
    && (forall c: int :: c in v.cachesIndex <==> Itoa(c) in v.caches)
    && (forall s | s in v.caches :: Canonical(s) && v.caches[s] != [])
  }

  /** Moreover each key is in one bucket only and `size` counts the keys. */
  ghost predicate WellFormed(v: Index) {
    && Shaped(v)
    && NoDuplicates(QueueOf(v))
    && v.size == |QueueOf(v)|
  }

  // ----- Lists of counts -----

  lemma {:induction false} InsertIntSorted(s: seq<int>, c: int)
    requires StrictlySorted(s) && c !in s
    ensures StrictlySorted(InsertInt(s, c))
    ensures forall x :: x in InsertInt(s, c) <==> x in s || x == c
  {
    if s == [] || c <= s[0] {
    } else {
      InsertIntSorted(s[1..], c);
      assert s == [s[0]] + s[1..];
      var r := InsertInt(s[1..], c);
      assert forall i | 0 <= i < |r| :: r[i] in r;
    }
  }

  lemma {:induction false} SortIntsSorted(s: seq<int>)
    requires forall i, j | 0 <= i < j < |s| :: s[i] != s[j]
    ensures StrictlySorted(SortInts(s))
    ensures forall x :: x in SortInts(s) <==> x in s
  {
    if s != [] {
      var init, last := s[..|s| - 1], s[|s| - 1];
      SortIntsSorted(init);
      assert s == init + [last];
      assert forall i | 0 <= i < |init| :: init[i] == s[i];
      InsertIntSorted(SortInts(init), last);
    }
  }

  lemma {:induction false} FilterIndexSorted(index: seq<int>, usedCount: string)
    requires StrictlySorted(index)
    ensures StrictlySorted(FilterIndex(index, usedCount))
    ensures forall x :: x in FilterIndex(index, usedCount) <==> x in index && usedCount != Itoa(x)
  {
    if index != [] {
      var init, last := index[..|index| - 1], index[|index| - 1];
      assert index == init + [last];
      FilterIndexSorted(init, usedCount);
      var r := FilterIndex(init, usedCount);
      assert forall i | 0 <= i < |r| :: r[i] in init;
    }
  }

  // ----- The queue, bucket by bucket -----

  lemma {:induction false} TaggedKeysAt(keys: seq<string>, c: int, d: int)
    ensures KeysAt(Tagged(keys, c), d) == if c == d then keys else []
  {
    if keys != [] {
      TaggedKeysAt(keys[1..], c, d);
      assert Tagged(keys, c)[1..] == Tagged(keys[1..], c);
    }
  }

  lemma {:induction false} TaggedMembers(keys: seq<string>, c: int)
    ensures |Tagged(keys, c)| == |keys|
    ensures forall i | 0 <= i < |keys| :: Tagged(keys, c)[i] == Entry(keys[i], c)
  {
    if keys != [] {
      TaggedMembers(keys[1..], c);
    }
  }

  lemma {:induction false} FlattenKeysAt(index: seq<int>, caches: map<string, seq<string>>, d: int)
    requires StrictlySorted(index)
    ensures KeysAt(Flatten(index, caches), d) == if d in index then Bucket(caches, d) else []
  {
    if index != [] {
      FlattenKeysAt(index[1..], caches, d);
      TaggedKeysAt(Bucket(caches, index[0]), index[0], d);
      KeysAtConcat(Tagged(Bucket(caches, index[0]), index[0]), Flatten(index[1..], caches), d);
      assert index == [index[0]] + index[1..];
    }
  }

  lemma {:induction false} FlattenSorted(index: seq<int>, caches: map<string, seq<string>>)
    requires StrictlySorted(index)
    ensures CountSorted(Flatten(index, caches))
    ensures forall i | 0 <= i < |Flatten(index, caches)| :: Flatten(index, caches)[i].count in index
  {
    if index != [] {
      FlattenSorted(index[1..], caches);
      TaggedMembers(Bucket(caches, index[0]), index[0]);
      assert index == [index[0]] + index[1..];
    }
  }

  lemma {:induction false} ShapedQueue(v: Index)
    requires Shaped(v)
    ensures CountSorted(QueueOf(v))
    ensures forall d :: KeysAt(QueueOf(v), d) == Bucket(v.caches, d)
    ensures forall i | 0 <= i < |QueueOf(v)| :: QueueOf(v)[i].count >= 1
  {
    FlattenSorted(v.cachesIndex, v.caches);
    forall d ensures KeysAt(QueueOf(v), d) == Bucket(v.caches, d) {
      FlattenKeysAt(v.cachesIndex, v.caches, d);
    }
  }

  /** An index is recognised by its buckets. */
  lemma {:induction false} QueueFromBuckets(v: Index, q: Queue)
    requires Shaped(v) && CountSorted(q)
    requires forall d :: KeysAt(q, d) == Bucket(v.caches, d)
    ensures QueueOf(v) == q
  {
    ShapedQueue(v);
    forall d ensures KeysAt(QueueOf(v), d) == KeysAt(q, d) {
    }
    BucketsDetermineQueue(QueueOf(v), q);
  }

  lemma {:induction false} ItoaInjectiveAll()
    ensures forall a, b :: Itoa(a) == Itoa(b) ==> a == b
  {
    forall a, b | Itoa(a) == Itoa(b) ensures a == b {
      ItoaInjective(a, b);
    }
  }

  lemma {:induction false} WithKeyShaped(v: Index, key: string, c: int)
    requires Shaped(v) && c >= 1
    ensures Shaped(WithKey(v, key, Itoa(c), c))
    ensures forall d :: Bucket(WithKey(v, key, Itoa(c), c).caches, d)
                        == if d == c then LruAdd(Bucket(v.caches, c), key) else Bucket(v.caches, d)
  {
    ItoaInjectiveAll();
    AtoiItoa(c);
    if Itoa(c) !in v.caches {
      assert c !in v.cachesIndex;
      SortIntsSorted(v.cachesIndex + [c]);
    }
  }

  lemma {:induction false} DroppedBuckets(v: Index, key: string, c: int)
    requires Itoa(c) in v.caches
    ensures forall d :: Bucket(Dropped(v, key, Itoa(c)).caches, d)
                        == if d == c then Without(Bucket(v.caches, c), key) else Bucket(v.caches, d)
  {
    ItoaInjectiveAll();
  }

  lemma {:induction false} DroppedLast(v: Index, c: int)
    requires Shaped(v) && Itoa(c) in v.caches
    ensures Shaped(Index(v.caches - {Itoa(c)}, FilterIndex(v.cachesIndex, Itoa(c)), v.size))
  {
    FilterIndexSorted(v.cachesIndex, Itoa(c));
    var w := Index(v.caches - {Itoa(c)}, FilterIndex(v.cachesIndex, Itoa(c)), v.size);
    forall d: int ensures d in w.cachesIndex <==> Itoa(d) in w.caches {
      assert d in v.cachesIndex <==> Itoa(d) in v.caches;
    }
  }

  lemma {:induction false} DroppedShaped(v: Index, key: string, c: int)
    requires Shaped(v) && Itoa(c) in v.caches
    ensures Shaped(Dropped(v, key, Itoa(c)))
  {
    if Without(v.caches[Itoa(c)], key) == [] {
      hide Shaped;
      DroppedLast(v, c);
    }
  }

  // ----- What the operations do to the queue -----

  /** `Add` at count c, read as an operation on buckets. A key at count c - 1 leaves it. */
  lemma {:induction false} AddedShaped(v: Index, key: string, c: int)
    requires Shaped(v) && c >= 1
    ensures Added(v, key, Itoa(c)).Some? && Shaped(Added(v, key, Itoa(c)).value)
    ensures forall d :: Bucket(Added(v, key, Itoa(c)).value.caches, d)
                        == if d == c then LruAdd(Bucket(v.caches, c), key)
                           else if d == c - 1 then Without(Bucket(v.caches, d), key)
                           else Bucket(v.caches, d)
    ensures Added(v, key, Itoa(c)).value.size == v.size + (if key in Bucket(v.caches, c - 1) then 0 else 1)
  {
    AtoiItoa(c);
    AtoiItoa(1);
    ItoaInjectiveAll();
    assert Itoa(1) == "1";
    var w := WithKey(v, key, Itoa(c), c);
    WithKeyShaped(v, key, c);
    WithoutMembers(Bucket(v.caches, c - 1), key);
    assert Bucket(w.caches, c - 1) == Bucket(v.caches, c - 1);
    if c == 1 {
      assert 0 !in v.cachesIndex;
      assert Bucket(v.caches, 0) == [];
    } else if Itoa(c - 1) in w.caches && key in w.caches[Itoa(c - 1)] {
      DroppedShaped(w, key, c - 1);
      DroppedBuckets(w, key, c - 1);
    }
  }

  ghost predicate AtCount(v: Index, key: string, c: int) {
    key in Bucket(v.caches, c)
  }

  lemma {:induction false} BucketIsInQueue(v: Index, key: string, c: int)
    requires Shaped(v)
    ensures AtCount(v, key, c) <==> Entry(key, c) in QueueOf(v)
  {
    ShapedQueue(v);
    KeysAtMembers(QueueOf(v), c);
  }

  /** The queue after `Add`, for a key that is absent, one count below, or already at the count. */
  lemma {:induction false} AddedQueue(v: Index, key: string, c: int)
    requires Shaped(v) && c >= 1
    requires forall d :: AtCount(v, key, d) ==> d == c - 1 || d == c
    ensures QueueOf(Added(v, key, Itoa(c)).value) == Insert(Delete(QueueOf(v), key), Entry(key, c))
  {
    var q := QueueOf(v);
    var w := Added(v, key, Itoa(c)).value;
    var r := Insert(Delete(q, key), Entry(key, c));
    ShapedQueue(v);
    DeleteMembers(q, key);
    InsertMembers(Delete(q, key), Entry(key, c));
    AddedShaped(v, key, c);
    forall d ensures KeysAt(r, d) == Bucket(w.caches, d) {
      KeysAtInsert(Delete(q, key), Entry(key, c), d);
      KeysAtDelete(q, key, d);
      WithoutMembers(Bucket(v.caches, d), key);
      assert KeysAt(q, d) == Bucket(v.caches, d);
      assert !AtCount(v, key, d) || d == c - 1 || d == c;
    }
    QueueFromBuckets(w, r);
  }

  /** `Add` keeps the index well formed exactly when the key is new or its use count grows by
      one; its effect is then to move the key to the back of its new count. */
  lemma {:induction false} AddRefines(v: Index, key: string, c: int)
    requires WellFormed(v) && c >= 1
    ensures Added(v, key, Itoa(c)).Some?
    ensures WellFormed(Added(v, key, Itoa(c)).value)
            <==> (!HasKey(QueueOf(v), key) || Entry(key, c - 1) in QueueOf(v))
    ensures WellFormed(Added(v, key, Itoa(c)).value)
            ==> QueueOf(Added(v, key, Itoa(c)).value) == Insert(Delete(QueueOf(v), key), Entry(key, c))
  {
    var q := QueueOf(v);
    var w := Added(v, key, Itoa(c)).value;
    AddedShaped(v, key, c);
    forall d ensures AtCount(v, key, d) <==> Entry(key, d) in q {
      BucketIsInQueue(v, key, d);
    }
    if HasKey(q, key) {
      var i :| 0 <= i < |q| && q[i].key == key;
      var d := q[i].count;
      assert q[i] == Entry(key, d) && AtCount(v, key, d);
      OneCountOnly(q, i);
      if d == c - 1 || d == c {
        AddedQueue(v, key, c);
        DeleteKeepsOrder(q, key);
        InsertMembers(Delete(q, key), Entry(key, c));
        InsertNoDuplicates(Delete(q, key), Entry(key, c));
      } else {
        AddedTwice(v, key, c, d);
      }
    } else {
      assert forall d :: Entry(key, d) !in q;
      AddedQueue(v, key, c);
      DeleteKeepsOrder(q, key);
      InsertMembers(Delete(q, key), Entry(key, c));
      InsertNoDuplicates(Delete(q, key), Entry(key, c));
    }
  }

  lemma {:induction false} OneCountOnly(q: Queue, i: nat)
    requires NoDuplicates(q) && i < |q|
    ensures forall d :: Entry(q[i].key, d) in q <==> d == q[i].count
  {
    assert q[i] == Entry(q[i].key, q[i].count);
  }

  lemma {:induction false} AddedTwice(v: Index, key: string, c: int, d: int)
    requires Shaped(v) && c >= 1 && AtCount(v, key, d) && d != c && d != c - 1
    ensures Added(v, key, Itoa(c)).Some? && !WellFormed(Added(v, key, Itoa(c)).value)
  {
    AddedShaped(v, key, c);
    var w := Added(v, key, Itoa(c)).value;
    assert LruAdd(Bucket(v.caches, c), key)[|LruAdd(Bucket(v.caches, c), key)| - 1] == key;
    BucketIsInQueue(w, key, c);
    BucketIsInQueue(w, key, d);
    assert Bucket(w.caches, d) == Bucket(v.caches, d);
    var i :| 0 <= i < |QueueOf(w)| && QueueOf(w)[i] == Entry(key, c);
    var j :| 0 <= j < |QueueOf(w)| && QueueOf(w)[j] == Entry(key, d);
    assert QueueOf(w)[i].key == QueueOf(w)[j].key && i != j;
  }

  lemma {:induction false} HeadOfQueue(v: Index)
    requires Shaped(v) && v.cachesIndex != []
    ensures Itoa(v.cachesIndex[0]) in v.caches
    ensures QueueOf(v) != []
    ensures QueueOf(v)[0] == Entry(v.caches[Itoa(v.cachesIndex[0])][0], v.cachesIndex[0])
  {
    var c := v.cachesIndex[0];
    assert c in v.cachesIndex;
    TaggedMembers(Bucket(v.caches, c), c);
  }

  lemma {:induction false} TailKeysAt(q: Queue, d: int)
    requires NoDuplicates(q) && q != []
    ensures KeysAt(q[1..], d) == if d == q[0].count then Without(KeysAt(q, d), q[0].key) else KeysAt(q, d)
  {
    DeletePresent(q, 0);
    assert Delete(q, q[0].key) == q[1..];
    KeysAtDelete(q, q[0].key, d);
  }

  lemma {:induction false} DroppedHead(v: Index)
    requires Shaped(v) && NoDuplicates(QueueOf(v)) && v.cachesIndex != []
    ensures Itoa(v.cachesIndex[0]) in v.caches && QueueOf(v) != []
    ensures var w := Dropped(v, QueueOf(v)[0].key, Itoa(v.cachesIndex[0]));
            Shaped(w) && QueueOf(w) == QueueOf(v)[1..]
  {
    hide Shaped, Dropped, QueueOf, Bucket;
    var q, c := QueueOf(v), v.cachesIndex[0];
    ShapedQueue(v);
    HeadOfQueue(v);
    var w := Dropped(v, q[0].key, Itoa(c));
    DroppedShaped(v, q[0].key, c);
    DroppedBuckets(v, q[0].key, c);
    assert forall i | 0 <= i < |q[1..]| :: q[1..][i] == q[i + 1];
    forall d ensures KeysAt(q[1..], d) == Bucket(w.caches, d) {
      TailKeysAt(q, d);
      assert KeysAt(q, d) == Bucket(v.caches, d);
    }
    QueueFromBuckets(w, q[1..]);
  }

  /** `Remove` gives up the head of the queue; it fails on no well-formed index but the empty one. */
  lemma {:induction false} PopRefines(v: Index)
    requires WellFormed(v)
    ensures v.size == 0 <==> v.cachesIndex == []
    ensures v.size > 0 ==> Itoa(v.cachesIndex[0]) in v.caches && Popped(v).Some?
    ensures v.size > 0 ==> var (key, w) := Popped(v).value;
                           key == QueueOf(v)[0].key && WellFormed(w) && QueueOf(w) == QueueOf(v)[1..]
  {
    if v.cachesIndex != [] {
      HeadOfQueue(v);
      DroppedHead(v);
      var q := QueueOf(v);
      assert forall i | 0 <= i < |q[1..]| :: q[1..][i] == q[i + 1];
      assert QueueOf(Popped(v).value.1) == QueueOf(Dropped(v, q[0].key, Itoa(v.cachesIndex[0])));
    }
  }
}
