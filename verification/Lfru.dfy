/** The order in which leases are given up: least frequently used first and, among equally
    often used ones, least recently used first. A queue is the whole order, next victim first. */
module Lfru {
  datatype Entry = Entry(key: string, count: int)

  type Queue = seq<Entry>

  /** The last use of a key: how often it was used so far, and when. */
  datatype Use = Use(count: int, at: int)

  ghost predicate CountSorted(q: Queue) {
    forall i, j | 0 <= i < j < |q| :: q[i].count <= q[j].count
  }

  ghost predicate NoDuplicates(q: Queue) {
    forall i, j | 0 <= i < j < |q| :: q[i].key != q[j].key
  }

  ghost predicate HasKey(q: Queue, key: string) {
    exists i | 0 <= i < |q| :: q[i].key == key
  }

  ghost function Keys(q: Queue): set<string> {
    set e | e in q :: e.key
  }

  /** The keys used exactly `c` times, least recently used first. */
  ghost function KeysAt(q: Queue, c: int): seq<string> {
    if q == [] then []
    else (if q[0].count == c then [q[0].key] else []) + KeysAt(q[1..], c)
  }

  /** The most recently used key goes behind every key used no more often than it. */
  ghost function Insert(q: Queue, e: Entry): Queue {
    if q == [] || q[0].count > e.count then [e] + q else [q[0]] + Insert(q[1..], e)
  }

  ghost function Delete(q: Queue, key: string): Queue {
    if q == [] then []
    else (if q[0].key == key then [] else [q[0]]) + Delete(q[1..], key)
  }

  /** A sequence of keys without one of them. */
  function Without(s: seq<string>, key: string): seq<string> {
    if s == [] then []
    else (if s[0] == key then [] else [s[0]]) + Without(s[1..], key)
  }

  /** The lexicographic order on (use count, time of last use). */
  predicate Before(a: Use, b: Use) {
    a.count < b.count || (a.count == b.count && a.at < b.at)
  }

  /** The queue lists exactly the used keys, in the order of (use count, time of last use). */
  ghost predicate Tracks(q: Queue, uses: map<string, Use>) {
    && (forall i | 0 <= i < |q| :: q[i].key in uses && q[i].count == uses[q[i].key].count)
    && (forall i, j | 0 <= i < j < |q| :: Before(uses[q[i].key], uses[q[j].key]))
    && (forall k | k in uses :: Entry(k, uses[k].count) in q)
  }

  /** The queue lists exactly these keys, each under its count; the order within a count is open. */
  ghost predicate Lists(q: Queue, counts: map<string, int>) {
    && CountSorted(q) && NoDuplicates(q)
    && (forall i | 0 <= i < |q| :: q[i].key in counts && q[i].count == counts[q[i].key])
    && (forall k | k in counts :: Entry(k, counts[k]) in q)
  }

  lemma {:induction false} WithoutMembers(s: seq<string>, key: string)
    ensures forall k :: k in Without(s, key) <==> k in s && k != key
    ensures key !in s ==> Without(s, key) == s
    ensures |Without(s, key)| <= |s|
  {
    if s != [] {
      WithoutMembers(s[1..], key);
      assert s == [s[0]] + s[1..];
    }
  }

  lemma {:induction false} WithoutConcat(a: seq<string>, b: seq<string>, key: string)
    ensures Without(a + b, key) == Without(a, key) + Without(b, key)
  {
    if a == [] {
      assert a + b == b;
    } else {
      assert (a + b)[1..] == a[1..] + b;
      WithoutConcat(a[1..], b, key);
    }
  }

  lemma {:induction false} KeysAtMembers(q: Queue, c: int)
    ensures forall k :: k in KeysAt(q, c) <==> Entry(k, c) in q
  {
    if q != [] {
      KeysAtMembers(q[1..], c);
      assert q == [q[0]] + q[1..];
    }
  }

  lemma {:induction false} KeysAtConcat(a: Queue, b: Queue, c: int)
    ensures KeysAt(a + b, c) == KeysAt(a, c) + KeysAt(b, c)
  {
    if a == [] {
      assert a + b == b;
    } else {
      assert (a + b)[1..] == a[1..] + b;
      KeysAtConcat(a[1..], b, c);
    }
  }

  /** A queue ordered by count is determined by its buckets. */
  lemma {:induction false} BucketsDetermineQueue(p: Queue, q: Queue)
    requires CountSorted(p) && CountSorted(q)
    requires forall c :: KeysAt(p, c) == KeysAt(q, c)
    ensures p == q
  {
    EmptyTogether(p, q);
    EmptyTogether(q, p);
    if p != [] {
      HeadIsLeast(p, q);
      HeadIsLeast(q, p);
      var c := p[0].count;
      assert KeysAt(p, c)[0] == p[0].key && KeysAt(q, c)[0] == q[0].key;
      assert p[0] == q[0];
      forall d ensures KeysAt(p[1..], d) == KeysAt(q[1..], d) {
        assert KeysAt(p, d) == KeysAt(q, d);
        var head := if c == d then [p[0].key] else [];
        assert KeysAt(p, d) == head + KeysAt(p[1..], d);
        assert KeysAt(q, d) == head + KeysAt(q[1..], d);
        assert KeysAt(p[1..], d) == KeysAt(p, d)[|head|..];
        assert KeysAt(q[1..], d) == KeysAt(q, d)[|head|..];
      }
      BucketsDetermineQueue(p[1..], q[1..]);
      assert p == [p[0]] + p[1..] && q == [q[0]] + q[1..];
    }
  }

  lemma {:induction false} EmptyTogether(p: Queue, q: Queue)
    requires forall c :: KeysAt(p, c) == KeysAt(q, c)
    ensures p == [] ==> q == []
  {
    if q != [] {
      assert KeysAt(q, q[0].count) == KeysAt(p, q[0].count);
    }
  }

  lemma {:induction false} HeadIsLeast(p: Queue, q: Queue)
    requires p != [] && q != [] && CountSorted(p)
    requires forall c :: KeysAt(p, c) == KeysAt(q, c)
    ensures p[0].count <= q[0].count
  {
    var c := q[0].count;
    assert q[0].key in KeysAt(q, c);
    assert KeysAt(p, c) == KeysAt(q, c);
    KeysAtMembers(p, c);
    assert Entry(q[0].key, c) in p;
  }

  lemma {:induction false} KeysAtBelow(q: Queue, c: int)
    requires forall i | 0 <= i < |q| :: q[i].count > c
    ensures KeysAt(q, c) == []
  {
    if q != [] {
      KeysAtBelow(q[1..], c);
    }
  }

  lemma {:induction false} KeysAtInsert(q: Queue, e: Entry, c: int)
    requires CountSorted(q)
    ensures KeysAt(Insert(q, e), c) == KeysAt(q, c) + (if c == e.count then [e.key] else [])
  {
    if q == [] {
    } else if q[0].count > e.count {
      assert Insert(q, e)[1..] == q;
      if c == e.count {
        KeysAtBelow(q, c);
      }
    } else {
      assert Insert(q, e)[1..] == Insert(q[1..], e);
      KeysAtInsert(q[1..], e, c);
    }
  }

  lemma {:induction false} KeysAtDelete(q: Queue, key: string, c: int)
    ensures KeysAt(Delete(q, key), c) == Without(KeysAt(q, c), key)
  {
    if q != [] {
      KeysAtDelete(q[1..], key, c);
      var head := if q[0].count == c then [q[0].key] else [];
      WithoutConcat(head, KeysAt(q[1..], c), key);
      var kept := if q[0].key == key then [] else [q[0]];
      KeysAtConcat(kept, Delete(q[1..], key), c);
    }
  }

  lemma {:induction false} DeleteMembers(q: Queue, key: string)
    ensures forall e :: e in Delete(q, key) <==> e in q && e.key != key
    ensures CountSorted(q) ==> CountSorted(Delete(q, key))
  {
    if q != [] {
      DeleteMembers(q[1..], key);
      assert forall e :: e in q <==> e == q[0] || e in q[1..];
      var rest := Delete(q[1..], key);
      assert forall i | 0 <= i < |rest| :: rest[i] in rest;
    }
  }

  lemma {:induction false} DeleteAbsent(q: Queue, key: string)
    requires !HasKey(q, key)
    ensures Delete(q, key) == q
  {
    if q != [] {
      assert q[0].key != key;
      assert forall i | 0 <= i < |q[1..]| :: q[1..][i] == q[i + 1];
      DeleteAbsent(q[1..], key);
    }
  }

  lemma {:induction false} DeletePresent(q: Queue, i: nat)
    requires NoDuplicates(q) && i < |q|
    ensures Delete(q, q[i].key) == q[..i] + q[i + 1..]
  {
    if i == 0 {
      assert forall j | 0 <= j < |q[1..]| :: q[1..][j] == q[j + 1];
      assert !HasKey(q[1..], q[0].key);
      DeleteAbsent(q[1..], q[0].key);
    } else {
      assert q[1..][i - 1] == q[i];
      DeletePresent(q[1..], i - 1);
      assert q[..i] == [q[0]] + q[1..][..i - 1];
    }
  }

  /** What deleting a key does to a queue without duplicates. */
  lemma {:induction false} DeleteKeepsOrder(q: Queue, key: string)
    requires NoDuplicates(q)
    ensures NoDuplicates(Delete(q, key)) && !HasKey(Delete(q, key), key)
    ensures |Delete(q, key)| == if HasKey(q, key) then |q| - 1 else |q|
  {
    if HasKey(q, key) {
      var i :| 0 <= i < |q| && q[i].key == key;
      DeletePresent(q, i);
      var r := Delete(q, key);
      assert forall j | 0 <= j < |r| :: r[j] == q[if j < i then j else j + 1];
    } else {
      DeleteAbsent(q, key);
    }
  }

  lemma {:induction false} InsertMembers(q: Queue, e: Entry)
    ensures forall x :: x in Insert(q, e) <==> x in q || x == e
    ensures |Insert(q, e)| == |q| + 1
    ensures CountSorted(q) ==> CountSorted(Insert(q, e))
  {
    if q == [] || q[0].count > e.count {
    } else {
      InsertMembers(q[1..], e);
      assert q == [q[0]] + q[1..];
      var r := Insert(q[1..], e);
      assert forall i | 0 <= i < |r| :: r[i] in r;
    }
  }

  lemma {:induction false} InsertNoDuplicates(q: Queue, e: Entry)
    requires NoDuplicates(q) && !HasKey(q, e.key)
    ensures NoDuplicates(Insert(q, e))
  {
    if q == [] || q[0].count > e.count {
      assert forall i | 0 <= i < |q| :: q[i].key != e.key;
    } else {
      assert forall i | 0 <= i < |q[1..]| :: q[1..][i] == q[i + 1];
      assert !HasKey(q[1..], e.key);
      InsertNoDuplicates(q[1..], e);
      InsertMembers(q[1..], e);
      var r := Insert(q[1..], e);
      forall i | 0 <= i < |r| ensures r[i].key != q[0].key {
        assert r[i] in r;
        if r[i] in q[1..] {
          var j :| 0 <= j < |q[1..]| && q[1..][j] == r[i];
          assert q[j + 1] == r[i];
        } else {
          assert q[0].key != e.key;
        }
      }
    }
  }

  /** Insert splits the queue where the counts pass the new one. */
  lemma {:induction false} InsertSplits(q: Queue, e: Entry) returns (n: nat)
    requires CountSorted(q)
    ensures n <= |q| && Insert(q, e) == q[..n] + [e] + q[n..]
    ensures forall i | 0 <= i < n :: q[i].count <= e.count
    ensures forall i | n <= i < |q| :: e.count < q[i].count
  {
    if q == [] || q[0].count > e.count {
      n := 0;
    } else {
      var m := InsertSplits(q[1..], e);
      n := m + 1;
      assert q[..n] == [q[0]] + q[1..][..m];
      forall i | 0 <= i < n ensures q[i].count <= e.count {
        assert i > 0 ==> q[i] == q[1..][i - 1];
      }
      forall i | n <= i < |q| ensures e.count < q[i].count {
        assert q[i] == q[1..][i - 1];
      }
    }
  }

  lemma {:induction false} TracksSorted(q: Queue, uses: map<string, Use>)
    requires Tracks(q, uses)
    ensures CountSorted(q) && NoDuplicates(q)
    ensures forall k :: k in uses <==> HasKey(q, k)
  {
    forall i, j | 0 <= i < j < |q|
      ensures q[i].count <= q[j].count && q[i].key != q[j].key
    {
      assert Before(uses[q[i].key], uses[q[j].key]);
    }
  }

  lemma {:induction false} RemoveAtTracks(q: Queue, uses: map<string, Use>, i: nat, r: Queue)
    requires Tracks(q, uses) && NoDuplicates(q) && i < |q| && |r| == |q| - 1
    requires forall j | 0 <= j < |r| :: r[j] == q[if j < i then j else j + 1]
    ensures Tracks(r, uses - {q[i].key})
  {
    var left := uses - {q[i].key};
    forall j | 0 <= j < |r| ensures r[j].key in left && r[j].count == left[r[j].key].count {
      assert r[j] == q[if j < i then j else j + 1];
    }
    forall j, k | 0 <= j < k < |r| ensures Before(left[r[j].key], left[r[k].key]) {
      var a, b := if j < i then j else j + 1, if k < i then k else k + 1;
      assert Before(uses[q[a].key], uses[q[b].key]);
    }
    forall k | k in left ensures Entry(k, left[k].count) in r {
      var j :| 0 <= j < |q| && q[j] == Entry(k, uses[k].count);
      assert r[if j < i then j else j - 1] == q[j];
    }
  }

  lemma {:induction false} InsertedAt(q: Queue, n: nat, e: Entry, i: nat)
    requires n <= |q| && i <= |q|
    ensures (q[..n] + [e] + q[n..])[i] == if i < n then q[i] else if i == n then e else q[i - 1]
  {
  }

  lemma {:induction false} InsertedMember(q: Queue, n: nat, e: Entry, x: Entry)
    requires n <= |q| && (x in q || x == e)
    ensures x in q[..n] + [e] + q[n..]
  {
    assert q == q[..n] + q[n..];
  }

  lemma {:induction false} InsertedPair(q: Queue, uses: map<string, Use>, n: nat, key: string, use: Use, i: nat, j: nat)
    requires Tracks(q, uses) && key !in uses && n <= |q| && i < j <= |q|
    requires forall k | 0 <= k < n :: Before(uses[q[k].key], use)
    requires forall k | n <= k < |q| :: Before(use, uses[q[k].key])
    ensures var r, now := q[..n] + [Entry(key, use.count)] + q[n..], uses[key := use];
            r[i].key in now && r[j].key in now && r[i].count == now[r[i].key].count &&
            r[j].count == now[r[j].key].count && Before(now[r[i].key], now[r[j].key])
  {
    hide Before;
    var e := Entry(key, use.count);
    InsertedAt(q, n, e, i);
    InsertedAt(q, n, e, j);
    if i != n && j != n {
      var a, b := if i < n then i else i - 1, if j < n then j else j - 1;
      assert Before(uses[q[a].key], uses[q[b].key]);
    }
  }

  lemma {:induction false} InsertAtTracks(q: Queue, uses: map<string, Use>, n: nat, key: string, use: Use, r: Queue)
    requires Tracks(q, uses) && key !in uses && n <= |q|
    requires forall i | 0 <= i < n :: Before(uses[q[i].key], use)
    requires forall i | n <= i < |q| :: Before(use, uses[q[i].key])
    requires r == q[..n] + [Entry(key, use.count)] + q[n..]
    ensures Tracks(r, uses[key := use])
  {
    hide Before;
    var now := uses[key := use];
    if q == [] {
      assert r == [Entry(key, use.count)];
    }
    forall i, j | 0 <= i < j < |r|
      ensures r[i].key in now && r[j].key in now && r[i].count == now[r[i].key].count
      ensures r[j].count == now[r[j].key].count && Before(now[r[i].key], now[r[j].key])
    {
      InsertedPair(q, uses, n, key, use, i, j);
    }
    forall i | 0 <= i < |r|
      ensures r[i].key in now && r[i].count == now[r[i].key].count
    {
      if i > 0 {
        InsertedPair(q, uses, n, key, use, 0, i);
      } else if |r| > 1 {
        InsertedPair(q, uses, n, key, use, 0, 1);
      }
    }
    forall k | k in now
      ensures Entry(k, now[k].count) in r
    {
      InsertedMember(q, n, Entry(key, use.count), Entry(k, now[k].count));
    }
  }

  lemma {:induction false} DeleteTracks(q: Queue, uses: map<string, Use>, key: string)
    requires Tracks(q, uses)
    ensures Tracks(Delete(q, key), uses - {key})
  {
    hide Tracks;
    TracksSorted(q, uses);
    if HasKey(q, key) {
      var i :| 0 <= i < |q| && q[i].key == key;
      DeletePresent(q, i);
      RemoveAtTracks(q, uses, i, Delete(q, key));
    } else {
      DeleteAbsent(q, key);
      assert uses - {key} == uses;
    }
  }

  lemma {:induction false} InsertTracks(q: Queue, uses: map<string, Use>, key: string, use: Use)
    requires Tracks(q, uses) && key !in uses
    requires forall k | k in uses :: uses[k].at < use.at
    ensures Tracks(Insert(q, Entry(key, use.count)), uses[key := use])
  {
    TracksSorted(q, uses);
    var n := InsertSplits(q, Entry(key, use.count));
    InsertAtTracks(q, uses, n, key, use, Insert(q, Entry(key, use.count)));
  }

  /** Using a key moves it to where its new count and the present time belong, and nothing else. */
  lemma {:induction false} TouchTracks(q: Queue, uses: map<string, Use>, key: string, use: Use)
    requires Tracks(q, uses)
    requires forall k | k in uses :: uses[k].at < use.at
    ensures Tracks(Insert(Delete(q, key), Entry(key, use.count)), uses[key := use])
  {
    DeleteTracks(q, uses, key);
    InsertTracks(Delete(q, key), uses - {key}, key, use);
    assert (uses - {key})[key := use] == uses[key := use];
  }

  lemma {:induction false} PrefixKeys(q: Queue, n: nat)
    requires NoDuplicates(q) && n <= |q|
    ensures forall j | 0 <= j < |q| :: q[j].key in Keys(q[..n]) <==> j < n
    ensures forall k | k in Keys(q[..n]) :: exists j :: 0 <= j < n && q[j].key == k
  {
    forall j | 0 <= j < |q| ensures q[j].key in Keys(q[..n]) <==> j < n {
      if j < n {
        assert q[..n][j] == q[j];
      } else {
        assert forall i | 0 <= i < n :: q[..n][i].key != q[j].key;
      }
    }
    forall k | k in Keys(q[..n]) ensures exists j :: 0 <= j < n && q[j].key == k {
      var e :| e in q[..n] && e.key == k;
      var j :| 0 <= j < n && q[..n][j] == e;
      assert q[j].key == k;
    }
  }

  /** Giving up any number of keys from the front leaves only keys that come later in the
      order of (use count, time of last use). */
  lemma {:induction false} PrefixTracks(q: Queue, uses: map<string, Use>, n: nat)
    requires Tracks(q, uses) && n <= |q|
    ensures Tracks(q[n..], uses - Keys(q[..n]))
    ensures forall v, s | v in Keys(q[..n]) && s in uses && s !in Keys(q[..n]) :: v in uses && Before(uses[v], uses[s])
  {
    TracksSorted(q, uses);
    PrefixKeys(q, n);
    var left := uses - Keys(q[..n]);
    assert forall i | 0 <= i < |q[n..]| :: q[n..][i] == q[n + i];
    forall k | k in left ensures Entry(k, left[k].count) in q[n..] {
      var i :| 0 <= i < |q| && q[i] == Entry(k, uses[k].count);
      assert q[i].key !in Keys(q[..n]);
      assert q[n..][i - n] == q[i];
    }
    forall v, s | v in Keys(q[..n]) && s in uses && s !in Keys(q[..n])
      ensures v in uses && Before(uses[v], uses[s])
    {
      var i :| 0 <= i < n && q[i].key == v;
      var j :| 0 <= j < |q| && q[j] == Entry(s, uses[s].count);
      assert q[j].key !in Keys(q[..n]);
      assert Before(uses[q[i].key], uses[q[j].key]);
    }
  }

  lemma {:induction false} HeadEntry(p: Queue, uses: map<string, Use>)
    requires Tracks(p, uses)
    ensures p == [] <==> uses == map[]
    ensures p != [] ==> p[0].key in uses && p[0].count == uses[p[0].key].count
  {
    if uses != map[] {
      var k :| k in uses;
      assert Entry(k, uses[k].count) in p;
    }
    if p != [] {
      assert p[0].key in uses;
    }
  }

  /** The uses alone fix the order. */
  lemma {:induction false} TracksUnique(p: Queue, q: Queue, uses: map<string, Use>)
    requires Tracks(p, uses) && Tracks(q, uses)
    ensures p == q
  {
    hide Tracks, Keys;
    HeadEntry(p, uses);
    HeadEntry(q, uses);
    if p != [] {
      HeadUnique(p, q, uses);
      HeadUnique(q, p, uses);
      assert p[0] == q[0];
      PrefixTracks(p, uses, 1);
      PrefixTracks(q, uses, 1);
      assert p[..1] == q[..1] == [p[0]];
      TracksUnique(p[1..], q[1..], uses - Keys(p[..1]));
      assert p == [p[0]] + p[1..] && q == [q[0]] + q[1..];
    }
  }

  lemma {:induction false} HeadUnique(p: Queue, q: Queue, uses: map<string, Use>)
    requires Tracks(p, uses) && Tracks(q, uses) && p != [] && q != []
    ensures p[0].key == q[0].key || Before(uses[p[0].key], uses[q[0].key])
  {
    assert Entry(q[0].key, uses[q[0].key].count) in p;
    var i :| 0 <= i < |p| && p[i].key == q[0].key;
    assert i > 0 ==> Before(uses[p[0].key], uses[p[i].key]);
  }

  lemma {:induction false} ListsKeys(q: Queue, counts: map<string, int>)
    requires Lists(q, counts)
    ensures Keys(q) == counts.Keys
    ensures forall k :: HasKey(q, k) <==> k in counts
  {
    assert forall k | k in counts :: Entry(k, counts[k]).key == k;
  }

  /** Using a key keeps the queue listing the counts, whatever the order within them is. */
  lemma {:induction false} TouchLists(q: Queue, counts: map<string, int>, key: string, c: int)
    requires Lists(q, counts)
    ensures Lists(Insert(Delete(q, key), Entry(key, c)), counts[key := c])
  {
    hide Insert, Delete;
    var d := Delete(q, key);
    var r := Insert(d, Entry(key, c));
    DeleteMembers(q, key);
    DeleteKeepsOrder(q, key);
    InsertMembers(d, Entry(key, c));
    InsertNoDuplicates(d, Entry(key, c));
    forall i | 0 <= i < |r|
      ensures r[i].key in counts[key := c] && r[i].count == counts[key := c][r[i].key]
    {
      assert r[i] in r;
    }
  }

  lemma {:induction false} TailOf(q: Queue)
    requires CountSorted(q) && NoDuplicates(q) && q != []
    ensures CountSorted(q[1..]) && NoDuplicates(q[1..]) && !HasKey(q[1..], q[0].key)
  {
    var r := q[1..];
    assert forall i | 0 <= i < |r| :: r[i] == q[i + 1];
  }

  lemma {:induction false} PopLists(q: Queue, counts: map<string, int>)
    requires Lists(q, counts) && q != []
    ensures q[0].key in counts && Lists(q[1..], counts - {q[0].key})
  {
    hide CountSorted, NoDuplicates;
    TailOf(q);
    var r := q[1..];
    forall i | 0 <= i < |r|
      ensures r[i].key in counts - {q[0].key} && r[i].count == counts[r[i].key]
    {
      assert r[i] == q[i + 1];
    }
    forall k | k in counts - {q[0].key}
      ensures Entry(k, counts[k]) in r
    {
      var j :| 0 <= j < |q| && q[j] == Entry(k, counts[k]);
      assert r[j - 1] == q[j];
    }
  }
}
