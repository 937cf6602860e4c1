/** Total sizes of stored blobs. */
module Sums {
  import opened Lfru

  ghost function Total(m: map<string, nat>): nat
    decreases |m|
  {
    if m == map[] then 0 else var k :| k in m; m[k] + Total(m - {k})
  }

  ghost function Within(m: map<string, nat>, s: set<string>): map<string, nat> {
    map k | k in m && k in s :: m[k]
  }

  /** The bytes freed by giving up these keys; a key without a blob frees nothing. */
  ghost function Bytes(q: Queue, blobs: map<string, nat>): nat {
    if q == [] then 0 else (if q[0].key in blobs then blobs[q[0].key] else 0) + Bytes(q[1..], blobs)
  }

  lemma {:induction false} BytesStep(q: Queue, blobs: map<string, nat>)
    ensures q == [] ==> Bytes(q, blobs) == 0
    ensures q != [] ==> Bytes(q, blobs) == Bytes(q[1..], blobs) + if q[0].key in blobs then blobs[q[0].key] else 0
  {
  }

  lemma {:induction false} TotalRemove(m: map<string, nat>, k: string)
    requires k in m
    ensures Total(m) == m[k] + Total(m - {k})
    decreases |m|
  {
    var p :| p in m && Total(m) == m[p] + Total(m - {p});
    if p != k {
      TotalRemove(m - {p}, k);
      TotalRemove(m - {k}, p);
      assert m - {p} - {k} == m - {k} - {p};
    }
  }

  lemma {:induction false} WithinRemove(m: map<string, nat>, s: set<string>, k: string)
    requires k in m
    ensures k in s ==> Within(m, s) - {k} == Within(m - {k}, s) && m - {k} - s == m - s
    ensures k !in s ==> Within(m - {k}, s) == Within(m, s) && m - {k} - s == m - s - {k}
  {
  }

  lemma {:induction false} TotalSplit(m: map<string, nat>, s: set<string>)
    ensures Total(m) == Total(Within(m, s)) + Total(m - s)
    decreases |m|
  {
    if m == map[] {
      assert Within(m, s) == m && m - s == m;
    } else {
      var k :| k in m;
      TotalSplit(m - {k}, s);
      WithinRemove(m, s, k);
      hide Total, Within;
      TotalRemove(m, k);
      if k in s {
        assert k in Within(m, s) && Within(m, s)[k] == m[k] by {
          WithinHas(m, s, k);
        }
        TotalRemove(Within(m, s), k);
      } else {
        TotalRemove(m - s, k);
      }
    }
  }

  lemma {:induction false} WithinHas(m: map<string, nat>, s: set<string>, k: string)
    ensures k in Within(m, s) <==> k in m && k in s
    ensures k in m && k in s ==> Within(m, s)[k] == m[k]
  {
  }

  lemma {:induction false} BytesConcat(p: Queue, q: Queue, blobs: map<string, nat>)
    ensures Bytes(p + q, blobs) == Bytes(p, blobs) + Bytes(q, blobs)
  {
    if p == [] {
      assert p + q == q;
    } else {
      assert (p + q)[1..] == p[1..] + q;
      BytesConcat(p[1..], q, blobs);
    }
  }

  /** Distinct keys free exactly the blobs stored under them. */
  lemma {:induction false} BytesAreTotal(q: Queue, blobs: map<string, nat>)
    requires NoDuplicates(q)
    ensures Bytes(q, blobs) == Total(Within(blobs, Keys(q)))
  {
    if q == [] {
      assert Within(blobs, Keys(q)) == map[];
    } else {
      BytesAreTotal(q[1..], blobs);
      KeysCons(q);
      hide Total, Within, Keys, NoDuplicates;
      var k := q[0].key;
      WithinHas(blobs, Keys(q), k);
      WithinCons(blobs, Keys(q[1..]), k);
      if k in blobs {
        TotalRemove(Within(blobs, Keys(q)), k);
      }
    }
  }

  lemma {:induction false} KeysCons(q: Queue)
    requires NoDuplicates(q) && q != []
    ensures Keys(q) == {q[0].key} + Keys(q[1..]) && q[0].key !in Keys(q[1..])
  {
    assert q == [q[0]] + q[1..];
    assert forall i | 0 <= i < |q[1..]| :: q[1..][i] == q[i + 1];
  }

  lemma {:induction false} WithinCons(m: map<string, nat>, s: set<string>, k: string)
    requires k !in s
    ensures Within(m, {k} + s) - {k} == Within(m, s)
    ensures k !in m ==> Within(m, {k} + s) == Within(m, s)
  {
  }

  /** Giving up distinct keys and then dropping their blobs frees exactly the bytes counted. */
  lemma {:induction false} FreedBytes(q: Queue, blobs: map<string, nat>)
    requires NoDuplicates(q)
    ensures Total(blobs) == Bytes(q, blobs) + Total(blobs - Keys(q))
  {
    BytesAreTotal(q, blobs);
    TotalSplit(blobs, Keys(q));
  }
}
