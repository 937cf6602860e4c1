/** Merging the layers of a conversion into the layers a cache manifest already has. */
module CacheLayers {
  import opened Wrappers
  import opened Oci

  function Digests(layers: seq<Descriptor>): set<string> {
    set i | 0 <= i < |layers| :: layers[i].digest
  }

  function Take<T>(s: seq<T>, n: nat): seq<T> {
    if |s| <= n then s else s[..n]
  }

  /** The layers whose digests are not in `known`. */
  function Unknown(known: set<string>, layers: seq<Descriptor>): (r: seq<Descriptor>)
    ensures |r| <= |layers|
  {
    if layers == [] then []
    else (if layers[0].digest in known then [] else [layers[0]]) + Unknown(known, layers[1..])
  }

  /** All there is to merge, in the order the merge keeps. */
  function Joined(org: seq<Descriptor>, more: seq<Descriptor>): seq<Descriptor> {
    org + Unknown(Digests(org), more)
  }

  function Merged(org: seq<Descriptor>, more: seq<Descriptor>, size: nat): seq<Descriptor> {
    Take(Joined(org, more), size)
  }

  lemma {:induction false} UnknownMembers(known: set<string>, layers: seq<Descriptor>)
    ensures forall x :: x in Unknown(known, layers) <==> x in layers && x.digest !in known
  {
    if layers != [] {
      UnknownMembers(known, layers[1..]);
      assert layers == [layers[0]] + layers[1..];
    }
  }

  lemma {:induction false} UnknownSplit(known: set<string>, a: seq<Descriptor>, b: seq<Descriptor>)
    ensures Unknown(known, a + b) == Unknown(known, a) + Unknown(known, b)
  {
    if a == [] {
      assert a + b == b;
    } else {
      assert (a + b)[0] == a[0] && (a + b)[1..] == a[1..] + b;
      UnknownSplit(known, a[1..], b);
    }
  }

  lemma {:induction false} UnknownNone(known: set<string>, layers: seq<Descriptor>)
    requires Digests(layers) <= known
    ensures Unknown(known, layers) == []
  {
    if layers != [] {
      assert layers[0].digest in Digests(layers);
      assert forall i | 0 <= i < |layers[1..]| :: layers[1..][i] == layers[i + 1];
      UnknownNone(known, layers[1..]);
    }
  }

  lemma {:induction false} NothingKnown(known: set<string>)
    ensures Digests([]) == {} && Unknown(known, []) == []
  {
  }

  lemma {:induction false} DigestsAppend(layers: seq<Descriptor>, i: nat)
    requires i < |layers|
    ensures Digests(layers[..i + 1]) == Digests(layers[..i]) + {layers[i].digest}
  {
    forall d | d in Digests(layers[..i])
      ensures d in Digests(layers[..i + 1])
    {
      var k :| 0 <= k < i && layers[..i][k].digest == d;
      assert layers[..i + 1][k].digest == d;
    }
    assert layers[..i + 1][i] == layers[i];
  }

  lemma {:induction false} CutPrefix(part: seq<Descriptor>, all: seq<Descriptor>, size: nat)
    requires part <= all && (part == all || size <= |part|)
    ensures Take(part, size) == Take(all, size)
  {
    assert part == all[..|part|];
  }

  /** One more layer of those that are merged. */
  lemma {:induction false} UnknownStep(known: set<string>, layers: seq<Descriptor>, i: nat)
    requires i < |layers|
    ensures Unknown(known, layers[..i + 1]) ==
            Unknown(known, layers[..i]) + if layers[i].digest in known then [] else [layers[i]]
    ensures Unknown(known, layers[..i + 1]) <= Unknown(known, layers)
  {
    UnknownSplit(known, layers[..i], [layers[i]]);
    assert layers[..i] + [layers[i]] == layers[..i + 1];
    UnknownSplit(known, layers[..i + 1], layers[i + 1..]);
    assert layers[..i + 1] + layers[i + 1..] == layers;
  }

  /** The loop of appendLayers: new layers whose digests the manifest lacks go to the end until it
      is full; a negative capacity makes the final cut panic. */
  method AppendLayers(orgDescs: seq<Descriptor>, newDescs: seq<Descriptor>, size: int)
    returns (r: Option<seq<Descriptor>>)
    ensures r == if size < 0 then None else Some(Merged(orgDescs, newDescs, size))
  {
    hide Digests, Unknown;
    var moveFront: set<string> := {};
    assert orgDescs[..0] == newDescs[..0] == [];
    NothingKnown({});
    for i := 0 to |orgDescs|
      invariant moveFront == Digests(orgDescs[..i])
    {
      DigestsAppend(orgDescs, i);
      moveFront := moveFront + {orgDescs[i].digest};
    }
    assert orgDescs[..|orgDescs|] == orgDescs;
    NothingKnown(moveFront);
    var mergedLayers := orgDescs;
    var i := 0;
    while i < |newDescs|
      invariant 0 <= i <= |newDescs|
      invariant mergedLayers == orgDescs + Unknown(moveFront, newDescs[..i])
    {
      UnknownStep(moveFront, newDescs, i);
      if newDescs[i].digest !in moveFront {
        mergedLayers := mergedLayers + [newDescs[i]];
        if |mergedLayers| >= size {
          break;
        }
      }
      i := i + 1;
    }
    if i == |newDescs| {
      assert newDescs[..i] == newDescs;
    }
    if size >= 0 {
      CutPrefix(mergedLayers, Joined(orgDescs, newDescs), size);
    }
    if |mergedLayers| > size {
      if size < 0 {
        return None;
      }
      mergedLayers := mergedLayers[..size];
    }
    return Some(mergedLayers);
  }

  /** The list so far is kept from the front; the capacity is respected; and a layer is lost only
      to the capacity. */
  lemma {:induction false} MergeConserves(org: seq<Descriptor>, more: seq<Descriptor>, size: nat)
    ensures Take(org, size) <= Merged(org, more, size) && |Merged(org, more, size)| <= size
    ensures Digests(Merged(org, more, size)) <= Digests(org) + Digests(more)
    ensures Digests(Merged(org, more, size)) == Digests(org) + Digests(more) || |Merged(org, more, size)| == size
  {
    var m, j := Merged(org, more, size), Joined(org, more);
    UnknownMembers(Digests(org), more);
    forall i | 0 <= i < |j|
      ensures j[i].digest in Digests(org) + Digests(more)
    {
      assert j[i] in org || j[i] in more;
    }
    forall d | d in Digests(org) + Digests(more)
      ensures d in Digests(j)
    {
      if d in Digests(org) {
        var i :| 0 <= i < |org| && org[i].digest == d;
        assert j[i] == org[i];
      } else {
        var i :| 0 <= i < |more| && more[i].digest == d;
        assert more[i] in Unknown(Digests(org), more);
        assert more[i] in j;
      }
    }
    assert forall i | 0 <= i < |m| :: m[i] == j[i];
  }

  predicate Distinct(layers: seq<Descriptor>) {
    forall i, j | 0 <= i < j < |layers| :: layers[i].digest != layers[j].digest
  }

  lemma {:induction false} UnknownDistinct(known: set<string>, layers: seq<Descriptor>)
    requires Distinct(layers)
    ensures Distinct(Unknown(known, layers))
  {
    if layers != [] {
      assert forall i | 0 <= i < |layers[1..]| :: layers[1..][i] == layers[i + 1];
      UnknownDistinct(known, layers[1..]);
      UnknownMembers(known, layers[1..]);
      var rest := Unknown(known, layers[1..]);
      assert forall i | 0 <= i < |rest| :: rest[i] in layers[1..] && rest[i].digest != layers[0].digest;
    }
  }

  /** Merging brings no digest in twice, provided the conversion does not. */
  lemma {:induction false} MergeKeepsDistinct(org: seq<Descriptor>, more: seq<Descriptor>, size: nat)
    requires Distinct(org) && Distinct(more)
    ensures Distinct(Merged(org, more, size))
  {
    UnknownDistinct(Digests(org), more);
    UnknownMembers(Digests(org), more);
    var u := Unknown(Digests(org), more);
    assert forall i, j | 0 <= i < |org| && 0 <= j < |u| :: u[j] in u && org[i].digest in Digests(org);
  }

  /** Merging the same layers again changes nothing. */
  lemma {:induction false} MergeIdempotent(org: seq<Descriptor>, more: seq<Descriptor>, size: nat)
    ensures Merged(Merged(org, more, size), more, size) == Merged(org, more, size)
  {
    var m := Merged(org, more, size);
    MergeConserves(org, more, size);
    if |m| < size {
      UnknownNone(Digests(m), more);
    }
  }

  /** The list after any number of conversions, and what it would be without a capacity. */
  function MergedAll(org: seq<Descriptor>, runs: seq<seq<Descriptor>>, size: nat): seq<Descriptor> {
    if runs == [] then org else Merged(MergedAll(org, runs[..|runs| - 1], size), runs[|runs| - 1], size)
  }

  function JoinedAll(org: seq<Descriptor>, runs: seq<seq<Descriptor>>): seq<Descriptor> {
    if runs == [] then org else Joined(JoinedAll(org, runs[..|runs| - 1]), runs[|runs| - 1])
  }

  /** Cutting the list at every conversion comes to the same as merging without a capacity and
      cutting once at the end: what an earlier cut dropped is never let back in. */
  lemma {:induction false} CapOnce(org: seq<Descriptor>, runs: seq<seq<Descriptor>>, size: nat)
    requires runs != [] || |org| <= size
    ensures MergedAll(org, runs, size) == Take(JoinedAll(org, runs), size)
  {
    if |runs| > 1 || (|runs| == 1 && |org| <= size) {
      CapOnce(org, runs[..|runs| - 1], size);
    }
  }

  /** Every conversion extends the list of any earlier one, and a full list never changes. Only an
      uncut list to start from, such as a brand-new manifest has, is cut by the first conversion. */
  lemma {:induction false} RunsExtend(org: seq<Descriptor>, runs: seq<seq<Descriptor>>, k: nat, size: nat)
    requires k <= |runs| && (k >= 1 || |org| <= size)
    ensures MergedAll(org, runs[..k], size) <= MergedAll(org, runs, size)
    ensures |MergedAll(org, runs[..k], size)| == size ==> MergedAll(org, runs, size) == MergedAll(org, runs[..k], size)
    decreases |runs|
  {
    CapOnce(org, runs, size);
    if k < |runs| {
      var most := runs[..|runs| - 1];
      RunsExtend(org, most, k, size);
      assert most[..k] == runs[..k];
      CapOnce(org, most, size);
    } else {
      assert runs[..k] == runs;
    }
  }
}
