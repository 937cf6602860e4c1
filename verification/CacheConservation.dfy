/** What an update of the remote cache keeps and what it loses. */
module CacheConservation {
  import opened Oci
  import opened CacheLayers
  import opened CacheRecords
  import opened CacheUpdate

  function ManifestsOf(c: Cached): seq<Manifest> {
    match c
    case Single(m) => [m]
    case Index(ms) => seq(|ms|, i requires 0 <= i < |ms| => ms[i].1)
    case _ => []
  }

  /** All of these layers are in one list, or that list is full. */
  predicate Carries(layers: seq<Descriptor>, wanted: seq<Descriptor>, size: nat) {
    Digests(wanted) <= Digests(layers) || |layers| == size
  }

  /** Every cached manifest of an index keeps its position, its platform and, up to the capacity,
      its layers; it changes only if a converted platform matches it. */
  lemma {:induction false} ManifestsStay(converted: Converted, cached: Cached, c: Setting, order: seq<nat>,
                                         result: Cached, i: nat)
    requires c.size >= 0 && cached.Index? && i < |cached.manifests|
    requires Updates(converted, cached, c, order, result)
    ensures result.Index? && i < |result.manifests| && result.manifests[i].0 == cached.manifests[i].0
    ensures Take(cached.manifests[i].1.layers, c.size) <= result.manifests[i].1.layers
    ensures result.manifests[i] == cached.manifests[i] ||
            exists p :: p in converted && Matches(c, cached.manifests[i].0, converted[p].platform) &&
                        IsReplaced(cached.manifests[i].1, result.manifests[i].1, converted[p].layers, c)
  {
    hide Merged, Matches, IsReplaced, Replaced;
    var m, m' := cached.manifests[i], result.manifests[i];
    var open := StillOpen(cached.manifests, i, converted, c);
    assert Placed(m, m', open, converted, c);
    if Wanted(m, open, converted, c) {
      var p :| p in open && Matches(c, m.0, converted[p].platform) &&
               m' == (m.0, Replaced(m.1, converted[p].layers, c.size, c.version));
      ReplacedKeeps(m.1, converted[p].layers, c);
      ReplacedLayers(m.1, m'.1, converted[p].layers, c);
    }
  }

  lemma {:induction false} ReplacedLayers(m: Manifest, m': Manifest, layers: seq<Descriptor>, c: Setting)
    requires IsReplaced(m, m', layers, c)
    ensures Take(m.layers, c.size) <= m'.layers
  {
    hide Merged;
    MergeConserves(m.layers, layers, c.size);
  }

  lemma {:induction false} FirstPresent(manifests: seq<(Platform, Manifest)>, n: nat, p: Platform, c: Setting)
    returns (i: nat)
    requires n <= |manifests| && Present(manifests, n, p, c)
    ensures i < n && Matches(c, manifests[i].0, p) && !Present(manifests, i, p, c)
  {
    i := n - 1;
    if Present(manifests, n - 1, p, c) {
      i := FirstPresent(manifests, n - 1, p, c);
    }
  }

  /** The manifest that `update` wrote for a contribution: one for its platform, of the current
      version, which is a new one of just these layers, or a cached manifest for the same platform
      with these layers merged behind its own and all else kept. Without platform names there is only one manifest. */
  ghost predicate WrittenFor(t: Target, cached: Cached, c: Setting, result: Cached, k: int, before: seq<Descriptor>) {
    && 0 <= k < |ManifestsOf(result)| && c.size >= 0
    && VersionOf(ManifestsOf(result)[k]) == c.version
    && (result.Index? ==> Matches(c, result.manifests[k].0, t.platform))
    && (IsNew(ManifestsOf(result)[k], t.layers, c) ||
        (&& k < |ManifestsOf(cached)| && before == ManifestsOf(cached)[k].layers
         && IsReplaced(ManifestsOf(cached)[k], ManifestsOf(result)[k], t.layers, c)))
  }

  lemma {:induction false} PlacedIsWritten(converted: Converted, cached: Cached, c: Setting, order: seq<nat>,
                                           result: Cached, p: nat) returns (k: nat)
    requires c.size >= 0 && p in converted && Consistent(converted, c)
    requires cached.Index? && Present(cached.manifests, |cached.manifests|, converted[p].platform, c)
    requires Updates(converted, cached, c, order, result)
    ensures k < |ManifestsOf(cached)|
    ensures WrittenFor(converted[p], cached, c, result, k, ManifestsOf(cached)[k].layers)
  {
    hide Merged, Present;
    var known := cached.manifests;
    k := FirstPresent(known, |known|, converted[p].platform, c);
    assert p in StillOpen(known, k, converted, c);
    assert Placed(known[k], result.manifests[k], StillOpen(known, k, converted, c), converted, c);
  }

  lemma {:induction false} AppendedIsWritten(converted: Converted, cached: Cached, c: Setting, order: seq<nat>,
                                             result: Cached, p: nat) returns (k: nat)
    requires c.size >= 0 && p in converted && !(cached.Single? && |converted| == 1)
    requires cached.Index? ==> !Present(cached.manifests, |cached.manifests|, converted[p].platform, c)
    requires Updates(converted, cached, c, order, result)
    ensures WrittenFor(converted[p], cached, c, result, k, [])
  {
    hide Merged, Placed;
    var known := KnownManifests(cached);
    assert p in StillOpen(known, |known|, converted, c);
    assert p in order;
    var n :| 0 <= n < |order| && order[n] == p;
    k := if result.Single? then 0 else |known| + n;
  }

  lemma {:induction false} SingleIsWritten(converted: Converted, cached: Cached, c: Setting, order: seq<nat>,
                                           result: Cached, p: nat)
    requires c.size >= 0 && p in converted && cached.Single? && |converted| == 1
    requires Updates(converted, cached, c, order, result)
    ensures WrittenFor(converted[p], cached, c, result, 0, cached.manifest.layers)
  {
    hide Merged, Placed;
    var q :| q in converted && result == Single(Replaced(cached.manifest, converted[q].layers, c.size, c.version));
    OnlyKey(converted, p, q);
  }

  /** Every contribution is written, for its own platform. */
  lemma {:induction false} ConversionIsWritten(converted: Converted, cached: Cached, c: Setting, order: seq<nat>,
                                               result: Cached, p: nat) returns (k: nat, before: seq<Descriptor>)
    requires c.size >= 0 && p in converted && Consistent(converted, c)
    requires Updates(converted, cached, c, order, result)
    ensures WrittenFor(converted[p], cached, c, result, k, before)
  {
    hide WrittenFor, Updates, Consistent, Present;
    if cached.Single? && |converted| == 1 {
      k, before := 0, cached.manifest.layers;
      SingleIsWritten(converted, cached, c, order, result, p);
    } else if cached.Index? && Present(cached.manifests, |cached.manifests|, converted[p].platform, c) {
      k := PlacedIsWritten(converted, cached, c, order, result, p);
      before := ManifestsOf(cached)[k].layers;
    } else {
      before := [];
      k := AppendedIsWritten(converted, cached, c, order, result, p);
    }
  }

  /** A manifest for the platform of p has all of these layers, or is full. */
  ghost predicate Stored(result: Cached, t: Target, c: Setting) {
    c.size >= 0 &&
    exists k :: 0 <= k < |ManifestsOf(result)| && Carries(ManifestsOf(result)[k].layers, t.layers, c.size) &&
                VersionOf(ManifestsOf(result)[k]) == c.version &&
                (result.Index? ==> Matches(c, result.manifests[k].0, t.platform))
  }

  /** No converted layer is lost from its platform's manifest except to the capacity. */
  lemma {:induction false} ConversionIsStored(converted: Converted, cached: Cached, c: Setting, order: seq<nat>,
                                              result: Cached, p: nat)
    requires c.size >= 0 && p in converted && Consistent(converted, c)
    requires Updates(converted, cached, c, order, result)
    ensures Stored(result, converted[p], c)
  {
    hide Merged, Updates, Consistent, Matches;
    var k, before := ConversionIsWritten(converted, cached, c, order, result, p);
    MergeConserves(before, converted[p].layers, c.size);
    assert Carries(ManifestsOf(result)[k].layers, converted[p].layers, c.size);
  }

  lemma {:induction false} OnlyKey(converted: Converted, p: nat, q: nat)
    requires |converted| == 1 && p in converted && q in converted
    ensures p == q
  {
    assert |converted.Keys - {p}| == 0;
    assert q !in converted.Keys - {p};
  }

  /** A cached layer within the capacity that was not converted again survives an update, unless
      the cache was a single manifest and there is not exactly one contribution, as from an image of
      several platforms or from a merged index: then the old manifest is not read and nothing of it
      is written back. */
  lemma {:induction false} OldLayerSurvives(converted: Converted, cached: Cached, c: Setting, order: seq<nat>,
                                            result: Cached, i: nat, l: nat)
    requires Updates(converted, cached, c, order, result)
    requires i < |ManifestsOf(cached)| && l < |ManifestsOf(cached)[i].layers| && l < c.size
    requires forall p | p in converted :: ManifestsOf(cached)[i].layers[l] !in converted[p].layers
    ensures (exists k :: 0 <= k < |ManifestsOf(result)| &&
                         ManifestsOf(cached)[i].layers[l] in ManifestsOf(result)[k].layers)
            <==> !(cached.Single? && |converted| != 1)
  {
    hide Merged, Placed, Matches;
    var layer := ManifestsOf(cached)[i].layers[l];
    if cached.Index? {
      ManifestsStay(converted, cached, c, order, result, i);
      SurvivesAt(cached.manifests[i].1.layers, result.manifests[i].1.layers, l, c.size);
      assert layer in ManifestsOf(result)[i].layers;
    } else if |converted| == 1 {
      var q :| q in converted && result == Single(Replaced(cached.manifest, converted[q].layers, c.size, c.version));
      MergeConserves(cached.manifest.layers, converted[q].layers, c.size);
      SurvivesAt(cached.manifest.layers, result.manifest.layers, l, c.size);
      assert layer in ManifestsOf(result)[0].layers;
    } else {
      forall k | 0 <= k < |ManifestsOf(result)|
        ensures layer !in ManifestsOf(result)[k].layers
      {
        assert order[k] in order && order[k] in converted;
        assert ManifestsOf(result)[k] == result.manifests[0 + k].1;
      }
    }
  }

  lemma {:induction false} SurvivesAt(before: seq<Descriptor>, after: seq<Descriptor>, l: nat, size: nat)
    requires l < |before| && l < size && Take(before, size) <= after
    ensures before[l] in after
  {
    assert Take(before, size)[l] == before[l] == after[l];
  }
}
