/** Merging a conversion into the remote cache manifest. */
module CacheUpdate {
  import opened Wrappers
  import opened Oci
  import opened CacheLayers
  import opened CacheRecords

  /** The remote cache: missing, one manifest of an unnamed platform, or an index of manifests. */
  datatype Cached =
    | NoCache
    | Single(manifest: Manifest)
    | Index(manifests: seq<(Platform, Manifest)>)
    | OtherMedia

  datatype UpdateError = UnsupportedMedia | CapacityPanic

  /** A source image: the layers of one manifest, or of one manifest for each platform. */
  datatype Image = OneManifest(platform: Platform, layers: seq<Descriptor>)
                 | ManyManifests(manifests: seq<(Platform, seq<Descriptor>)>)

  /** What one converted manifest contributes. */
  datatype Target = Target(platform: Platform, layers: seq<Descriptor>)

  /** Contributions under the manifest they come from. The program's keys are pointers to platforms,
      so that two manifests of one platform, as a merged index has them, stay apart. */
  type Converted = map<nat, Target>

  /** Two platforms match if they are normalised to the same one. A capacity, a version and the
      descriptor of the empty image config are fixed for a cache. */
  datatype Setting = Setting(norm: Platform -> Platform, size: int, version: string, config: Descriptor)

  function Replaced(m: Manifest, layers: seq<Descriptor>, size: nat, version: string): Manifest {
    m.(layers := Merged(m.layers, layers, size), annotations := With(m.annotations, CACHE_VERSION, version))
  }

  function NewManifest(layers: seq<Descriptor>, c: Setting): Manifest {
    Manifest(OCI_MANIFEST, c.config, layers, Some(map[CACHE_VERSION := c.version]))
  }

  /** A manifest that layers were merged into: it keeps its media type, its config and its other
      annotations, and says the current version. */
  predicate IsReplaced(m: Manifest, m': Manifest, layers: seq<Descriptor>, c: Setting) {
    && m'.mediaType == m.mediaType && m'.config == m.config
    && c.size >= 0 && m'.layers == Merged(m.layers, layers, c.size)
    && Sets(m.annotations, CACHE_VERSION, c.version, m'.annotations)
  }

  /** A manifest made for layers alone, in the OCI format and with the empty image config. */
  predicate IsNew(m: Manifest, layers: seq<Descriptor>, c: Setting) {
    && m.mediaType == OCI_MANIFEST && m.config == c.config && m.layers == layers
    && m.annotations == Some(map[CACHE_VERSION := c.version])
  }

  lemma {:induction false} ReplacedKeeps(m: Manifest, layers: seq<Descriptor>, c: Setting)
    requires c.size >= 0
    ensures IsReplaced(m, Replaced(m, layers, c.size, c.version), layers, c)
    ensures VersionOf(Replaced(m, layers, c.size, c.version)) == c.version
  {
    hide Merged;
    WithSets(m.annotations, CACHE_VERSION, c.version);
  }

  predicate Matches(c: Setting, p: Platform, q: Platform) {
    c.norm(p) == c.norm(q)
  }

  /** Some manifest among the first n is for a platform that matches p. */
  predicate Present(manifests: seq<(Platform, Manifest)>, n: nat, p: Platform, c: Setting)
    requires n <= |manifests|
  {
    exists j | 0 <= j < n :: Matches(c, manifests[j].0, p)
  }

  /** One of the contributions in `open` is for the platform of this manifest. */
  predicate Wanted(m: (Platform, Manifest), open: set<nat>, converted: Converted, c: Setting)
    requires open <= converted.Keys
  {
    exists p :: p in open && Matches(c, m.0, converted[p].platform)
  }

  /** What becomes of one cached manifest that the contributions in `open` are still to be merged
      into: the layers of one that matches it are merged, if there is one. */
  ghost predicate Placed(m: (Platform, Manifest), m': (Platform, Manifest), open: set<nat>,
                         converted: Converted, c: Setting)
    requires open <= converted.Keys
  {
    if Wanted(m, open, converted, c) then
      c.size >= 0 &&
      exists p :: p in open && Matches(c, m.0, converted[p].platform) &&
                  m' == (m.0, Replaced(m.1, converted[p].layers, c.size, c.version))
    else m' == m
  }

  /** The contributions that none of the first n manifests matches. */
  ghost function StillOpen(manifests: seq<(Platform, Manifest)>, n: nat, converted: Converted, c: Setting): set<nat>
    requires n <= |manifests|
  {
    set p | p in converted && !Present(manifests, n, converted[p].platform, c)
  }

  predicate FirstMatch(manifests: seq<(Platform, seq<Descriptor>)>, q: Platform, i: int, c: Setting) {
    && 0 <= i < |manifests| && Matches(c, manifests[i].0, q)
    && forall j | 0 <= j < i :: !Matches(c, manifests[j].0, q)
  }

  predicate NoMatch(manifests: seq<(Platform, seq<Descriptor>)>, q: Platform, c: Setting) {
    forall j | 0 <= j < |manifests| :: !Matches(c, manifests[j].0, q)
  }

  /** The layers a converted manifest contributes are the targets recorded for the first original
      manifest that matches it, and none if no original manifest does. */
  ghost predicate IsTarget(records: Records, manifests: seq<(Platform, seq<Descriptor>)>, t: Target, c: Setting) {
    && (forall i | FirstMatch(manifests, t.platform, i, c) :: t.layers == TargetLayers(records, manifests[i].1))
    && (NoMatch(manifests, t.platform, c) ==> t.layers == [])
  }

  ghost predicate TargetsOf(records: Records, org: Image, converted: seq<Platform>, byPlatform: Converted, c: Setting) {
    match org
    case OneManifest(platform, layers) => byPlatform == map[0 := Target(platform, TargetLayers(records, layers))]
    case ManyManifests(manifests) =>
      && (forall k :: k in byPlatform <==> 0 <= k < |converted|)
      && (forall k | k in byPlatform ::
            byPlatform[k].platform == converted[k] && IsTarget(records, manifests, byPlatform[k], c))
  }

  method TargetLayersByPlatform(cache: RemoteCache, org: Image, converted: seq<Platform>, c: Setting)
    returns (byPlatform: Converted)
    ensures TargetsOf(cache.records, org, converted, byPlatform, c)
  {
    hide IsTarget;
    match org
    case OneManifest(platform, layers) =>
      var targets := cache.GetTargetLayers(layers);
      return map[0 := Target(platform, targets)];
    case ManyManifests(manifests) =>
      byPlatform := map[];
      for n := 0 to |converted|
        invariant forall k :: k in byPlatform <==> 0 <= k < n
        invariant forall k | k in byPlatform ::
                    byPlatform[k].platform == converted[k] && IsTarget(cache.records, manifests, byPlatform[k], c)
      {
        var layers := MatchingLayers(cache, manifests, converted[n], c);
        byPlatform := byPlatform[n := Target(converted[n], layers)];
      }
  }

  /** The inner search of the loop above. */
  method MatchingLayers(cache: RemoteCache, manifests: seq<(Platform, seq<Descriptor>)>, q: Platform, c: Setting)
    returns (layers: seq<Descriptor>)
    ensures IsTarget(cache.records, manifests, Target(q, layers), c)
  {
    for i := 0 to |manifests|
      invariant forall j | 0 <= j < i :: !Matches(c, manifests[j].0, q)
    {
      if c.norm(manifests[i].0) == c.norm(q) {
        layers := cache.GetTargetLayers(manifests[i].1);
        return;
      }
    }
    return [];
  }

  /** Contributions for matching platforms are the same layers. */
  ghost predicate Consistent(converted: Converted, c: Setting) {
    forall p, q | p in converted && q in converted && Matches(c, converted[p].platform, converted[q].platform) ::
      converted[p].layers == converted[q].layers
  }

  /** So it is for every conversion: the search depends on the normalised platform only. */
  lemma {:induction false} TargetsAreConsistent(records: Records, org: Image, converted: seq<Platform>,
                                                byPlatform: Converted, c: Setting)
    requires TargetsOf(records, org, converted, byPlatform, c)
    ensures Consistent(byPlatform, c)
  {
    if org.ManyManifests? {
      forall p, q | p in byPlatform && q in byPlatform &&
                    Matches(c, byPlatform[p].platform, byPlatform[q].platform)
        ensures byPlatform[p].layers == byPlatform[q].layers
      {
        SameTarget(records, org.manifests, byPlatform[p], byPlatform[q], c);
      }
    }
  }

  lemma {:induction false} SameTarget(records: Records, manifests: seq<(Platform, seq<Descriptor>)>, t: Target,
                                      u: Target, c: Setting)
    requires IsTarget(records, manifests, t, c) && IsTarget(records, manifests, u, c)
    requires Matches(c, t.platform, u.platform)
    ensures t.layers == u.layers
  {
    assert forall j | 0 <= j < |manifests| ::
        Matches(c, manifests[j].0, t.platform) <==> Matches(c, manifests[j].0, u.platform);
    if !NoMatch(manifests, t.platform, c) {
      var i := FirstAmong(manifests, t.platform, |manifests|, c);
      assert FirstMatch(manifests, u.platform, i, c);
    }
  }

  lemma {:induction false} FirstAmong(manifests: seq<(Platform, seq<Descriptor>)>, q: Platform, n: nat, c: Setting)
    returns (i: nat)
    requires n <= |manifests| && exists j :: 0 <= j < n && Matches(c, manifests[j].0, q)
    ensures FirstMatch(manifests, q, i, c)
  {
    i := n - 1;
    if j :| 0 <= j < n - 1 && Matches(c, manifests[j].0, q) {
      i := FirstAmong(manifests, q, n - 1, c);
    }
  }

  /** Merges into one cached manifest the contributions that match it, in any order, and says which
      remain. The manifest is read anew for each of them. */
  method Place(m: (Platform, Manifest), open: set<nat>, converted: Converted, c: Setting)
    returns (r: Option<((Platform, Manifest), set<nat>)>)
    requires open <= converted.Keys
    ensures r.None? <==> c.size < 0 && Wanted(m, open, converted, c)
    ensures r.Some? ==> Placed(m, r.value.0, open, converted, c)
    ensures r.Some? ==> r.value.1 == set p | p in open && !Matches(c, m.0, converted[p].platform)
  {
    var placed, remaining, todo := m, open, open;
    while todo != {}
      invariant todo <= remaining <= open
      invariant remaining == todo + set p | p in open && !Matches(c, m.0, converted[p].platform)
      invariant Placed(m, placed, open - todo, converted, c)
    {
      ghost var before := open - todo;
      var p :| p in todo;
      todo := todo - {p};
      if c.norm(m.0) == c.norm(converted[p].platform) {
        var merged := AppendLayers(m.1.layers, converted[p].layers, c.size);
        if merged.None? {
          return None;
        }
        var annotations := if m.1.annotations.None? then map[] else m.1.annotations.value;
        annotations := annotations[CACHE_VERSION := c.version];
        placed := (m.0, m.1.(layers := merged.value, annotations := Some(annotations)));
        remaining := remaining - {p};
        assert p in open - todo;
      }
      assert open - todo == before + {p};
    }
    assert open - todo == open;
    return Some((placed, remaining));
  }

  ghost predicate AllPlaced(known: seq<(Platform, Manifest)>, manifests: seq<(Platform, Manifest)>, n: nat,
                            converted: Converted, c: Setting)
    requires n <= |known| && n <= |manifests|
  {
    forall i | 0 <= i < n :: Placed(known[i], manifests[i], StillOpen(known, i, converted, c), converted, c)
  }

  /** Some cached manifest is one that a contribution is for. */
  ghost predicate SomeWanted(known: seq<(Platform, Manifest)>, converted: Converted, c: Setting) {
    exists p :: p in converted && Present(known, |known|, converted[p].platform, c)
  }

  /** The loop over a cached index: each manifest in turn takes what is still open and matches it. */
  method MergeIndex(known: seq<(Platform, Manifest)>, converted: Converted, c: Setting)
    returns (r: Option<(seq<(Platform, Manifest)>, set<nat>)>)
    ensures r.None? <==> c.size < 0 && SomeWanted(known, converted, c)
    ensures r.Some? ==>
              && |r.value.0| == |known| && r.value.1 == StillOpen(known, |known|, converted, c)
              && AllPlaced(known, r.value.0, |known|, converted, c)
  {
    hide Placed, Matches;
    var manifests, remaining := known, converted.Keys;
    for idx := 0 to |known|
      invariant |manifests| == |known|
      invariant remaining == StillOpen(known, idx, converted, c)
      invariant c.size < 0 ==> remaining == converted.Keys
      invariant AllPlaced(known, manifests, idx, converted, c)
      invariant forall i | idx <= i < |known| :: manifests[i] == known[i]
    {
      var placed := Place(manifests[idx], remaining, converted, c);
      if placed.None? {
        WantedIsPresent(known, idx, remaining, converted, c);
        return None;
      }
      manifests, remaining := manifests[idx := placed.value.0], placed.value.1;
      assert remaining == StillOpen(known, idx + 1, converted, c);
    }
    return Some((manifests, remaining));
  }

  lemma {:induction false} WantedIsPresent(known: seq<(Platform, Manifest)>, i: nat, open: set<nat>,
                                           converted: Converted, c: Setting)
    requires i < |known| && open <= converted.Keys && Wanted(known[i], open, converted, c)
    ensures SomeWanted(known, converted, c)
  {
    var p :| p in open && Matches(c, known[i].0, converted[p].platform);
    assert Present(known, |known|, converted[p].platform, c);
  }

  predicate NoRepetition(order: seq<nat>) {
    forall i, j | 0 <= i < j < |order| :: order[i] != order[j]
  }

  /** The manifests from a position on are new ones for these contributions, with all their layers. */
  ghost predicate Appended(manifests: seq<(Platform, Manifest)>, at: nat, converted: Converted, c: Setting,
                           order: seq<nat>)
    requires |manifests| == at + |order|
  {
    forall k | 0 <= k < |order| ::
      && order[k] in converted
      && manifests[at + k] == (converted[order[k]].platform, NewManifest(converted[order[k]].layers, c))
  }

  /** One new manifest for each contribution that is left, in any order. */
  method NewManifests(open: set<nat>, converted: Converted, c: Setting)
    returns (manifests: seq<(Platform, Manifest)>, ghost order: seq<nat>)
    requires open <= converted.Keys
    ensures |manifests| == |order| && NoRepetition(order)
    ensures forall p :: p in order <==> p in open
    ensures Appended(manifests, 0, converted, c, order)
  {
    manifests, order := [], [];
    var todo := open;
    while todo != {}
      invariant todo <= open
      invariant |manifests| == |order| && NoRepetition(order)
      invariant forall p :: p in order <==> p in open - todo
      invariant Appended(manifests, 0, converted, c, order)
    {
      var p :| p in todo;
      assert p !in order;
      var manifest := Manifest(OCI_MANIFEST, c.config, converted[p].layers, Some(map[CACHE_VERSION := c.version]));
      manifests := manifests + [(converted[p].platform, manifest)];
      order := order + [p];
      todo := todo - {p};
    }
  }

  function KnownManifests(cached: Cached): seq<(Platform, Manifest)> {
    if cached.Index? then cached.manifests else []
  }

  /** What `update` makes of the cache, where `order` is the order in which the contributions that
      match no cached manifest happen to be visited. */
  ghost predicate Updates(converted: Converted, cached: Cached, c: Setting, order: seq<nat>, result: Cached) {
    var known := KnownManifests(cached);
    if cached.Single? && |converted| == 1 then
      c.size >= 0 &&
      exists p :: p in converted &&
                  result == Single(Replaced(cached.manifest, converted[p].layers, c.size, c.version))
    else
      && NoRepetition(order)
      && (forall p :: p in order <==> p in StillOpen(known, |known|, converted, c))
      && if cached.NoCache? && |order| == 1 then
           order[0] in converted && result == Single(NewManifest(converted[order[0]].layers, c))
         else
           && result.Index? && |result.manifests| == |known| + |order|
           && AllPlaced(known, result.manifests, |known|, converted, c)
           && Appended(result.manifests, |known|, converted, c, order)
  }

  lemma {:induction false} IndexResult(known: seq<(Platform, Manifest)>, converted: Converted, c: Setting,
                                       manifests: seq<(Platform, Manifest)>, news: seq<(Platform, Manifest)>,
                                       order: seq<nat>)
    requires |manifests| == |known| && AllPlaced(known, manifests, |known|, converted, c)
    requires |news| == |order| && Appended(news, 0, converted, c, order)
    ensures AllPlaced(known, manifests + news, |known|, converted, c)
    ensures Appended(manifests + news, |manifests|, converted, c, order)
  {
    hide Placed, Merged, Present;
    var result := manifests + news;
    assert forall i | 0 <= i < |manifests| :: result[i] == manifests[i];
    assert forall k | 0 <= k < |order| :: order[k] in converted && result[|manifests| + k] == news[0 + k];
  }

  /** A negative capacity panics just where layers are merged into a manifest that is there. */
  ghost predicate MergesAny(converted: Converted, cached: Cached, c: Setting) {
    (cached.Single? && |converted| == 1) || (cached.Index? && SomeWanted(cached.manifests, converted, c))
  }

  method Update(converted: Converted, cached: Cached, c: Setting)
    returns (r: Result<Cached, UpdateError>, ghost order: seq<nat>)
    ensures r == Err(UnsupportedMedia) <==> cached.OtherMedia?
    ensures r == Err(CapacityPanic) <==> c.size < 0 && MergesAny(converted, cached, c)
    ensures r.Ok? ==> Updates(converted, cached, c, order, r.value)
  {
    hide Merged, AllPlaced, Appended, SomeWanted;
    order := [];
    var manifests: seq<(Platform, Manifest)> := [];
    var remaining := converted.Keys;
    match cached {
      case NoCache =>
      case OtherMedia =>
        return Err(UnsupportedMedia), [];
      case Single(manifest) =>
        if |converted| == 1 {
          assert |converted.Keys| == 1;
          var p :| p in converted;
          var merged := AppendLayers(manifest.layers, converted[p].layers, c.size);
          if merged.None? {
            return Err(CapacityPanic), [];
          }
          var annotations := if manifest.annotations.None? then map[] else manifest.annotations.value;
          annotations := annotations[CACHE_VERSION := c.version];
          return Ok(Single(manifest.(layers := merged.value, annotations := Some(annotations)))), [];
        }
      case Index(known) =>
        var merged := MergeIndex(known, converted, c);
        if merged.None? {
          return Err(CapacityPanic), [];
        }
        manifests, remaining := merged.value.0, merged.value.1;
    }
    ghost var known := KnownManifests(cached);
    if known == [] {
      NonePlaced(converted, c);
    }
    var newManifests;
    newManifests, order := NewManifests(remaining, converted, c);
    if cached.NoCache? && |newManifests| == 1 {
      OneAppended(newManifests, converted, c, order);
      return Ok(Single(newManifests[0].1)), order;
    }
    IndexResult(known, converted, c, manifests, newManifests, order);
    return Ok(Index(manifests + newManifests)), order;
  }

  lemma {:induction false} NonePlaced(converted: Converted, c: Setting)
    ensures AllPlaced([], [], 0, converted, c)
    ensures StillOpen([], 0, converted, c) == converted.Keys
  {
  }

  lemma {:induction false} OneAppended(news: seq<(Platform, Manifest)>, converted: Converted, c: Setting,
                                       order: seq<nat>)
    requires |news| == |order| == 1 && Appended(news, 0, converted, c, order)
    ensures order[0] in converted && news[0].1 == NewManifest(converted[order[0]].layers, c)
  {
    assert news[0 + 0] == news[0];
  }
}
