/** The records of a remote cache: which target layer a source layer was converted to. */
module CacheRecords {
  import opened Wrappers
  import opened Digest
  import opened Int64
  import opened Oci
  import opened CacheLayers

  const TARGET_DIGEST := "containerd.io/snapshot/nydus-target-digest"
  const UNCOMPRESSED := "containerd.io/uncompressed"
  const CACHE_VERSION := "containerd.io/snapshot/nydus-cache-version"

  /** `shared` says that source and target have come to hold one and the same annotation map. */
  datatype Item = Item(source: Descriptor, target: Descriptor, shared: bool)

  type Records = map<string, Item>

  /** The version a cache manifest is annotated with; missing reads as empty. */
  function VersionOf(m: Manifest): string {
    if CACHE_VERSION in Entries(m.annotations) then Entries(m.annotations)[CACHE_VERSION] else ""
  }

  datatype ImportError = SourceNotFound(digest: string)

  function AnnotationsOf(d: Descriptor): Annotations {
    Entries(d.annotations)
  }

  /** The digest of the source that a stored layer was converted from; missing reads as empty. */
  function SourceOf(layer: Descriptor): string {
    if SOURCE_DIGEST in AnnotationsOf(layer) then AnnotationsOf(layer)[SOURCE_DIGEST] else ""
  }

  /** A record whose two descriptors point at each other. */
  predicate Linked(item: Item) {
    && item.source.annotations.Some? && item.target.annotations.Some?
    && TARGET_DIGEST in item.source.annotations.value
    && item.source.annotations.value[TARGET_DIGEST] == item.target.digest
    && SourceOf(item.target) == item.source.digest
    && SOURCE_DIGEST in item.target.annotations.value
    && (item.shared ==> item.source.annotations == item.target.annotations)
  }

  predicate AllLinked(records: Records) {
    forall d | d in records :: records[d].source.digest == d && Linked(records[d])
  }

  /** What holds of records even when links are cut: each is under the digest of its source, and a
      shared map reads the same on both sides. */
  predicate Coherent(records: Records) {
    forall d | d in records ::
      && records[d].source.digest == d
      && records[d].source.annotations.Some? && records[d].target.annotations.Some?
      && (records[d].shared ==> records[d].source.annotations == records[d].target.annotations)
  }

  function Annotated(d: Descriptor, key: string, value: string): Descriptor {
    d.(annotations := With(d.annotations, key, value))
  }

  lemma {:induction false} AnnotatedSays(d: Descriptor, key: string, value: string)
    ensures var d' := Annotated(d, key, value);
            d' == d.(annotations := d'.annotations) && Sets(d.annotations, key, value, d'.annotations)
  {
    hide Sets;
    WithSets(d.annotations, key, value);
  }

  function NewItem(source: Descriptor, target: Descriptor): Item {
    Item(Annotated(source, TARGET_DIGEST, target.digest), Annotated(target, SOURCE_DIGEST, source.digest), false)
  }

  /** A record of a source and its target: each also points at the other, and says all else it said. */
  predicate Pairs(item: Item, source: Descriptor, target: Descriptor) {
    && item.source == source.(annotations := item.source.annotations)
    && item.target == target.(annotations := item.target.annotations)
    && Sets(source.annotations, TARGET_DIGEST, target.digest, item.source.annotations)
    && Sets(target.annotations, SOURCE_DIGEST, source.digest, item.target.annotations)
    && !item.shared
  }

  lemma {:induction false} NewItemRecords(source: Descriptor, target: Descriptor)
    ensures Pairs(NewItem(source, target), source, target)
  {
    hide Annotated, Sets;
    AnnotatedSays(source, TARGET_DIGEST, target.digest);
    AnnotatedSays(target, SOURCE_DIGEST, source.digest);
  }

  predicate HasTarget(records: Records, d: string) {
    exists s | s in records :: records[s].target.digest == d
  }

  /** The target layers recorded for a source manifest, in its order. */
  function TargetLayers(records: Records, sources: seq<Descriptor>): seq<Descriptor> {
    if sources == [] then []
    else
      (if sources[0].digest in records then [records[sources[0].digest].target] else [])
      + TargetLayers(records, sources[1..])
  }

  function ImportedItem(layer: Descriptor, source: Descriptor): Item {
    NewItem(source, Annotated(layer, UNCOMPRESSED, layer.digest))
  }

  /** The registry has the source of every layer that names one. */
  predicate Available(layers: seq<Descriptor>, registry: map<string, Descriptor>) {
    forall i | 0 <= i < |layers| && ValidDigest(SourceOf(layers[i])) :: SourceOf(layers[i]) in registry
  }

  /** The records after importing the layers of a manifest from a registry that has their sources. */
  function Imported(records: Records, layers: seq<Descriptor>, registry: map<string, Descriptor>): Records
    requires Available(layers, registry)
  {
    if layers == [] then records
    else
      var rest := Imported(records, layers[..|layers| - 1], registry);
      var layer := layers[|layers| - 1];
      if ValidDigest(SourceOf(layer)) then
        var item := ImportedItem(layer, registry[SourceOf(layer)]);
        rest[item.source.digest := item]
      else rest
  }

  lemma {:induction false} NothingImported(records: Records, registry: map<string, Descriptor>)
    ensures Available([], registry) && Imported(records, [], registry) == records
  {
  }

  /** What one more layer adds to an import, if the registry has its source. */
  lemma {:induction false} ImportStep(records: Records, layers: seq<Descriptor>, registry: map<string, Descriptor>,
                                      i: nat)
    requires i < |layers| && Available(layers[..i], registry)
    ensures Available(layers[..i + 1], registry) <==>
            (ValidDigest(SourceOf(layers[i])) ==> SourceOf(layers[i]) in registry)
    ensures Available(layers, registry) ==> Available(layers[..i + 1], registry)
    ensures Available(layers[..i + 1], registry) ==>
              var before := Imported(records, layers[..i], registry);
              Imported(records, layers[..i + 1], registry) ==
              if ValidDigest(SourceOf(layers[i])) then
                var source := registry[SourceOf(layers[i])];
                before[source.digest := ImportedItem(layers[i], source)]
              else before
  {
    hide ValidDigest, SourceOf;
    var front := layers[..i + 1];
    assert front[..i] == layers[..i] && front[i] == layers[i];
    assert forall k | 0 <= k < i :: front[k] == layers[..i][k];
  }

  /** A record after labels were merged into its source annotations, which its target gets too if
      the labels go to both. */
  function Relabelled(item: Item, both: bool, labels: Annotations): Item {
    var merged := Some(AnnotationsOf(item.source) + labels);
    Item(item.source.(annotations := merged),
         if both then item.target.(annotations := merged) else item.target,
         both)
  }

  /** What relabelling says: the labels, and of the source's annotations all that they do not speak
      of; in the target as well if they go to both. Nothing else of the record changes. */
  predicate Relabels(item: Item, item': Item, both: bool, labels: Annotations) {
    && item'.source == item.source.(annotations := item'.source.annotations)
    && item'.target == item.target.(annotations := if both then item'.source.annotations
                                                   else item.target.annotations)
    && item'.shared == both
    && item'.source.annotations.Some?
    && AnnotationsOf(item'.source).Keys == AnnotationsOf(item.source).Keys + labels.Keys
    && (forall k | k in labels :: AnnotationsOf(item'.source)[k] == labels[k])
    && (forall k | k in AnnotationsOf(item.source) && k !in labels ::
          AnnotationsOf(item'.source)[k] == AnnotationsOf(item.source)[k])
  }

  lemma {:induction false} RelabelledSays(item: Item, both: bool, labels: Annotations)
    ensures Relabels(item, Relabelled(item, both, labels), both, labels)
  {
  }

  /** What new labels may say without cutting a record's links, where they go to the source only or
      to both descriptors. */
  predicate Harmless(item: Item, both: bool, labels: Annotations) {
    var merged := AnnotationsOf(item.source) + labels;
    && (TARGET_DIGEST in labels ==> labels[TARGET_DIGEST] == item.target.digest)
    && (both ==> SOURCE_DIGEST in merged && merged[SOURCE_DIGEST] == item.source.digest)
  }

  /** Relabelling one record keeps a link it had just when the labels are harmless. Where the source
      annotations do not name the source itself, an update by target never is. */
  lemma {:induction false} RelabelledLinks(item: Item, both: bool, labels: Annotations)
    requires Linked(item) && (item.shared ==> both)
    ensures Linked(Relabelled(item, both, labels)) <==> Harmless(item, both, labels)
    ensures both && SOURCE_DIGEST !in AnnotationsOf(item.source) && SOURCE_DIGEST !in labels ==>
              !Harmless(item, both, labels)
  {
  }

  lemma {:induction false} RelabelledCoherent(records: Records, k: string, both: bool, labels: Annotations)
    requires Coherent(records) && k in records && (records[k].shared ==> both)
    ensures Coherent(records[k := Relabelled(records[k], both, labels)])
  {
  }

  /** Some record is for this digest, as its source or as its target. */
  predicate IsRecorded(records: Records, d: string) {
    d in records || HasTarget(records, d)
  }

  /** The places of the layers of several manifests: the manifest, and the position in it. */
  function Places(manifests: seq<seq<Descriptor>>): set<(nat, nat)> {
    set m: nat, i: nat | m < |manifests| && i < |manifests[m]| :: (m, i)
  }

  /** The places whose layer has a record. */
  ghost function Hits(records: Records, manifests: seq<seq<Descriptor>>): set<(nat, nat)> {
    set p | p in Places(manifests) && IsRecorded(records, manifests[p.0][p.1].digest)
  }

  /** The digests of all the layers. */
  function AllDigests(manifests: seq<seq<Descriptor>>): set<string> {
    set p | p in Places(manifests) :: manifests[p.0][p.1].digest
  }

  lemma {:induction false} SubsetSize<T>(a: set<T>, b: set<T>)
    requires a <= b
    ensures |a| <= |b|
  {
    assert b == a + (b - a);
  }

  lemma {:induction false} ImageSize(places: set<(nat, nat)>, manifests: seq<seq<Descriptor>>, s: set<string>)
    requires places <= Places(manifests)
    requires forall d | d in s :: exists p :: p in places && manifests[p.0][p.1].digest == d
    ensures |s| <= |places|
  {
    if p :| p in places {
      var d := manifests[p.0][p.1].digest;
      ImageSize(places - {p}, manifests, s - {d});
      SubsetSize(s, (s - {d}) + {d});
    } else {
      assert s == {};
    }
  }

  /** Recorded digests, each of which some layer has, are no more than the hits, and the hits no
      more than the layers. */
  lemma {:induction false} HitsCover(records: Records, manifests: seq<seq<Descriptor>>, s: set<string>)
    requires s <= records.Keys && s <= AllDigests(manifests)
    ensures |s| <= |Hits(records, manifests)| <= |Places(manifests)|
  {
    hide HasTarget;
    SubsetSize(Hits(records, manifests), Places(manifests));
    forall d | d in s
      ensures exists p :: p in Hits(records, manifests) && manifests[p.0][p.1].digest == d
    {
      var p :| p in Places(manifests) && manifests[p.0][p.1].digest == d;
      assert p in Hits(records, manifests);
    }
    ImageSize(Hits(records, manifests), manifests, s);
  }

  lemma {:induction false} HitsDoNotWrap(records: Records, manifests: seq<seq<Descriptor>>, s: set<string>)
    requires s <= records.Keys && s <= AllDigests(manifests) && |Places(manifests)| < TWO_63
    ensures var n := |Hits(records, manifests)| - |s|;
            0 <= n <= |Places(manifests)| && n % (2 * TWO_63) == n
  {
    hide AllDigests, Hits, Places;
    HitsCover(records, manifests, s);
  }

  lemma {:induction false} HitsArePlaces(records: Records, manifests: seq<seq<Descriptor>>)
    ensures Places(manifests) * Hits(records, manifests) == Hits(records, manifests)
  {
  }

  /** The places before position i of manifest m. */
  ghost function PlacesBefore(manifests: seq<seq<Descriptor>>, m: nat, i: nat): set<(nat, nat)> {
    set p | p in Places(manifests) && (p.0 < m || (p.0 == m && p.1 < i))
  }

  lemma {:induction false} PlacesBeforeEnds(manifests: seq<seq<Descriptor>>)
    ensures PlacesBefore(manifests, 0, 0) == {}
    ensures PlacesBefore(manifests, |manifests|, 0) == Places(manifests)
    ensures forall m: nat | m < |manifests| ::
              PlacesBefore(manifests, m, |manifests[m]|) == PlacesBefore(manifests, m + 1, 0)
  {
  }

  lemma {:induction false} OneMore<T>(seen: set<T>, hits: set<T>, x: T)
    requires x !in seen
    ensures |seen + {x}| == |seen| + 1
    ensures |(seen + {x}) * hits| == |seen * hits| + if x in hits then 1 else 0
  {
    if x in hits {
      assert (seen + {x}) * hits == seen * hits + {x};
    } else {
      assert (seen + {x}) * hits == seen * hits;
    }
  }

  lemma {:induction false} OnePlaceMore(records: Records, manifests: seq<seq<Descriptor>>, m: nat, i: nat)
    requires m < |manifests| && i < |manifests[m]|
    ensures (m, i) !in PlacesBefore(manifests, m, i)
    ensures PlacesBefore(manifests, m, i + 1) == PlacesBefore(manifests, m, i) + {(m, i)}
    ensures (m, i) in Hits(records, manifests) <==> IsRecorded(records, manifests[m][i].digest)
  {
    hide IsRecorded;
  }

  lemma {:induction false} NextPlace(records: Records, manifests: seq<seq<Descriptor>>, m: nat, i: nat)
    requires m < |manifests| && i < |manifests[m]|
    ensures var seen, next, hits := PlacesBefore(manifests, m, i), PlacesBefore(manifests, m, i + 1),
                                    Hits(records, manifests);
            && |next| == |seen| + 1
            && |next * hits| == |seen * hits| + if IsRecorded(records, manifests[m][i].digest) then 1 else 0
  {
    hide IsRecorded, Hits, Places, PlacesBefore;
    OnePlaceMore(records, manifests, m, i);
    OneMore(PlacesBefore(manifests, m, i), Hits(records, manifests), (m, i));
  }

  lemma {:induction false} TargetLayersSplit(records: Records, a: seq<Descriptor>, b: seq<Descriptor>)
    ensures TargetLayers(records, a + b) == TargetLayers(records, a) + TargetLayers(records, b)
  {
    if a == [] {
      assert a + b == b;
    } else {
      assert (a + b)[0] == a[0] && (a + b)[1..] == a[1..] + b;
      TargetLayersSplit(records, a[1..], b);
    }
  }

  /** The positions below i whose layer is recorded as a source. */
  function RecordedBelow(records: Records, sources: seq<Descriptor>, i: nat): set<nat> {
    set j: nat | j < i && j < |sources| && sources[j].digest in records
  }

  lemma {:induction false} RecordedBelowNext(records: Records, sources: seq<Descriptor>, i: nat)
    requires i < |sources|
    ensures |RecordedBelow(records, sources, i + 1)| ==
            |RecordedBelow(records, sources, i)| + if sources[i].digest in records then 1 else 0
  {
    var below, next := RecordedBelow(records, sources, i), RecordedBelow(records, sources, i + 1);
    if sources[i].digest in records {
      assert next == below + {i};
    } else {
      assert next == below;
    }
  }

  lemma {:induction false} TargetLayersNext(records: Records, sources: seq<Descriptor>, n: nat)
    requires n < |sources|
    ensures TargetLayers(records, sources[..n + 1]) == TargetLayers(records, sources[..n]) +
            if sources[n].digest in records then [records[sources[n].digest].target] else []
  {
    assert sources[..n + 1] == sources[..n] + [sources[n]];
    TargetLayersSplit(records, sources[..n], [sources[n]]);
    assert TargetLayers(records, []) == [];
  }

  lemma {:induction false} TargetLayersCount(records: Records, sources: seq<Descriptor>, n: nat)
    requires n <= |sources|
    ensures |TargetLayers(records, sources[..n])| == |RecordedBelow(records, sources, n)|
  {
    if n == 0 {
      assert RecordedBelow(records, sources, 0) == {};
    } else {
      TargetLayersCount(records, sources, n - 1);
      RecordedBelowNext(records, sources, n - 1);
      TargetLayersNext(records, sources, n - 1);
    }
  }

  /** The targets of the recorded sources, each once for each time the source occurs, in the order
      of the sources, and nothing else. */
  lemma {:induction false} TargetLayersInOrder(records: Records, sources: seq<Descriptor>, n: nat, i: nat)
    requires i < n <= |sources|
    ensures |TargetLayers(records, sources[..n])| == |RecordedBelow(records, sources, n)|
    ensures sources[i].digest in records ==>
              var layers, k := TargetLayers(records, sources[..n]), |RecordedBelow(records, sources, i)|;
              k < |layers| && layers[k] == records[sources[i].digest].target
  {
    hide RecordedBelow, TargetLayers;
    TargetLayersCount(records, sources, n);
    TargetLayersCount(records, sources, n - 1);
    TargetLayersNext(records, sources, n - 1);
    if i < n - 1 {
      TargetLayersInOrder(records, sources, n - 1, i);
    }
  }

  class RemoteCache {
    const size: int
    const version: string
    var records: Records
    var newAdded: nat

    /** History: the sources that were counted as newly added. */
    ghost var added: set<string>

    /** The records are coherent, and newAdded counts distinct recorded sources. Links may be cut. */
    ghost predicate Valid()
      reads this
    {
      Coherent(records) && added <= records.Keys && newAdded == |added|
    }

    constructor (version: string, size: int)
      ensures Valid() && records == map[] && newAdded == 0 && added == {}
      ensures this.version == version && this.size == size
    {
      this.version, this.size := version, size;
      records, newAdded, added := map[], 0, {};
    }

    method GetByTarget(d: string) returns (found: Option<string>)
      ensures found.None? <==> !HasTarget(records, d)
      ensures found.Some? ==> found.value in records && records[found.value].target.digest == d
    {
      if s :| s in records && records[s].target.digest == d {
        return Some(s);
      }
      return None;
    }

    /** Sources take precedence over targets. */
    method Get(d: string) returns (found: Option<Descriptor>)
      ensures found.Some? <==> IsRecorded(records, d)
      ensures d in records ==> found == Some(records[d].source)
      ensures d !in records && found.Some? ==>
                exists s | s in records :: records[s].target == found.value && found.value.digest == d
    {
      if d in records {
        return Some(records[d].source);
      }
      var s := GetByTarget(d);
      match s
      case None => return None;
      case Some(k) => return Some(records[k].target);
    }

    /** Records a conversion, with both links. A target without annotations makes the write panic,
        before anything is recorded. */
    method Put(source: Descriptor, target: Descriptor) returns (panicked: bool)
      modifies this`records
      ensures panicked <==> target.annotations.None?
      ensures records == if panicked then old(records) else old(records)[source.digest := NewItem(source, target)]
      ensures !panicked ==> Pairs(records[source.digest], source, target) && Linked(records[source.digest])
      ensures old(Coherent(records)) ==> Coherent(records)
      ensures old(AllLinked(records)) ==> AllLinked(records)
    {
      if target.annotations.None? {
        return true;
      }
      var s := source;
      if s.annotations.None? {
        s := s.(annotations := Some(map[]));
      }
      s := s.(annotations := Some(s.annotations.value[TARGET_DIGEST := target.digest]));
      var t := target.(annotations := Some(target.annotations.value[SOURCE_DIGEST := s.digest]));
      records := records[s.digest := Item(s, t, false)];
      NewItemRecords(source, target);
      return false;
    }

    /** Records a conversion made now, and counts its source unless a record already names it. The
        count comes first: a panic leaves it one ahead of the records. */
    method Set(source: Descriptor, target: Descriptor) returns (panicked: bool)
      requires Valid()
      modifies this
      ensures panicked <==> target.annotations.None?
      ensures records == if panicked then old(records) else old(records)[source.digest := NewItem(source, target)]
      ensures var known := IsRecorded(old(records), source.digest);
              && newAdded == old(newAdded) + (if known then 0 else 1)
              && added == old(added) + (if known then {} else {source.digest})
              && (Valid() <==> !panicked || known)
      ensures !panicked ==> Pairs(records[source.digest], source, target)
      ensures old(AllLinked(records)) ==> AllLinked(records)
    {
      hide AllLinked, HasTarget, NewItem, Pairs;
      var found := Get(source.digest);
      if found.None? {
        newAdded, added := newAdded + 1, added + {source.digest};
        assert |added| == |old(added)| + 1;
      }
      panicked := Put(source, target);
    }

    /** Merges labels into a record found by its source, or else by its target. The second branch
        merges into the annotations of the source and gives the result to both descriptors. A record
        that was linked stays so just when the labels are harmless for it. */
    method UpdateItem(d: string, labels: Annotations) returns (found: Option<string>)
      requires Valid()
      modifies this`records
      ensures Valid()
      ensures found.Some? <==> IsRecorded(old(records), d)
      ensures d in old(records) ==> found == Some(d)
      ensures found.None? ==> records == old(records)
      ensures found.Some? ==>
                && found.value in old(records)
                && (d in old(records) || old(records)[found.value].target.digest == d)
                && var item, both := old(records)[found.value], d !in old(records) || old(records)[found.value].shared;
                && records == old(records)[found.value := Relabelled(item, both, labels)]
                && Relabels(item, records[found.value], both, labels)
                && (Linked(item) ==> (Linked(records[found.value]) <==> Harmless(item, both, labels)))
    {
      hide Linked, Harmless, Coherent, HasTarget, Relabels;
      ghost var was := records;
      if d in records {
        var item := records[d];
        var merged := Some(AnnotationsOf(item.source) + labels);
        item := item.(source := item.source.(annotations := merged),
                      target := if item.shared then item.target.(annotations := merged) else item.target);
        records := records[d := item];
        RelabelledSays(was[d], was[d].shared, labels);
        RelabelledCoherent(was, d, was[d].shared, labels);
        if Linked(was[d]) {
          RelabelledLinks(was[d], was[d].shared, labels);
        }
        return Some(d);
      }
      var s := GetByTarget(d);
      match s
      case None => return None;
      case Some(k) =>
        var item := records[k];
        var merged := Some(AnnotationsOf(item.source) + labels);
        records := records[k := Item(item.source.(annotations := merged), item.target.(annotations := merged), true)];
        RelabelledSays(was[k], true, labels);
        RelabelledCoherent(was, k, true, labels);
        if Linked(was[k]) {
          RelabelledLinks(was[k], true, labels);
        }
        return Some(k);
    }

    /** The loop of getTargetLayers. */
    method GetTargetLayers(sources: seq<Descriptor>) returns (targets: seq<Descriptor>)
      ensures targets == TargetLayers(records, sources)
    {
      targets := [];
      for i := 0 to |sources|
        invariant targets == TargetLayers(records, sources[..i])
      {
        TargetLayersSplit(records, sources[..i], [sources[i]]);
        assert sources[..i + 1] == sources[..i] + [sources[i]];
        if sources[i].digest in records {
          targets := targets + [records[sources[i].digest].target];
        }
      }
      assert sources[..|sources|] == sources;
    }

    /** Layer i is the first whose source the registry lacks. */
    static predicate FirstMissing(layers: seq<Descriptor>, registry: map<string, Descriptor>, i: int) {
      && 0 <= i < |layers| && Available(layers[..i], registry)
      && ValidDigest(SourceOf(layers[i])) && SourceOf(layers[i]) !in registry
    }

    /** Reads a stored manifest back. One of another version is ignored; a layer without a valid
        source digest is passed over; a source that the registry lacks ends the import. */
    method ImportManifestRecords(manifest: Manifest, registry: map<string, Descriptor>)
      returns (r: Result<(), ImportError>)
      requires Valid()
      requires forall d | d in registry :: registry[d].digest == d
      modifies this`records
      ensures Valid()
      ensures old(AllLinked(records)) ==> AllLinked(records)
      ensures VersionOf(manifest) != version ==> r == Ok(()) && records == old(records)
      ensures VersionOf(manifest) == version && Available(manifest.layers, registry) ==>
                r == Ok(()) && records == Imported(old(records), manifest.layers, registry)
      ensures VersionOf(manifest) == version && !Available(manifest.layers, registry) ==>
                exists i :: FirstMissing(manifest.layers, registry, i) &&
                            r == Err(SourceNotFound(SourceOf(manifest.layers[i]))) &&
                            records == Imported(old(records), manifest.layers[..i], registry)
    {
      hide Imported, Available, ValidDigest, SourceOf, NewItem, AllLinked, Coherent, Linked;
      if VersionOf(manifest) != version {
        return Ok(());
      }
      var layers := manifest.layers;
      NothingImported(old(records), registry);
      assert layers[..0] == [];
      for i := 0 to |layers|
        invariant Valid() && (old(AllLinked(records)) ==> AllLinked(records))
        invariant Available(layers[..i], registry)
        invariant records == Imported(old(records), layers[..i], registry)
      {
        ImportStep(old(records), layers, registry, i);
        var targetDesc := layers[i];
        var sourceDigest := SourceOf(targetDesc);
        if !ValidDigest(sourceDigest) {
          continue;
        }
        if sourceDigest !in registry {
          assert FirstMissing(layers, registry, i);
          return Err(SourceNotFound(sourceDigest));
        }
        var panicked := Put(registry[sourceDigest], Annotated(targetDesc, UNCOMPRESSED, targetDesc.digest));
      }
      assert layers[..|layers|] == layers;
      return Ok(());
    }

    /** How many layers of a conversion have a record, less those recorded meanwhile, and how many
        layers there are. Go subtracts unsigned numbers here. The difference cannot wrap when every
        source recorded meanwhile is a layer that is counted. */
    method HitCount(manifests: seq<seq<Descriptor>>) returns (cached: int, total: nat)
      requires Valid() && |Places(manifests)| < TWO_63
      ensures total == |Places(manifests)|
      ensures cached == (|Hits(records, manifests)| - newAdded) % (2 * TWO_63)
      ensures added <= AllDigests(manifests) ==> 0 <= cached == |Hits(records, manifests)| - newAdded <= total
    {
      hide Coherent, AllDigests, Hits, Places, PlacesBefore, HasTarget, IsRecorded;
      ghost var hits := Hits(records, manifests);
      var count := 0;
      total := 0;
      PlacesBeforeEnds(manifests);
      for m := 0 to |manifests|
        invariant total == |PlacesBefore(manifests, m, 0)| && count == |PlacesBefore(manifests, m, 0) * hits|
      {
        total := total + |manifests[m]|;
        for i := 0 to |manifests[m]|
          invariant total == |PlacesBefore(manifests, m, i)| + |manifests[m]| - i
          invariant count == |PlacesBefore(manifests, m, i) * hits|
        {
          NextPlace(records, manifests, m, i);
          var found := Get(manifests[m][i].digest);
          if found.Some? {
            count := count + 1;
          }
        }
      }
      HitsArePlaces(records, manifests);
      cached := (count - newAdded) % (2 * TWO_63);
      if added <= AllDigests(manifests) {
        HitsDoNotWrap(records, manifests, added);
      }
    }
  }
}
